/**
  What the controllers see, told by the sessions and by the history of
  messages: the meaning of the agreement between server and clients.
*/
module Mirror {
  import opened Common
  import opened Session
  import opened SessionHistory
  import opened Handler
  import opened Views
  import opened Agreement
  import Offline
  import Timeline

  // ---------------------------------------------------------------------
  // Told by the sessions
  // ---------------------------------------------------------------------

  /** A client lists a flight exactly if its station is in a slot of it, and portrays it. */
  ghost predicate Mirrors(sessions: map<Address, SessionState>, flights: Flights, c: Callsign) {
    && (forall a :: a in sessions ==>
          var s := sessions[a];
          && (s.aircraft.callsign in flights <==> Holds(s.active, c) || Holds(s.inactive, c))
          && (s.aircraft.callsign in flights ==> Portrays(flights[s.aircraft.callsign], s, c)))
    && (forall f :: f in flights ==> exists a :: a in sessions && sessions[a].aircraft.callsign == f)
  }

  lemma AgreeingMirrors(sessions: map<Address, SessionState>, flights: Flights, c: Callsign)
    ensures Agrees(sessions, flights, c) <==> Mirrors(sessions, flights, c)
  {
    forall a | a in sessions
      ensures var s := sessions[a];
              Shows(flights, s, c) <==>
                && (s.aircraft.callsign in flights <==> Holds(s.active, c) || Holds(s.inactive, c))
                && (s.aircraft.callsign in flights ==> Portrays(flights[s.aircraft.callsign], s, c))
    {
      var s := sessions[a];
      if s.aircraft.callsign in flights { ViewPortrays(flights[s.aircraft.callsign], s, c); }
    }
  }

  /** Every client mirrors the server, at the start and after every action. */
  ghost predicate AlwaysMirrors(actions: seq<Action>) {
    && (forall c :: c in Exec(actions).clients ==> Mirrors(Exec(actions).sessions, Exec(actions).clients[c], c))
    && (actions != [] ==> AlwaysMirrors(actions[..|actions| - 1]))
  }

  lemma {:induction false} AlwaysAgreeMirrors(actions: seq<Action>)
    ensures AlwaysAgree(actions) <==> AlwaysMirrors(actions)
  {
    var net := Exec(actions);
    forall c | c in net.clients
      ensures Agrees(net.sessions, net.clients[c], c) <==> Mirrors(net.sessions, net.clients[c], c)
    {
      AgreeingMirrors(net.sessions, net.clients[c], c);
    }
    if actions != [] { AlwaysAgreeMirrors(actions[..|actions| - 1]); }
  }

  /**
    After every action of a run each controller lists exactly the aircraft its
    station is connected to, each in the right slot and phase, if and only if
    every action of the run is quiet.
  */
  lemma ClientsMirrorIffQuiet(actions: seq<Action>)
    requires AlwaysSeparate(actions)
    ensures AlwaysMirrors(actions) <==> AlwaysQuiet(actions)
  {
    ClientsAgreeIffQuiet(actions);
    AlwaysAgreeMirrors(actions);
  }

  // ---------------------------------------------------------------------
  // Told by the history
  // ---------------------------------------------------------------------

  /** The session events an action is for the aircraft with address `a`. */
  function HeardOnce(net: Net, action: Action, a: Address): seq<Event> {
    match action
    case Deliver(env) =>
      if env.aircraft.address == a && TouchesStore(env) && Update(env, Cur(net, a)).Ok? then Events(env) else []
    case GoOffline(station, order) =>
      if a in net.sessions && ListsKeys(order, net.sessions.Keys) then [Termination(station)] else []
    case GoOnline(_, _, _) => []
  }

  /** The session events of a run for one aircraft. */
  function Heard(actions: seq<Action>, a: Address): seq<Event> {
    if actions == [] then []
    else
      var init := actions[..|actions| - 1];
      Heard(init, a) + HeardOnce(Exec(init), actions[|actions| - 1], a)
  }

  /** The session of an address that has none yet belongs to the aircraft of the envelope. */
  function Before(net: Net, action: Action, a: Address): SessionState
    requires a in net.sessions || action.Deliver?
  {
    if a in net.sessions then net.sessions[a] else NewSession(action.env.aircraft)
  }

  /** What an action does to one stored session. */
  lemma ActIsHeard(net: Net, action: Action, a: Address)
    requires a in Act(net, action).sessions
    ensures a in net.sessions || action.Deliver?
    ensures Act(net, action).sessions[a] == Replay(Before(net, action, a), HeardOnce(net, action, a))
  {
    match action
    case Deliver(env) =>
      if env.aircraft.address == a && TouchesStore(env) && Update(env, Cur(net, a)).Ok? {
        UpdateIsReplay(env, Cur(net, a));
      }
    case GoOffline(station, order) => DepartureIsHeard(net, station, order, a);
    case GoOnline(_, _, _) =>
  }

  lemma DepartureIsHeard(net: Net, station: Callsign, order: seq<Address>, a: Address)
    requires a in Act(net, GoOffline(station, order)).sessions
    ensures a in net.sessions
    ensures Act(net, GoOffline(station, order)).sessions[a]
         == Replay(net.sessions[a], HeardOnce(net, GoOffline(station, order), a))
  {
    if ListsKeys(order, net.sessions.Keys) {
      forall i | 0 <= i < |order| ensures order[i] in net.sessions { assert order[i] in order; }
      Offline.TerminateAllSessions(net.(clients := net.clients - {station}), station, order);
      ReplayOne(net.sessions[a], Termination(station));
    }
  }

  /** The stored session of the address is the replay of these events, none if there is no session. */
  predicate IsReplayed(net: Net, es: seq<Event>, a: Address) {
    if a in net.sessions then net.sessions[a] == Replay(NewSession(net.sessions[a].aircraft), es) else es == []
  }

  lemma {:induction false} ActKeepsReplayed(net: Net, es: seq<Event>, action: Action, a: Address)
    requires IsReplayed(net, es, a)
    ensures IsReplayed(Act(net, action), es + HeardOnce(net, action, a), a)
  {
    var after, more := Act(net, action), HeardOnce(net, action, a);
    if a in after.sessions {
      ActIsHeard(net, action, a);
      var before := Before(net, action, a);
      assert before == Replay(NewSession(before.aircraft), es);
      ReplayAppend(NewSession(before.aircraft), es, more);
      ReplayKeepsAircraft(before, more);
    } else {
      NothingHeard(net, action, a);
      assert es + more == es;
    }
  }

  lemma NothingHeard(net: Net, action: Action, a: Address)
    requires a !in Act(net, action).sessions
    ensures a !in net.sessions && HeardOnce(net, action, a) == []
  {
    if action.GoOffline? && ListsKeys(action.order, net.sessions.Keys) {
      var order := action.order;
      forall i | 0 <= i < |order| ensures order[i] in net.sessions { assert order[i] in order; }
      Offline.TerminateAllSessions(net.(clients := net.clients - {action.station}), action.station, order);
    }
  }

  /** Every stored session is the replay of what was heard of its aircraft. */
  lemma {:induction false} ExecIsHeard(actions: seq<Action>, a: Address)
    ensures IsReplayed(Exec(actions), Heard(actions, a), a)
  {
    if actions != [] {
      var init := actions[..|actions| - 1];
      ExecIsHeard(init, a);
      ActKeepsReplayed(Exec(init), Heard(init, a), actions[|actions| - 1], a);
    }
  }

  lemma {:induction false} ReplayKeepsAircraft(s: SessionState, es: seq<Event>)
    ensures Replay(s, es).aircraft == s.aircraft
  {
    if es != [] { ReplayKeepsAircraft(s, es[..|es| - 1]); }
  }

  /** The phase a history tells for a station's first connection. */
  function PhaseTold(es: seq<Event>, c: Callsign): Phase {
    if Timeline.ConnectedAfterLogon(es, c) then Connected
    else if Timeline.LoggedOn(es, c) then LoggedOn
    else LogonPending
  }

  /** The view shows the station in its first seat, in the phase the history tells, and who is designated. */
  ghost predicate ShowsHistory(v: SessionView, es: seq<Event>, c: Callsign) {
    var seats := Timeline.Seats(es);
    && (v.active.Some? <==> seats != [] && seats[0].callsign == c)
    && (v.inactive.Some? <==> |seats| == 2 && seats[1].callsign == c)
    && (v.active.Some? ==> v.active.value.phase == PhaseTold(es, c))
    && (v.inactive.Some? && v.active.None? ==> v.inactive.value.phase == PhaseTold(es, c))
    && (v.inactive.Some? && v.active.Some? ==> v.inactive.value.phase == LogonPending)
    && (v.nda.Some? <==> Timeline.Designated(es).Some?)
    && (v.nda.Some? ==> v.nda.value == Timeline.Designated(es).value.callsign)
  }

  lemma PortraitShowsHistory(v: SessionView, s: SessionState, es: seq<Event>, c: Callsign)
    requires Timeline.Told(s, s.aircraft, es) && WellFormed(s) && Portrays(v, s, c)
    ensures ShowsHistory(v, es, c)
    ensures Holds(s.active, c) || Holds(s.inactive, c) <==> Timeline.Among(Timeline.Seats(es), c)
  {
    Timeline.AmongIsOccupies(s);
    if s.active.Some? { assert Timeline.Stations(s)[0] == s.active.value.station; }
    if s.inactive.Some? { assert Timeline.Stations(s)[1] == s.inactive.value.station; }
  }

  /**
    End to end: in a quiet run a controller lists an aircraft exactly if what
    was heard of it gives the station a seat, and shows what that history tells.
  */
  lemma ClientsShowHistory(actions: seq<Action>, c: Callsign, a: Address)
    requires AlwaysSeparate(actions) && AlwaysQuiet(actions)
    requires c in Exec(actions).clients && a in Exec(actions).sessions
    ensures var flights, f := Exec(actions).clients[c], Exec(actions).sessions[a].aircraft.callsign;
            && (f in flights <==> Timeline.Among(Timeline.Seats(Heard(actions, a)), c))
            && (f in flights ==> ShowsHistory(flights[f], Heard(actions, a), c))
  {
    ClientsMirrorIffQuiet(actions);
    ExecIsHeard(actions, a);
    var s := Exec(actions).sessions[a];
    Timeline.ReplayIsTold(s.aircraft, Heard(actions, a));
    ReplayKeepsWellFormed(NewSession(s.aircraft), Heard(actions, a));
    assert Mirrors(Exec(actions).sessions, Exec(actions).clients[c], c);
    PortraitShowsHistory(ToStationView(s, c), s, Heard(actions, a), c) by { ViewPortrays(ToStationView(s, c), s, c); }
    var flights := Exec(actions).clients[c];
    if s.aircraft.callsign in flights {
      PortraitShowsHistory(flights[s.aircraft.callsign], s, Heard(actions, a), c);
    }
  }
}
