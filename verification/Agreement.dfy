/**
  The server and its ATC clients as one system. The server handles one event
  at a time and its messages arrive in order; a client learns about sessions
  only from the views it is sent. The theorem says exactly when every client
  shows what the server stores.
*/
module Agreement {
  import opened Common
  import opened Session
  import opened Handler
  import opened Sequences
  import opened Views
  import Store

  type Flights = map<Callsign, SessionView>

  /** Stored sessions by aircraft address, and the flights shown by each reachable station. */
  datatype Net = Net(sessions: map<Address, SessionState>, clients: map<Callsign, Flights>)

  /** `order` is the order in which the store happens to list its keys. */
  datatype Action =
    | Deliver(env: Envelope)
    | GoOffline(station: Callsign, order: seq<Address>)
    | GoOnline(station: Callsign, kept: Flights, order: seq<Address>)

  // ---------------------------------------------------------------------
  // Server actions
  // ---------------------------------------------------------------------

  function Broadcast(clients: map<Callsign, Flights>, s: SessionState, source: Callsign, destination: Callsign)
    : map<Callsign, Flights>
  {
    map c | c in clients ::
      if IsTarget(s, source, destination, c) then Reconcile(clients[c], ToStationView(s, c)) else clients[c]
  }

  /** The sending loop: one view to each target that is reachable. */
  method SendToTargets(clients: map<Callsign, Flights>, s: SessionState, source: Callsign, destination: Callsign)
    returns (after: map<Callsign, Flights>)
    ensures after == Broadcast(clients, s, source, destination)
  {
    var targets := BroadcastTargets(s, source, destination);
    assert forall c :: c in targets <==> IsTarget(s, source, destination, c);
    after := clients;
    var remaining := targets;
    while remaining != {}
      invariant remaining <= targets
      invariant after.Keys == clients.Keys
      invariant forall c :: c in clients ==>
        after[c] == if c in targets && c !in remaining then Reconcile(clients[c], ToStationView(s, c)) else clients[c]
      decreases remaining
    {
      var c :| c in remaining;
      remaining := remaining - {c};
      if c in after {
        after := after[c := Reconcile(after[c], ToStationView(s, c))];
      }
    }
  }

  function Cur(net: Net, a: Address): Option<SessionState> {
    if a in net.sessions then Some(net.sessions[a]) else None
  }

  function OnDeliver(net: Net, env: Envelope): Net {
    var a := env.aircraft.address;
    if TouchesStore(env) && Update(env, Cur(net, a)).Ok? then
      var s := Update(env, Cur(net, a)).value;
      Net(net.sessions[a := s], Broadcast(net.clients, s, env.source, env.destination))
    else net
  }

  /** Terminate `station` in one listed session; other parties hear of it only if it is gone. */
  function TerminateOne(net: Net, station: Callsign, a: Address): Net {
    if a !in net.sessions || !Store.Relevant(net.sessions[a], station) then net
    else
      var s := net.sessions[a];
      var t := OnTermination(s, station);
      Net(net.sessions[a := t],
          if Occupies(t, station) then net.clients
          else Broadcast(net.clients, t, station, s.aircraft.callsign))
  }

  function TerminateAll(net: Net, station: Callsign, order: seq<Address>): Net {
    if order == [] then net
    else TerminateOne(TerminateAll(net, station, order[..|order| - 1]), station, order[|order| - 1])
  }

  /** Replay the snapshots relevant to a station that came online. */
  function SyncAll(kept: Flights, sessions: map<Address, SessionState>, station: Callsign,
                   order: seq<Address>): Flights {
    if order == [] then kept
    else
      var before := SyncAll(kept, sessions, station, order[..|order| - 1]);
      var a := order[|order| - 1];
      if a in sessions && Occupies(sessions[a], station)
      then Reconcile(before, ToStationView(sessions[a], station))
      else before
  }

  predicate ListsKeys(order: seq<Address>, keys: set<Address>) {
    && Distinct(order)
    && (forall a :: a in order ==> a in keys)
    && (forall a :: a in keys ==> a in order)
  }

  function Act(net: Net, action: Action): Net {
    match action
    case Deliver(env) => OnDeliver(net, env)
    case GoOffline(station, order) =>
      if ListsKeys(order, net.sessions.Keys)
      then TerminateAll(net.(clients := net.clients - {station}), station, order)
      else net
    case GoOnline(station, kept, order) =>
      if ListsKeys(order, net.sessions.Keys)
      then net.(clients := net.clients[station := SyncAll(kept, net.sessions, station, order)])
      else net
  }

  // ---------------------------------------------------------------------
  // Agreement
  // ---------------------------------------------------------------------

  ghost predicate Shows(flights: Flights, s: SessionState, c: Callsign) {
    if Occupies(s, c)
    then s.aircraft.callsign in flights && flights[s.aircraft.callsign] == ToStationView(s, c)
    else s.aircraft.callsign !in flights
  }

  predicate Known(sessions: map<Address, SessionState>, flight: Callsign) {
    exists a :: a in sessions && sessions[a].aircraft.callsign == flight
  }

  /** Client `c` shows exactly the sessions it occupies, each as the server sees it. */
  ghost predicate Agrees(sessions: map<Address, SessionState>, flights: Flights, c: Callsign) {
    && (forall a :: a in sessions ==> Shows(flights, sessions[a], c))
    && (forall f :: f in flights ==> Known(sessions, f))
  }

  ghost predicate AllAgree(net: Net) {
    forall c :: c in net.clients ==> Agrees(net.sessions, net.clients[c], c)
  }

  /** Callsigns identify aircraft, and no reachable station uses one of them. */
  predicate Separate(net: Net) {
    && (forall a, b :: a in net.sessions && b in net.sessions && a != b ==>
          net.sessions[a].aircraft.callsign != net.sessions[b].aircraft.callsign)
    && (forall a, c :: a in net.sessions && c in net.clients ==> net.sessions[a].aircraft.callsign != c)
  }

  /**
    The one case the broadcast misses: a request fills the inactive slot over
    another station that takes no part in the exchange.
  */
  predicate SilentlyEvicts(s: SessionState, env: Envelope, c: Callsign) {
    && s.active.Some? && !Holds(s.active, c) && Holds(s.inactive, c)
    && c != env.source && c != env.destination
    && (match env.message
        case LogonRequestMessage(station) => station != c
        case ConnectionRequestMessage =>
          !Occupies(s, env.source) && s.nda.Some? && s.nda.value.callsign == env.source
        case _ => false)
  }

  /** A station that loses its slots is told, unless it is silently evicted. */
  lemma LosersAreTargets(env: Envelope, s: SessionState, c: Callsign)
    requires TouchesStore(env) && Update(env, Some(s)).Ok?
    requires Occupies(s, c) && c != s.aircraft.callsign
    ensures var t := Update(env, Some(s)).value;
            (!Occupies(t, c) && !TookPart(t, env.source, env.destination, c)) <==> SilentlyEvicts(s, env, c)
  {
    Store.UpdateKeepsAircraft(env, Some(s));
    if env.message.Application? && c != env.source {
      ElementsKeepOthers(s, env.source, env.message.elements, c);
    }
  }

  /** A logon request to a third station: the one in the inactive slot loses it and is not told. */
  lemma EvictedIsNotTold(aircraft: Endpoint, a: Endpoint, b: Endpoint)
    requires a.callsign != b.callsign && aircraft.callsign != b.callsign && b.callsign != "C"
    ensures var s := OnLogonRequest(OnLogonRequest(NewSession(aircraft), a), b);
            var env := Envelope(aircraft, aircraft.callsign, "C", LogonRequestMessage("C"));
            var t := Update(env, Some(s));
            && TouchesStore(env) && t.Ok?
            && Occupies(s, b.callsign) && !Occupies(t.value, b.callsign)
            && !IsTarget(t.value, env.source, env.destination, b.callsign)
  {
    var s := OnLogonRequest(OnLogonRequest(NewSession(aircraft), a), b);
    LosersAreTargets(Envelope(aircraft, aircraft.callsign, "C", LogonRequestMessage("C")), s, b.callsign);
  }

  lemma {:induction false} ElementsKeepOthers(s: SessionState, source: Callsign, es: seq<Element>, c: Callsign)
    requires c != source
    ensures Occupies(OnElements(s, source, es), c) <==> Occupies(s, c)
  {
    if es != [] {
      ElementsKeepOthers(s, source, es[..|es| - 1], c);
    }
  }

  /** What a broadcast does to one client's picture of the broadcast session. */
  lemma BroadcastShows(flights: Flights, s: SessionState, source: Callsign, destination: Callsign, c: Callsign)
    ensures var view := ToStationView(s, c);
            var after := if IsTarget(s, source, destination, c) then Reconcile(flights, view) else flights;
            && (Shows(after, s, c) <==>
                  (IsTarget(s, source, destination, c) || s.aircraft.callsign !in flights))
            && (forall f :: f != s.aircraft.callsign ==> (f in after <==> f in flights))
            && (forall f :: f != s.aircraft.callsign && f in flights ==> after[f] == flights[f])
  {
  }

  /** Replacing one session and broadcasting it: who agrees afterwards. */
  lemma ReplaceAndBroadcast(net: Net, a: Address, t: SessionState, source: Callsign, destination: Callsign, c: Callsign)
    requires c in net.clients && Agrees(net.sessions, net.clients[c], c)
    requires a in net.sessions ==> t.aircraft.callsign == net.sessions[a].aircraft.callsign
    requires Separate(Net(net.sessions[a := t], net.clients))
    ensures var wasShown := a in net.sessions && Occupies(net.sessions[a], c);
            Agrees(net.sessions[a := t], Broadcast(net.clients, t, source, destination)[c], c)
            <==> (wasShown ==> IsTarget(t, source, destination, c))
  {
    var sessions' := net.sessions[a := t];
    var flights := net.clients[c];
    var after := Broadcast(net.clients, t, source, destination)[c];
    BroadcastShows(flights, t, source, destination, c);
    var flight := t.aircraft.callsign;
    assert flight in flights <==> a in net.sessions && Occupies(net.sessions[a], c) by {
      if a in net.sessions {
        assert Shows(flights, net.sessions[a], c);
      } else {
        forall b | b in net.sessions ensures net.sessions[b].aircraft.callsign != flight {
          assert sessions'[b].aircraft.callsign != sessions'[a].aircraft.callsign;
        }
        assert !Known(net.sessions, flight);
      }
    }
    forall b | b in sessions' && b != a ensures Shows(after, sessions'[b], c) {
      assert Shows(flights, net.sessions[b], c);
      assert sessions'[b].aircraft.callsign != sessions'[a].aircraft.callsign;
    }
    forall f | f in after ensures Known(sessions', f) {
      if f == flight {
        assert sessions'[a].aircraft.callsign == f;
      } else {
        assert Known(net.sessions, f);
        var b :| b in net.sessions && net.sessions[b].aircraft.callsign == f;
        assert sessions'[b].aircraft.callsign == f;
      }
    }
    assert sessions'[a] == t;
    assert Agrees(sessions', after, c) <==> Shows(after, t, c);
  }

  /**
    Handling one envelope keeps every client in agreement if and only if it
    silently evicts no reachable station, a test on the state before.
  */
  lemma DeliverAgreesIff(net: Net, env: Envelope)
    requires AllAgree(net) && Separate(net) && Separate(OnDeliver(net, env))
    ensures AllAgree(OnDeliver(net, env)) <==> Quiet(net, Deliver(env))
  {
    var a := env.aircraft.address;
    if TouchesStore(env) && Update(env, Cur(net, a)).Ok? {
      var s := Cur(net, a);
      var t := Update(env, s).value;
      Store.UpdateKeepsAircraft(env, s);
      var net' := OnDeliver(net, env);
      assert net'.sessions[a] == t;
      assert Separate(Net(net.sessions[a := t], net.clients)) by {
        assert forall c :: c in net.clients <==> c in net'.clients;
      }
      forall c | c in net.clients
        ensures Agrees(net'.sessions, net'.clients[c], c) <==> (s.None? || !SilentlyEvicts(s.value, env, c))
      {
        ReplaceAndBroadcast(net, a, t, env.source, env.destination, c);
        if s.Some? && Occupies(s.value, c) {
          assert net.sessions[a].aircraft.callsign != c;
          LosersAreTargets(env, s.value, c);
        }
      }
      assert net'.clients.Keys == net.clients.Keys;
    }
  }

  predicate Quiet(net: Net, action: Action) {
    match action
    case Deliver(env) =>
      var s := Cur(net, env.aircraft.address);
      TouchesStore(env) && s.Some? && Update(env, s).Ok? ==>
        forall c :: c in net.clients ==> !SilentlyEvicts(s.value, env, c)
    case GoOffline(_, _) => true
    case GoOnline(station, kept, order) =>
      ListsKeys(order, net.sessions.Keys) ==>
        forall f :: f in kept ==> Shown(net.sessions, station, f)
  }

  /** Some session of flight `f` has `station` in a slot. */
  predicate Shown(sessions: map<Address, SessionState>, station: Callsign, f: Callsign) {
    exists a :: a in sessions && sessions[a].aircraft.callsign == f && Occupies(sessions[a], station)
  }

  /** A station that held both slots still holds one: nobody else sees a change. */
  lemma HeldTwice(net: Net, station: Callsign, a: Address, c: Callsign)
    requires Separate(net) && c in net.clients && c != station && Agrees(net.sessions, net.clients[c], c)
    requires a in net.sessions && Occupies(OnTermination(net.sessions[a], station), station)
    ensures Agrees(net.sessions[a := OnTermination(net.sessions[a], station)], net.clients[c], c)
  {
    var sessions' := net.sessions[a := OnTermination(net.sessions[a], station)];
    forall b | b in sessions' ensures Shows(net.clients[c], sessions'[b], c) {
      assert Shows(net.clients[c], net.sessions[b], c);
    }
    forall f | f in net.clients[c] ensures Known(sessions', f) {
      assert Known(net.sessions, f);
      var b :| b in net.sessions && net.sessions[b].aircraft.callsign == f;
      assert sessions'[b].aircraft.callsign == f;
    }
  }

  lemma SameAircraftSeparate(net: Net, net': Net)
    requires Separate(net) && net'.clients.Keys == net.clients.Keys && net'.sessions.Keys == net.sessions.Keys
    requires forall b :: b in net.sessions ==> net'.sessions[b].aircraft == net.sessions[b].aircraft
    ensures Separate(net')
  {}

  lemma {:induction false} TerminateOneAgrees(net: Net, station: Callsign, a: Address)
    requires AllAgree(net) && Separate(net) && station !in net.clients
    ensures AllAgree(TerminateOne(net, station, a)) && Separate(TerminateOne(net, station, a))
    ensures TerminateOne(net, station, a).clients.Keys == net.clients.Keys
    ensures TerminateOne(net, station, a).sessions.Keys == net.sessions.Keys
  {
    if a in net.sessions && Store.Relevant(net.sessions[a], station) {
      var s := net.sessions[a];
      var t := OnTermination(s, station);
      var net' := TerminateOne(net, station, a);
      SameAircraftSeparate(net, net');
      assert Net(net.sessions[a := t], net.clients).sessions == net'.sessions;
      forall c | c in net.clients ensures Agrees(net'.sessions, net'.clients[c], c) {
        if Occupies(t, station) {
          HeldTwice(net, station, a, c);
        } else {
          ReplaceAndBroadcast(net, a, t, station, s.aircraft.callsign, c);
        }
      }
    }
  }

  lemma {:induction false} TerminateAllAgrees(net: Net, station: Callsign, order: seq<Address>)
    requires AllAgree(net) && Separate(net) && station !in net.clients
    ensures AllAgree(TerminateAll(net, station, order)) && Separate(TerminateAll(net, station, order))
    ensures TerminateAll(net, station, order).clients.Keys == net.clients.Keys
  {
    if order != [] {
      TerminateAllAgrees(net, station, order[..|order| - 1]);
      TerminateOneAgrees(TerminateAll(net, station, order[..|order| - 1]), station, order[|order| - 1]);
    }
  }

  ghost predicate Synced(flights: Flights, kept: Flights, sessions: map<Address, SessionState>, station: Callsign,
                         order: seq<Address>) {
    && (forall a :: a in order && a in sessions && Occupies(sessions[a], station) ==>
          Shows(flights, sessions[a], station))
    && (forall f :: f in flights <==>
          f in kept || exists a :: a in order && a in sessions && sessions[a].aircraft.callsign == f
                                   && Occupies(sessions[a], station))
  }

  lemma {:induction false} SyncAllSyncs(kept: Flights, net: Net, station: Callsign, order: seq<Address>, n: nat)
    requires Separate(net) && ListsKeys(order, net.sessions.Keys) && n <= |order|
    ensures Synced(SyncAll(kept, net.sessions, station, order[..n]), kept, net.sessions, station, order[..n])
  {
    if n > 0 {
      var prefix, a := order[..n - 1], order[n - 1];
      assert order[..n] == prefix + [a];
      SyncAllSyncs(kept, net, station, order, n - 1);
      SyncOne(SyncAll(kept, net.sessions, station, prefix), kept, net, station, prefix, a);
    }
  }

  lemma SyncOne(before: Flights, kept: Flights, net: Net, station: Callsign, prefix: seq<Address>, a: Address)
    requires Separate(net) && Synced(before, kept, net.sessions, station, prefix)
    requires a in net.sessions && a !in prefix
    ensures var after := if Occupies(net.sessions[a], station)
                         then Reconcile(before, ToStationView(net.sessions[a], station)) else before;
            Synced(after, kept, net.sessions, station, prefix + [a])
  {
    var s := net.sessions[a];
    var after := if Occupies(s, station) then Reconcile(before, ToStationView(s, station)) else before;
    forall b | b in prefix + [a] && b in net.sessions && Occupies(net.sessions[b], station)
      ensures Shows(after, net.sessions[b], station)
    {
      if b != a {
        assert b in prefix;
        assert Shows(before, net.sessions[b], station);
        assert net.sessions[b].aircraft.callsign != s.aircraft.callsign;
      }
    }
    forall f
      ensures f in after <==>
        f in kept || exists b :: b in prefix + [a] && b in net.sessions && net.sessions[b].aircraft.callsign == f
                                 && Occupies(net.sessions[b], station)
    {
      if f in after && f !in before {
        assert a in prefix + [a];
      } else if f in before && f !in kept {
        var b :| b in prefix && b in net.sessions && net.sessions[b].aircraft.callsign == f
                 && Occupies(net.sessions[b], station);
        assert b in prefix + [a];
      }
    }
  }

  lemma SyncedAgreesIff(flights: Flights, kept: Flights, net: Net, station: Callsign, order: seq<Address>)
    requires Separate(net) && ListsKeys(order, net.sessions.Keys)
    requires Synced(flights, kept, net.sessions, station, order)
    ensures Agrees(net.sessions, flights, station) <==> (forall f :: f in kept ==> Shown(net.sessions, station, f))
  {
    if Agrees(net.sessions, flights, station) {
      forall f | f in kept ensures Shown(net.sessions, station, f) {
        assert Known(net.sessions, f);
        var a :| a in net.sessions && net.sessions[a].aircraft.callsign == f;
        assert Shows(flights, net.sessions[a], station);
      }
    }
    if forall f :: f in kept ==> Shown(net.sessions, station, f) {
      forall f | f in flights ensures Shown(net.sessions, station, f) { }
      forall a | a in net.sessions ensures Shows(flights, net.sessions[a], station) {
        assert a in order;
        assert Shown(net.sessions, station, net.sessions[a].aircraft.callsign) ==> Occupies(net.sessions[a], station);
      }
    }
  }

  /** A station that comes online agrees if and only if it kept no flight it no longer occupies. */
  lemma GoOnlineAgreesIff(net: Net, station: Callsign, kept: Flights, order: seq<Address>)
    requires AllAgree(net) && Separate(net)
    requires ListsKeys(order, net.sessions.Keys)
    ensures AllAgree(Act(net, GoOnline(station, kept, order))) <==> Quiet(net, GoOnline(station, kept, order))
  {
    SyncAllSyncs(kept, net, station, order, |order|);
    assert order[..|order|] == order;
    var flights := SyncAll(kept, net.sessions, station, order);
    SyncedAgreesIff(flights, kept, net, station, order);
    var net' := Act(net, GoOnline(station, kept, order));
    assert net'.clients[station] == flights;
    assert forall c :: c in net'.clients && c != station ==> Agrees(net'.sessions, net'.clients[c], c);
  }

  // ---------------------------------------------------------------------
  // Whole runs
  // ---------------------------------------------------------------------

  function ActAll(net: Net, actions: seq<Action>): Net {
    if actions == [] then net else Act(ActAll(net, actions[..|actions| - 1]), actions[|actions| - 1])
  }

  function Exec(actions: seq<Action>): Net {
    ActAll(Net(map[], map[]), actions)
  }

  /** Separate at the start and after every action. */
  ghost predicate AlwaysSeparate(actions: seq<Action>) {
    Separate(Exec(actions)) && (actions != [] ==> AlwaysSeparate(actions[..|actions| - 1]))
  }

  /** In agreement at the start and after every action. */
  ghost predicate AlwaysAgree(actions: seq<Action>) {
    AllAgree(Exec(actions)) && (actions != [] ==> AlwaysAgree(actions[..|actions| - 1]))
  }

  /** Every action is quiet in the state it finds. */
  ghost predicate AlwaysQuiet(actions: seq<Action>) {
    actions != [] ==>
      var init := actions[..|actions| - 1];
      AlwaysQuiet(init) && Quiet(Exec(init), actions[|actions| - 1])
  }

  lemma {:induction false} ActAgreesIff(net: Net, action: Action)
    requires AllAgree(net) && Separate(net) && Separate(Act(net, action))
    ensures AllAgree(Act(net, action)) <==> Quiet(net, action)
  {
    match action
    case Deliver(env) =>
      DeliverAgreesIff(net, env);
    case GoOffline(station, order) =>
      if ListsKeys(order, net.sessions.Keys) {
        TerminateAllAgrees(net.(clients := net.clients - {station}), station, order);
      }
    case GoOnline(station, kept, order) =>
      if ListsKeys(order, net.sessions.Keys) {
        GoOnlineAgreesIff(net, station, kept, order);
      }
  }

  /**
    Server and clients agree after every action of a run if and only if no
    action of the run silently evicts a station or brings back stale flights.
  */
  lemma {:induction false} ClientsAgreeIffQuiet(actions: seq<Action>)
    requires AlwaysSeparate(actions)
    ensures AlwaysAgree(actions) <==> AlwaysQuiet(actions)
  {
    if actions != [] {
      var init, last := actions[..|actions| - 1], actions[|actions| - 1];
      ClientsAgreeIffQuiet(init);
      if AlwaysAgree(init) { ActAgreesIff(Exec(init), last); }
    }
  }

  // ---------------------------------------------------------------------
  // Stale flights
  // ---------------------------------------------------------------------

  /** A session whose aircraft asked the station for a logon. */
  function Asked(a: Endpoint, c: Callsign): SessionState {
    OnLogonRequest(NewSession(a), Endpoint(c, ""))
  }

  /** A station comes online, is asked for a logon, goes offline, and comes back with the flights it kept. */
  function Returning(a: Endpoint, c: Callsign): seq<Action> {
    var env := Envelope(a, a.callsign, c, LogonRequestMessage(c));
    var kept := map[a.callsign := ToStationView(Asked(a, c), c)];
    [GoOnline(c, map[], []), Deliver(env), GoOffline(c, [a.address]), GoOnline(c, kept, [a.address])]
  }

  lemma ActAllStep(net: Net, actions: seq<Action>, n: nat)
    requires n < |actions|
    ensures ActAll(net, actions[..n + 1]) == Act(ActAll(net, actions[..n]), actions[n])
  {
    assert actions[..n + 1][..n] == actions[..n];
  }

  lemma ReturningFirst(a: Endpoint, c: Callsign)
    requires c != a.callsign
    ensures var actions := Returning(a, c);
            && Act(Net(map[], map[]), actions[0]) == Net(map[], map[c := map[]])
            && Act(Net(map[], map[c := map[]]), actions[1])
            == Net(map[a.address := Asked(a, c)], map[c := actions[3].kept])
  {
    var env := Returning(a, c)[1].env;
    var asked, clients := Asked(a, c), map[c := map[]];
    assert Update(env, None) == Ok(asked);
    var flights: Flights := map[];
    assert Reconcile(flights, ToStationView(asked, c)) == map[a.callsign := ToStationView(asked, c)];
    assert Broadcast(clients, asked, a.callsign, c) == map[c := Returning(a, c)[3].kept];
  }

  lemma ReturningSecond(a: Endpoint, c: Callsign)
    requires c != a.callsign
    ensures var actions := Returning(a, c);
            var over := map[a.address := NewSession(a)];
            && Act(Net(map[a.address := Asked(a, c)], map[c := actions[3].kept]), actions[2]) == Net(over, map[])
            && Act(Net(over, map[]), actions[3]) == Net(over, map[c := actions[3].kept])
  {
    var order := [a.address];
    var left := Net(map[a.address := Asked(a, c)], map[]);
    assert order[..0] == [];
    assert ListsKeys(order, {a.address});
    assert OnTermination(Asked(a, c), c) == NewSession(a);
    assert TerminateAll(left, c, order) == TerminateOne(left, c, a.address);
    assert left.sessions[a.address := NewSession(a)] == map[a.address := NewSession(a)];
    var kept := Returning(a, c)[3].kept;
    assert (map[c := kept] - {c}) == map[];
    assert SyncAll(kept, map[a.address := NewSession(a)], c, order) == kept;
  }

  /** What the run does, action by action: the kept flights are those the station had. */
  lemma ReturningStates(a: Endpoint, c: Callsign)
    requires c != a.callsign
    ensures var actions := Returning(a, c);
            var over := map[a.address := NewSession(a)];
            && Exec(actions[..2]) == Net(map[a.address := Asked(a, c)], map[c := actions[3].kept])
            && Exec(actions[..3]) == Net(over, map[]) && Exec(actions) == Net(over, map[c := actions[3].kept])
  {
    var actions := Returning(a, c);
    var empty := Net(map[], map[]);
    assert actions[..0] == [] && actions[..4] == actions;
    ActAllStep(empty, actions, 0);
    ActAllStep(empty, actions, 1);
    ActAllStep(empty, actions, 2);
    ActAllStep(empty, actions, 3);
    ReturningFirst(a, c);
    ReturningSecond(a, c);
  }

  /**
    The station's session ended while it was away and nobody told it: server
    and clients agreed until then, and the last action, which is not quiet,
    leaves a stale flight.
  */
  lemma KeptFlightsAreStale(a: Endpoint, c: Callsign)
    requires c != a.callsign
    ensures var actions := Returning(a, c);
            && c in Exec(actions[..2]).clients && actions[3].kept == Exec(actions[..2]).clients[c]
            && AllAgree(Exec(actions[..3])) && !Quiet(Exec(actions[..3]), actions[3])
            && !AllAgree(Exec(actions))
  {
    var actions := Returning(a, c);
    ReturningStates(a, c);
    var net := Exec(actions);
    assert !Shows(net.clients[c], net.sessions[a.address], c);
    assert !Shown(Exec(actions[..3]).sessions, c, a.callsign);
    assert ListsKeys([a.address], {a.address});
  }
}
