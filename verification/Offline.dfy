/**
  A station goes offline, by its own word or because its lease ran out: its
  service ends in every session, the aircraft concerned are told, and the
  other stations get the new views.
*/
module Offline {
  import opened Common
  import opened Session
  import opened Sequences
  import opened Registry
  import opened Presence
  import opened Agreement

  /** The message that tells an aircraft that a station ended its service. */
  datatype EndService = EndService(to: NetworkAddress, aircraft: Endpoint, station: Callsign)

  // ---------------------------------------------------------------------
  // Specification
  // ---------------------------------------------------------------------

  /** One broadcast for each session the station was released from. */
  function BroadcastEach(clients: map<Callsign, Flights>, released: seq<SessionState>, station: Callsign)
    : map<Callsign, Flights>
  {
    if released == [] then clients
    else
      var s := released[|released| - 1];
      Broadcast(BroadcastEach(clients, released[..|released| - 1], station), s, station, s.aircraft.callsign)
  }

  /** The message for one released session, if the registry finds the aircraft. */
  function EndServiceFor(s: SessionState, reg: Reg, key: Keying, station: Callsign): seq<EndService> {
    match Lookup(reg, key, s.aircraft.callsign)
    case Some(entry) => [EndService(entry.networkAddress, s.aircraft, station)]
    case None => []
  }

  function EndServices(released: seq<SessionState>, reg: Reg, key: Keying, station: Callsign): seq<EndService> {
    if released == [] then []
    else
      EndServices(released[..|released| - 1], reg, key, station)
      + EndServiceFor(released[|released| - 1], reg, key, station)
  }

  predicate LosesStation(s: SessionState, station: Callsign) {
    Store.Relevant(s, station) && !Occupies(OnTermination(s, station), station)
  }

  // ---------------------------------------------------------------------
  // The broadcasts of a termination
  // ---------------------------------------------------------------------

  /** The sessions of `order` the station is released from, after its termination. */
  function ReleasedAlong(sessions: Sessions, order: seq<Address>, station: Callsign): seq<SessionState>
    requires forall i :: 0 <= i < |order| ==> order[i] in sessions
  {
    if order == [] then []
    else
      var s := sessions[order[|order| - 1]];
      ReleasedAlong(sessions, order[..|order| - 1], station)
      + (if LosesStation(s, station) then [OnTermination(s, station)] else [])
  }

  lemma BroadcastSnoc(clients: map<Callsign, Flights>, released: seq<SessionState>, s: SessionState, station: Callsign)
    ensures BroadcastEach(clients, released + [s], station)
         == Broadcast(BroadcastEach(clients, released, station), s, station, s.aircraft.callsign)
  {
    assert (released + [s])[..|released|] == released;
  }

  lemma {:induction false} TerminateAllSessions(net: Net, station: Callsign, order: seq<Address>)
    requires Distinct(order) && forall i :: 0 <= i < |order| ==> order[i] in net.sessions
    ensures var after := TerminateAll(net, station, order).sessions;
            && after.Keys == net.sessions.Keys
            && forall a :: a in net.sessions ==>
                 after[a] == if a in order then OnTermination(net.sessions[a], station) else net.sessions[a]
  {
    if order != [] {
      var init, a := order[..|order| - 1], order[|order| - 1];
      assert order == init + [a];
      TerminateAllSessions(net, station, init);
      assert a !in init;
    }
  }

  /** Terminating and broadcasting in turn is terminating everywhere first and broadcasting then. */
  lemma {:induction false} TerminateAllClients(net: Net, station: Callsign, order: seq<Address>)
    requires Distinct(order) && forall i :: 0 <= i < |order| ==> order[i] in net.sessions
    ensures TerminateAll(net, station, order).clients
         == BroadcastEach(net.clients, ReleasedAlong(net.sessions, order, station), station)
  {
    if order != [] {
      var init, a := order[..|order| - 1], order[|order| - 1];
      assert order == init + [a];
      TerminateAllClients(net, station, init);
      TerminateAllSessions(net, station, init);
      assert a !in init;
      var s, before := net.sessions[a], ReleasedAlong(net.sessions, init, station);
      assert TerminateAll(net, station, init).sessions[a] == s;
      if LosesStation(s, station) {
        BroadcastSnoc(net.clients, before, OnTermination(s, station), station);
      } else {
        assert ReleasedAlong(net.sessions, order, station) == before;
      }
    }
  }

  lemma {:induction false} ReleasedAlongAppend(sessions: Sessions, xs: seq<Address>, ys: seq<Address>,
                                               station: Callsign)
    requires forall i :: 0 <= i < |xs| ==> xs[i] in sessions
    requires forall i :: 0 <= i < |ys| ==> ys[i] in sessions && !LosesStation(sessions[ys[i]], station)
    ensures ReleasedAlong(sessions, xs + ys, station) == ReleasedAlong(sessions, xs, station)
  {
    if ys == [] {
      assert xs + ys == xs;
    } else {
      assert (xs + ys)[..|xs + ys| - 1] == xs + ys[..|ys| - 1];
      ReleasedAlongAppend(sessions, xs, ys[..|ys| - 1], station);
    }
  }

  function Addresses(released: seq<SessionState>): seq<Address> {
    seq(|released|, i requires 0 <= i < |released| => AddressOf(released[i]))
  }

  ghost predicate ReleasedFrom(released: seq<SessionState>, sessions: Sessions, station: Callsign) {
    forall i :: 0 <= i < |released| ==>
      var a := AddressOf(released[i]);
      a in sessions && LosesStation(sessions[a], station) && released[i] == OnTermination(sessions[a], station)
  }

  lemma {:induction false} ReleasedAlongAddresses(released: seq<SessionState>, sessions: Sessions, station: Callsign)
    requires ReleasedFrom(released, sessions, station)
    ensures forall i :: 0 <= i < |released| ==> Addresses(released)[i] in sessions
    ensures ReleasedAlong(sessions, Addresses(released), station) == released
  {
    if released != [] {
      var init := released[..|released| - 1];
      ReleasedAlongAddresses(init, sessions, station);
      assert Addresses(released)[..|released| - 1] == Addresses(init);
      assert released == init + [released[|released| - 1]];
    }
  }

  lemma ReleasedAreFrom(released: seq<SessionState>, sessions: Sessions, station: Callsign)
    requires Keyed(sessions) && ReleasedExactly(released, sessions, station)
    ensures ReleasedFrom(released, sessions, station)
    ensures forall a :: a in sessions && LosesStation(sessions[a], station) ==> a in Addresses(released)
  {
    forall i | 0 <= i < |released|
      ensures var a := AddressOf(released[i]);
              a in sessions && LosesStation(sessions[a], station) && released[i] == OnTermination(sessions[a], station)
    {
      assert WasReleased(released[i], sessions, station);
    }
    forall a | a in sessions && LosesStation(sessions[a], station) ensures a in Addresses(released) {
      var i :| 0 <= i < |released| && released[i] == OnTermination(sessions[a], station);
      assert Addresses(released)[i] == a;
    }
  }

  /** Some list of a finite set of keys. */
  lemma ListOf(keys: set<Address>) returns (order: seq<Address>)
    ensures ListsKeys(order, keys)
  {
    order := [];
    var rest := keys;
    while rest != {}
      invariant rest <= keys && Distinct(order)
      invariant forall a :: a in order <==> a in keys && a !in rest
      decreases rest
    {
      var a :| a in rest;
      rest := rest - {a};
      order := order + [a];
    }
  }

  /**
    The server's way - all terminations, then the broadcasts - gives what
    terminating and broadcasting session by session gives, in some order.
  */
  lemma EndsAsTerminateAll(net: Net, released: seq<SessionState>, station: Callsign) returns (order: seq<Address>)
    requires Keyed(net.sessions) && ReleasedExactly(released, net.sessions, station)
    ensures ListsKeys(order, net.sessions.Keys)
    ensures TerminateAll(net, station, order)
         == Net(TerminatedEverywhere(net.sessions, station), BroadcastEach(net.clients, released, station))
  {
    order := OrderOf(net.sessions, released, station);
    ListedIsTerminated(net, released, station, order);
  }

  /** The released sessions first, then the others. */
  lemma OrderOf(sessions: Sessions, released: seq<SessionState>, station: Callsign) returns (order: seq<Address>)
    requires Keyed(sessions) && ReleasedExactly(released, sessions, station)
    ensures ListsKeys(order, sessions.Keys) && forall i :: 0 <= i < |order| ==> order[i] in sessions
    ensures ReleasedAlong(sessions, order, station) == released
  {
    ReleasedAreFrom(released, sessions, station);
    ReleasedAlongAddresses(released, sessions, station);
    var first := Addresses(released);
    AddressesApart(released);
    var others := sessions.Keys - set a | a in first;
    var rest := ListOf(others);
    order := first + rest;
    ListedInTwo(first, rest, sessions.Keys);
    AllIn(order, sessions.Keys);
    AllIn(rest, others);
    ReleasedAlongAppend(sessions, first, rest, station);
  }

  lemma AllIn(order: seq<Address>, keys: set<Address>)
    requires ListsKeys(order, keys)
    ensures forall i :: 0 <= i < |order| ==> order[i] in keys
  {
    forall i | 0 <= i < |order| ensures order[i] in keys { assert order[i] in order; }
  }

  lemma AddressesApart(released: seq<SessionState>)
    requires Apart(released, AddressOf)
    ensures Distinct(Addresses(released))
  {
    forall i, j | 0 <= i < j < |released| ensures Addresses(released)[i] != Addresses(released)[j] {
      assert AddressOf(released[i]) != AddressOf(released[j]);
    }
  }

  lemma ListedIsTerminated(net: Net, released: seq<SessionState>, station: Callsign, order: seq<Address>)
    requires ListsKeys(order, net.sessions.Keys) && forall i :: 0 <= i < |order| ==> order[i] in net.sessions
    requires ReleasedAlong(net.sessions, order, station) == released
    ensures TerminateAll(net, station, order)
         == Net(TerminatedEverywhere(net.sessions, station), BroadcastEach(net.clients, released, station))
  {
    TerminateAllSessions(net, station, order);
    TerminateAllClients(net, station, order);
    var after := TerminateAll(net, station, order);
    assert after.sessions == TerminatedEverywhere(net.sessions, station);
  }

  lemma ListedInTwo(first: seq<Address>, rest: seq<Address>, keys: set<Address>)
    requires Distinct(first) && (forall a :: a in first ==> a in keys) && ListsKeys(rest, keys - set a | a in first)
    ensures ListsKeys(first + rest, keys)
  {
    var order := first + rest;
    forall i, j | 0 <= i < j < |order| ensures order[i] != order[j] {
      if i < |first| <= j { assert order[i] in first && order[j] in rest; }
    }
  }

  // ---------------------------------------------------------------------
  // Going offline
  // ---------------------------------------------------------------------

  /**
    `handle_station_offline`. Every aircraft the station was released from is
    told once, if that is configured and the registry finds it, and every
    released session is broadcast.
  */
  method HandleStationOffline(store: SessionStore, registry: StationRegistry, clients: map<Callsign, Flights>,
                              station: Callsign, autoEndService: bool)
    returns (after: map<Callsign, Flights>, sent: seq<EndService>, ghost released: seq<SessionState>)
    requires Keyed(store.sessions)
    modifies store
    ensures Keyed(store.sessions)
    ensures store.sessions == TerminatedEverywhere(old(store.sessions), station)
    ensures ReleasedExactly(released, old(store.sessions), station)
    ensures sent == if autoEndService then EndServices(released, registry.Value(), registry.key, station) else []
    ensures after == BroadcastEach(clients, released, station)
  {
    var updated := store.TerminateSessionsForStation(station);
    released := updated;
    after, sent := TellAndBroadcast(updated, registry, clients, station, autoEndService);
  }

  /** The loop over the sessions the station was released from. */
  method TellAndBroadcast(updated: seq<SessionState>, registry: StationRegistry, clients: map<Callsign, Flights>,
                          station: Callsign, autoEndService: bool)
    returns (after: map<Callsign, Flights>, sent: seq<EndService>)
    ensures sent == if autoEndService then EndServices(updated, registry.Value(), registry.key, station) else []
    ensures after == BroadcastEach(clients, updated, station)
  {
    ghost var reg, key := registry.Value(), registry.key;
    after := clients;
    sent := [];
    for i := 0 to |updated|
      invariant sent == if autoEndService then EndServices(updated[..i], reg, key, station) else []
      invariant after == BroadcastEach(clients, updated[..i], station)
    {
      assert updated[..i + 1][..i] == updated[..i];
      var session := updated[i];
      if autoEndService {
        var entry := registry.LookupCallsign(session.aircraft.callsign);
        if entry.Some? {
          sent := sent + [EndService(entry.value.networkAddress, session.aircraft, station)];
        }
      }
      after := SendToTargets(after, session, station, session.aircraft.callsign);
    }
    assert updated[..|updated|] == updated;
  }

  // ---------------------------------------------------------------------
  // The presence tick
  // ---------------------------------------------------------------------

  /** Unreachable stations make no difference to what the others are sent. */
  lemma {:induction false} BroadcastWithout(clients: map<Callsign, Flights>, gone: set<Callsign>,
                                            released: seq<SessionState>, station: Callsign)
    ensures BroadcastEach(clients - gone, released, station) == BroadcastEach(clients, released, station) - gone
    ensures BroadcastEach(clients, released, station).Keys == clients.Keys
  {
    if released != [] {
      BroadcastWithout(clients, gone, released[..|released| - 1], station);
    }
  }

  /** One departure, with all stations of `gone` unreachable already. */
  lemma DepartureStep(net: Net, gone: set<Callsign>, released: seq<SessionState>, station: Callsign)
    returns (order: seq<Address>)
    requires Keyed(net.sessions) && ReleasedExactly(released, net.sessions, station) && station in gone
    ensures ListsKeys(order, net.sessions.Keys)
    ensures var next := Act(net, GoOffline(station, order));
            && next.sessions == TerminatedEverywhere(net.sessions, station)
            && next.clients - gone == BroadcastEach(net.clients - gone, released, station)
            && next.clients.Keys == net.clients.Keys - {station}
  {
    var left := net.(clients := net.clients - {station});
    order := EndsAsTerminateAll(left, released, station);
    BroadcastWithout(left.clients, gone, released, station);
    assert left.clients - gone == net.clients - gone;
  }

  ghost predicate Departs(action: Action, station: Callsign, keys: set<Address>) {
    action.GoOffline? && action.station == station && ListsKeys(action.order, keys)
  }

  /** The stations of `callsigns` go offline one after the other. */
  ghost predicate Departures(actions: seq<Action>, callsigns: seq<Callsign>, keys: set<Address>) {
    |actions| == |callsigns| && forall i :: 0 <= i < |actions| ==> Departs(actions[i], callsigns[i], keys)
  }

  lemma ActAllSnoc(net: Net, actions: seq<Action>, action: Action)
    ensures ActAll(net, actions + [action]) == Act(ActAll(net, actions), action)
  {
    assert (actions + [action])[..|actions|] == actions;
  }

  /** Departures keep server and clients in agreement. */
  lemma {:induction false} DeparturesAgree(net: Net, actions: seq<Action>)
    requires AllAgree(net) && Separate(net)
    requires forall i :: 0 <= i < |actions| ==> actions[i].GoOffline?
    ensures AllAgree(ActAll(net, actions)) && Separate(ActAll(net, actions))
  {
    if actions != [] {
      var init, last := actions[..|actions| - 1], actions[|actions| - 1];
      DeparturesAgree(net, init);
      var before := ActAll(net, init);
      TerminateAllAgrees(before.(clients := before.clients - {last.station}), last.station, last.order);
    }
  }

  /** The message is for the aircraft of a session that names the station, in at most one slot. */
  ghost predicate EndsServiceOf(sessions: Sessions, station: Callsign, m: EndService) {
    exists a :: a in sessions && EndsServiceIn(sessions[a], station, m)
  }

  predicate EndsServiceIn(s: SessionState, station: Callsign, m: EndService) {
    && (s.aircraft.callsign == station || Holds(s.active, station) || Holds(s.inactive, station))
    && !(Holds(s.active, station) && Holds(s.inactive, station))
    && m.station == station && m.aircraft == s.aircraft
  }

  /** The message goes to the network address of the entry the index has for its aircraft. */
  ghost predicate GoesToAircraft(reg: Reg, key: Keying, m: EndService) {
    exists id :: id in reg.entries && Found(reg, id, key(m.aircraft.callsign)) && reg.entries[id].networkAddress == m.to
  }

  /** Who is told that `station` ended its service, and where. */
  ghost predicate Tells(sessions: Sessions, reg: Reg, key: Keying, station: Callsign, m: EndService) {
    EndsServiceOf(sessions, station, m) && GoesToAircraft(reg, key, m)
  }

  lemma EndServiceIs(s: SessionState, reg: Reg, key: Keying, station: Callsign, m: EndService)
    ensures LosesStation(s, station) && m in EndServiceFor(s, reg, key, station) <==>
            EndsServiceIn(s, station, m) && GoesToAircraft(reg, key, m)
  {
    if m in EndServiceFor(s, reg, key, station) {
      assert Found(reg, reg.index[key(s.aircraft.callsign)], key(s.aircraft.callsign));
    }
    if EndsServiceIn(s, station, m) && GoesToAircraft(reg, key, m) {
      var id :| id in reg.entries && Found(reg, id, key(m.aircraft.callsign)) && reg.entries[id].networkAddress == m.to;
    }
  }

  lemma {:induction false} EndServicesHold(released: seq<SessionState>, reg: Reg, key: Keying, station: Callsign)
    ensures forall m :: m in EndServices(released, reg, key, station) <==>
                        exists i :: 0 <= i < |released| && m in EndServiceFor(released[i], reg, key, station)
  {
    if released != [] {
      var n := |released| - 1;
      var init := released[..n];
      EndServicesHold(init, reg, key, station);
      forall m ensures m in EndServices(released, reg, key, station) <==>
                       exists i :: 0 <= i < |released| && m in EndServiceFor(released[i], reg, key, station)
      {
        if m in EndServices(init, reg, key, station) {
          var i :| 0 <= i < n && m in EndServiceFor(init[i], reg, key, station);
          assert m in EndServiceFor(released[i], reg, key, station);
        }
        if i :| 0 <= i < n && m in EndServiceFor(released[i], reg, key, station) {
          assert m in EndServiceFor(init[i], reg, key, station);
        }
      }
    }
  }

  function ToldAddress(m: EndService): Address {
    m.aircraft.address
  }

  /** No aircraft is told twice. */
  lemma {:induction false} EndServicesApart(released: seq<SessionState>, reg: Reg, key: Keying, station: Callsign)
    requires Apart(released, AddressOf)
    ensures Apart(EndServices(released, reg, key, station), ToldAddress)
  {
    if released != [] {
      var n := |released| - 1;
      var init := released[..n];
      EndServicesApart(init, reg, key, station);
      EndServicesHold(init, reg, key, station);
      var before, last := EndServices(init, reg, key, station), EndServiceFor(released[n], reg, key, station);
      forall i, m | 0 <= i < |before| && m in last ensures ToldAddress(before[i]) != ToldAddress(m) {
        assert before[i] in before;
        var j :| 0 <= j < n && before[i] in EndServiceFor(init[j], reg, key, station);
        assert AddressOf(released[j]) != AddressOf(released[n]);
      }
    }
  }

  lemma SameAircraft(s: SessionState, reg: Reg, key: Keying, station: Callsign)
    ensures EndServiceFor(OnTermination(s, station), reg, key, station) == EndServiceFor(s, reg, key, station)
  {}

  /** Exactly the aircraft that lose the station and are found through the index are told, each once. */
  lemma EndServicesTell(released: seq<SessionState>, sessions: Sessions, reg: Reg, key: Keying, station: Callsign,
                        m: EndService)
    requires Keyed(sessions) && ReleasedExactly(released, sessions, station)
    ensures m in EndServices(released, reg, key, station) <==> Tells(sessions, reg, key, station, m)
    ensures Apart(EndServices(released, reg, key, station), ToldAddress)
  {
    EndServicesApart(released, reg, key, station);
    EndServicesHold(released, reg, key, station);
    if m in EndServices(released, reg, key, station) {
      ReleasedAreFrom(released, sessions, station);
      var i :| 0 <= i < |released| && m in EndServiceFor(released[i], reg, key, station);
      var a := AddressOf(released[i]);
      assert released[i] == OnTermination(sessions[a], station) && LosesStation(sessions[a], station);
      SameAircraft(sessions[a], reg, key, station);
      EndServiceIs(sessions[a], reg, key, station, m);
    }
    if Tells(sessions, reg, key, station, m) {
      var a :| a in sessions && EndsServiceIn(sessions[a], station, m);
      EndServiceIs(sessions[a], reg, key, station, m);
      SameAircraft(sessions[a], reg, key, station);
      assert OnTermination(sessions[a], station) in released;
    }
  }

  /** Some departure before number `n` tells the aircraft. */
  ghost predicate ToldBy(n: int, callsigns: seq<Callsign>, sessions: Sessions, reg: Reg, key: Keying, m: EndService)
    requires n <= |callsigns|
  {
    exists i :: 0 <= i < n && Tells(OfflineAll(sessions, callsigns[..i]), reg, key, callsigns[i], m)
  }

  lemma ToldNext(n: nat, callsigns: seq<Callsign>, sessions: Sessions, released: seq<SessionState>,
                 reg: Reg, key: Keying, m: EndService)
    requires n < |callsigns| && Keyed(OfflineAll(sessions, callsigns[..n]))
    requires ReleasedExactly(released, OfflineAll(sessions, callsigns[..n]), callsigns[n])
    ensures ToldBy(n + 1, callsigns, sessions, reg, key, m) <==>
              ToldBy(n, callsigns, sessions, reg, key, m) || m in EndServices(released, reg, key, callsigns[n])
  {
    EndServicesTell(released, OfflineAll(sessions, callsigns[..n]), reg, key, callsigns[n], m);
  }

  ghost predicate SentExactly(sent: seq<EndService>, auto: bool, n: nat, callsigns: seq<Callsign>, sessions: Sessions,
                              reg: Reg, key: Keying)
    requires n <= |callsigns|
  {
    forall m :: m in sent <==> auto && ToldBy(n, callsigns, sessions, reg, key, m)
  }

  lemma SentNext(sent: seq<EndService>, auto: bool, n: nat, callsigns: seq<Callsign>, sessions: Sessions,
                 released: seq<SessionState>, reg: Reg, key: Keying)
    requires n < |callsigns| && SentExactly(sent, auto, n, callsigns, sessions, reg, key)
    requires Keyed(OfflineAll(sessions, callsigns[..n]))
    requires ReleasedExactly(released, OfflineAll(sessions, callsigns[..n]), callsigns[n])
    ensures SentExactly(sent + (if auto then EndServices(released, reg, key, callsigns[n]) else []),
                        auto, n + 1, callsigns, sessions, reg, key)
  {
    var all := sent + (if auto then EndServices(released, reg, key, callsigns[n]) else []);
    forall m ensures m in all <==> auto && ToldBy(n + 1, callsigns, sessions, reg, key, m) {
      ToldNext(n, callsigns, sessions, released, reg, key, m);
    }
  }

  /** The sessions and the clients after the stations of `callsigns` departed. */
  ghost predicate Departed(start: Net, net: Net, actions: seq<Action>, callsigns: seq<Callsign>) {
    && net == ActAll(start, actions)
    && Departures(actions, callsigns, start.sessions.Keys)
    && net.sessions == OfflineAll(start.sessions, callsigns) && net.sessions.Keys == start.sessions.Keys
    && (forall c :: c in net.clients ==> c !in callsigns)
  }

  lemma DepartedNext(start: Net, net: Net, actions: seq<Action>, callsigns: seq<Callsign>, station: Callsign,
                     gone: set<Callsign>, released: seq<SessionState>)
    returns (action: Action)
    requires Departed(start, net, actions, callsigns) && station in gone
    requires Keyed(net.sessions) && ReleasedExactly(released, net.sessions, station)
    ensures Departed(start, Act(net, action), actions + [action], callsigns + [station])
    ensures Act(net, action).sessions == TerminatedEverywhere(net.sessions, station)
    ensures Act(net, action).clients - gone == BroadcastEach(net.clients - gone, released, station)
  {
    var order := DepartureStep(net, gone, released, station);
    action := GoOffline(station, order);
    ActAllSnoc(start, actions, action);
    OfflineSnoc(start.sessions, callsigns, station);
    DeparturesSnoc(actions, callsigns, start.sessions.Keys, action, station);
    assert Act(net, action).sessions.Keys == net.sessions.Keys;
  }

  lemma DepartedOneMore(start: Net, net: Net, actions: seq<Action>, callsigns: seq<Callsign>, i: nat,
                        gone: set<Callsign>, released: seq<SessionState>)
    returns (next: Net, longer: seq<Action>)
    requires i < |callsigns| && Departed(start, net, actions, callsigns[..i]) && callsigns[i] in gone
    requires Keyed(net.sessions) && ReleasedExactly(released, net.sessions, callsigns[i])
    ensures Departed(start, next, longer, callsigns[..i + 1])
    ensures next.sessions == TerminatedEverywhere(net.sessions, callsigns[i])
    ensures next.clients - gone == BroadcastEach(net.clients - gone, released, callsigns[i])
  {
    assert callsigns[..i + 1] == callsigns[..i] + [callsigns[i]];
    var action := DepartedNext(start, net, actions, callsigns[..i], callsigns[i], gone, released);
    next, longer := Act(net, action), actions + [action];
  }

  lemma OfflineSnoc(sessions: Sessions, gone: seq<Callsign>, c: Callsign)
    ensures OfflineAll(sessions, gone + [c]) == TerminatedEverywhere(OfflineAll(sessions, gone), c)
  {
    assert (gone + [c])[..|gone|] == gone;
  }

  lemma DeparturesSnoc(actions: seq<Action>, callsigns: seq<Callsign>, keys: set<Address>, action: Action, c: Callsign)
    requires Departures(actions, callsigns, keys) && Departs(action, c, keys)
    ensures Departures(actions + [action], callsigns + [c], keys)
  {}

  /**
    One presence tick: sweep the registry, then end the service of every
    station whose lease ran out. Exactly the aircraft that lose a station and
    are found are told, and sessions and clients end up as if the stations had
    gone offline one after the other.
  */
  method PresenceTick(registry: StationRegistry, store: SessionStore, clients: map<Callsign, Flights>,
                      ttl: int, now: int, autoEndService: bool)
    returns (expired: seq<StationEntry>, after: map<Callsign, Flights>, sent: seq<EndService>,
             ghost actions: seq<Action>)
    requires Sound(registry.Value(), registry.key) && Keyed(store.sessions)
    modifies registry, store
    ensures Sound(registry.Value(), registry.key) && Keyed(store.sessions)
    ensures Apart(expired, IdOf)
    ensures ExpiresExactly(expired, old(registry.entries), ttl, now)
    ensures registry.Value() == UpdatedAll(old(registry.Value()), registry.key, SweepUpdates(expired, now))
    ensures store.sessions == OfflineAll(old(store.sessions), Callsigns(expired))
    ensures Departures(actions, Callsigns(expired), old(store.sessions).Keys)
    ensures Net(store.sessions, after) == ActAll(Net(old(store.sessions), clients), actions)
    ensures var callsigns := Callsigns(expired);
            SentExactly(sent, autoEndService, |callsigns|, callsigns, old(store.sessions),
                        registry.Value(), registry.key)
  {
    expired := registry.ExpireStaleOnline(ttl, now);
    after, sent, actions := TakeOffline(expired, registry, store, clients, autoEndService);
  }

  /** The loop of the tick: end the service of the stations that expired, which are unreachable already. */
  method TakeOffline(expired: seq<StationEntry>, registry: StationRegistry, store: SessionStore,
                     clients: map<Callsign, Flights>, autoEndService: bool)
    returns (after: map<Callsign, Flights>, sent: seq<EndService>, ghost actions: seq<Action>)
    requires Keyed(store.sessions)
    modifies store
    ensures Keyed(store.sessions)
    ensures store.sessions == OfflineAll(old(store.sessions), Callsigns(expired))
    ensures Departures(actions, Callsigns(expired), old(store.sessions).Keys)
    ensures Net(store.sessions, after) == ActAll(Net(old(store.sessions), clients), actions)
    ensures var callsigns := Callsigns(expired);
            SentExactly(sent, autoEndService, |callsigns|, callsigns, old(store.sessions),
                        registry.Value(), registry.key)
  {
    ghost var callsigns, start := Callsigns(expired), Net(store.sessions, clients);
    ghost var reg, key := registry.Value(), registry.key;
    CallsignsAre(expired);
    var gone := set e | e in expired :: e.endpoint.callsign;
    after := clients - gone;
    sent, actions := [], [];
    ghost var net := start;
    assert callsigns[..0] == [];
    for i := 0 to |expired|
      invariant Keyed(store.sessions)
      invariant Departed(start, net, actions, callsigns[..i])
      invariant net.sessions == store.sessions && after == net.clients - gone
      invariant SentExactly(sent, autoEndService, i, callsigns, start.sessions, reg, key)
    {
      var station := expired[i].endpoint.callsign;
      var more: seq<EndService>;
      ghost var released;
      after, more, released := HandleStationOffline(store, registry, after, station, autoEndService);
      SentNext(sent, autoEndService, i, callsigns, start.sessions, released, reg, key);
      net, actions := DepartedOneMore(start, net, actions, callsigns, i, gone, released);
      sent := sent + more;
    }
    assert callsigns[..|expired|] == callsigns;
    GoneAreAway(expired, net.clients);
  }

  lemma GoneAreAway(es: seq<StationEntry>, clients: map<Callsign, Flights>)
    requires forall c :: c in clients ==> c !in Callsigns(es)
    ensures clients - (set e | e in es :: e.endpoint.callsign) == clients
  {
    CallsignsAre(es);
    forall e | e in es ensures e.endpoint.callsign !in clients {
      var i :| 0 <= i < |es| && es[i] == e;
      assert Callsigns(es)[i] in Callsigns(es);
    }
  }

  lemma {:induction false} CallsignsAre(es: seq<StationEntry>)
    ensures |Callsigns(es)| == |es| && forall i :: 0 <= i < |es| ==> Callsigns(es)[i] == es[i].endpoint.callsign
  {
    if es != [] { CallsignsAre(es[..|es| - 1]); }
  }
}
