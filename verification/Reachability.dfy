/**
  The stations a run of the server can reach: those the callsign index finds.
  Going online and offline updates the registry; the broadcasts look their
  targets up in it.
*/
module Reachability {
  import opened Common
  import opened Session
  import opened Registry
  import opened Agreement
  import opened Offline
  import opened Presence

  /** The status report a station sends with its `n`-th action of the run. */
  type Reporting = (nat, Callsign, Status) -> StatusUpdate

  /** Reports carry their callsign and status, and a station keeps one id and one callsign. */
  ghost predicate Faithful(report: Reporting) {
    && (forall n, c, s :: report(n, c, s).endpoint.callsign == c && report(n, c, s).status == s)
    && (forall n, c, s, m, d, t :: report(n, c, s).id == report(m, d, t).id <==> c == d)
  }

  /** What an action reports to the registry. */
  function Reported(report: Reporting, n: nat, net: Net, action: Action): seq<StatusUpdate> {
    match action
    case Deliver(_) => []
    case GoOffline(station, order) =>
      if ListsKeys(order, net.sessions.Keys) then [report(n, station, Offline)] else []
    case GoOnline(station, _, order) =>
      if ListsKeys(order, net.sessions.Keys) then [report(n, station, Online)] else []
  }

  /** The updates of the registry over a run. */
  function Reports(report: Reporting, actions: seq<Action>): seq<StatusUpdate> {
    if actions == [] then []
    else
      var init := actions[..|actions| - 1];
      Reports(report, init) + Reported(report, |init|, Exec(init), actions[|actions| - 1])
  }

  /** Every client is registered online under its own id. */
  ghost predicate ClientsRegistered(report: Reporting, clients: set<Callsign>, reg: Reg) {
    forall c :: c in clients ==>
      var id := report(0, c, Online).id;
      id in reg.entries && reg.entries[id].status == Online && reg.entries[id].endpoint.callsign == c
  }

  /** Every entry has the id of its callsign, and every one that is online is a client. */
  ghost predicate EntriesAreClients(report: Reporting, clients: set<Callsign>, reg: Reg) {
    forall id :: id in reg.entries ==>
      && id == report(0, reg.entries[id].endpoint.callsign, Online).id
      && (reg.entries[id].status == Online ==> reg.entries[id].endpoint.callsign in clients)
  }

  /** A client is there exactly if its station is registered online, under its own id. */
  ghost predicate Registered(report: Reporting, net: Net, reg: Reg) {
    ClientsRegistered(report, net.clients.Keys, reg) && EntriesAreClients(report, net.clients.Keys, reg)
  }

  lemma ClientsAfter(net: Net, action: Action)
    ensures Act(net, action).clients.Keys ==
              match action
              case Deliver(_) => net.clients.Keys
              case GoOffline(station, order) =>
                if ListsKeys(order, net.sessions.Keys) then net.clients.Keys - {station} else net.clients.Keys
              case GoOnline(station, _, order) =>
                if ListsKeys(order, net.sessions.Keys) then net.clients.Keys + {station} else net.clients.Keys
  {
    if action.GoOffline? {
      TerminateKeepsClients(net.(clients := net.clients - {action.station}), action.station, action.order);
    }
  }

  lemma {:induction false} TerminateKeepsClients(net: Net, station: Callsign, order: seq<Address>)
    ensures TerminateAll(net, station, order).clients.Keys == net.clients.Keys
  {
    if order != [] { TerminateKeepsClients(net, station, order[..|order| - 1]); }
  }

  function ClientsThen(clients: set<Callsign>, u: StatusUpdate): set<Callsign> {
    if u.status == Online then clients + {u.endpoint.callsign} else clients - {u.endpoint.callsign}
  }

  lemma ClientIsRegistered(report: Reporting, clients: set<Callsign>, reg: Reg, key: Keying, u: StatusUpdate)
    requires Faithful(report) && ClientsRegistered(report, clients, reg)
    requires u.id == report(0, u.endpoint.callsign, Online).id
    ensures ClientsRegistered(report, ClientsThen(clients, u), Updated(reg, key, u))
  {
    forall c | c in ClientsThen(clients, u) && c != u.endpoint.callsign ensures report(0, c, Online).id != u.id {}
  }

  lemma EntryIsClient(report: Reporting, clients: set<Callsign>, reg: Reg, key: Keying, u: StatusUpdate)
    requires Faithful(report) && EntriesAreClients(report, clients, reg)
    requires u.id == report(0, u.endpoint.callsign, Online).id
    ensures EntriesAreClients(report, ClientsThen(clients, u), Updated(reg, key, u))
  {
    forall id | id in reg.entries && id != u.id ensures reg.entries[id].endpoint.callsign != u.endpoint.callsign {}
  }

  lemma {:induction false} RunIsRegistered(report: Reporting, key: Keying, actions: seq<Action>)
    requires Faithful(report)
    ensures Registered(report, Exec(actions), Replayed(key, Reports(report, actions)))
  {
    if actions != [] {
      var init, action := actions[..|actions| - 1], actions[|actions| - 1];
      RunIsRegistered(report, key, init);
      var net, reg := Exec(init), Replayed(key, Reports(report, init));
      ActIsRegistered(report, key, net, reg, action, |init|);
      ReportsThen(report, key, init, action);
      assert actions == init + [action];
    }
  }

  /** What the report of one more action does to the registry. */
  lemma {:induction false} ReportsThen(report: Reporting, key: Keying, init: seq<Action>, action: Action)
    ensures var reg := Replayed(key, Reports(report, init));
            var us := Reported(report, |init|, Exec(init), action);
            Replayed(key, Reports(report, init + [action])) == if us == [] then reg else Updated(reg, key, us[0])
  {
    var before, us := Reports(report, init), Reported(report, |init|, Exec(init), action);
    ReportsSnoc(report, init, action, before, us);
    if us == [] {
      assert before + us == before;
    } else {
      assert us == [us[0]];
      UpdatedAllSnoc(Reg(map[], map[]), key, before, us[0]);
    }
  }

  /** An action and its report, if it makes one. */
  lemma ActIsRegistered(report: Reporting, key: Keying, net: Net, reg: Reg, action: Action, n: nat)
    requires Faithful(report) && Registered(report, net, reg)
    ensures var us := Reported(report, n, net, action);
            Registered(report, Act(net, action), if us == [] then reg else Updated(reg, key, us[0]))
  {
    ClientsAfter(net, action);
    var us := Reported(report, n, net, action);
    if us != [] {
      var clients, u := net.clients.Keys, us[0];
      ClientIsRegistered(report, clients, reg, key, u);
      EntryIsClient(report, clients, reg, key, u);
      assert Act(net, action).clients.Keys == ClientsThen(clients, u);
    }
  }

  /** The clients of the run are exactly the stations lookups find, each under its own callsign. */
  ghost predicate Reaches(key: Keying, net: Net, reg: Reg) {
    && (forall c :: c in net.clients ==>
          Lookup(reg, key, c).Some? && Lookup(reg, key, c).value.endpoint.callsign == c)
    && (forall c: Callsign :: Lookup(reg, key, c).Some? ==>
          Lookup(reg, key, c).value.endpoint.callsign in net.clients)
  }

  lemma {:induction false} ReachesIffComplete(report: Reporting, key: Keying, net: Net, reg: Reg)
    requires Faithful(report) && Registered(report, net, reg) && Sound(reg, key)
    ensures Reaches(key, net, reg) <==> Complete(reg, key)
  {
    if Complete(reg, key) {
      forall c | c in net.clients
        ensures Lookup(reg, key, c).Some? && Lookup(reg, key, c).value.endpoint.callsign == c
      {
        assert OnlineUnder(reg, key, report(0, c, Online).id, key(c));
      }
    }
    forall c: Callsign | Lookup(reg, key, c).Some? ensures Lookup(reg, key, c).value.endpoint.callsign in net.clients {
      LookupIsSound(reg, key, c);
    }
    if Reaches(key, net, reg) {
      forall id, k | OnlineUnder(reg, key, id, k) ensures Found(reg, id, k) {
        var c := reg.entries[id].endpoint.callsign;
        var found := Lookup(reg, key, c).value;
        LookupIsSound(reg, key, c);
        assert found.stationId == report(0, c, Online).id == id;
      }
    }
  }

  /** After every action, lookups found exactly the clients. */
  ghost predicate AlwaysReaches(report: Reporting, key: Keying, actions: seq<Action>) {
    && Reaches(key, Exec(actions), Replayed(key, Reports(report, actions)))
    && (actions != [] ==> AlwaysReaches(report, key, actions[..|actions| - 1]))
  }

  /**
    The reachable stations of a run are those the registry of the same run
    finds, after every action, if and only if no status report of the run
    orphans or overtakes an online station.
  */
  lemma {:induction false} AlwaysReachesIff(report: Reporting, key: Keying, actions: seq<Action>)
    requires Faithful(report)
    ensures AlwaysReaches(report, key, actions) <==> NeverLoses(key, Reports(report, actions))
  {
    var us := Reports(report, actions);
    ReachesIffScans(report, key, actions);
    AlwaysScansIff(key, us);
    if actions != [] {
      var init := actions[..|actions| - 1];
      AlwaysReachesIff(report, key, init);
      AlwaysScansIff(key, Reports(report, init));
      ReportsGrow(report, actions);
    }
  }

  lemma ReachesIffScans(report: Reporting, key: Keying, actions: seq<Action>)
    requires Faithful(report)
    ensures var reg := Replayed(key, Reports(report, actions)); Reaches(key, Exec(actions), reg) <==> Scans(reg, key)
  {
    var reg := Replayed(key, Reports(report, actions));
    RunIsRegistered(report, key, actions);
    RunIsSound(key, Reports(report, actions));
    ReachesIffComplete(report, key, Exec(actions), reg);
    CompleteIffScans(reg, key);
  }

  /** An action reports at most once. */
  lemma ReportsGrow(report: Reporting, actions: seq<Action>)
    requires actions != []
    ensures var us, before := Reports(report, actions), Reports(report, actions[..|actions| - 1]);
            us == before || (us != [] && us[..|us| - 1] == before)
  {
    var init := actions[..|actions| - 1];
    var us, before := Reports(report, actions), Reports(report, init);
    var new' := Reported(report, |init|, Exec(init), actions[|actions| - 1]);
    if new' == [] {
      assert before + new' == before;
    } else {
      assert us[..|us| - 1] == before;
    }
  }

  // ---------------------------------------------------------------------
  // The presence tick as part of the run
  // ---------------------------------------------------------------------

  /** The reports of the departures are the updates of the sweep. */
  ghost predicate ReportsSweep(report: Reporting, n: nat, expired: seq<StationEntry>, now: int) {
    forall i: nat :: i < |expired| ==>
      report(n + i, expired[i].endpoint.callsign, Offline) == SweepUpdates(expired, now)[i]
  }

  lemma {:induction false} TerminateKeepsSessions(net: Net, station: Callsign, order: seq<Address>)
    ensures TerminateAll(net, station, order).sessions.Keys == net.sessions.Keys
  {
    if order != [] { TerminateKeepsSessions(net, station, order[..|order| - 1]); }
  }

  lemma {:induction false} DeparturesKeepKeys(net: Net, actions: seq<Action>)
    requires forall i :: 0 <= i < |actions| ==> actions[i].GoOffline?
    ensures ActAll(net, actions).sessions.Keys == net.sessions.Keys
  {
    if actions != [] {
      var init, last := actions[..|actions| - 1], actions[|actions| - 1];
      DeparturesKeepKeys(net, init);
      var before := ActAll(net, init);
      TerminateKeepsSessions(before.(clients := before.clients - {last.station}), last.station, last.order);
    }
  }

  lemma {:induction false} ExecAppend(pre: seq<Action>, actions: seq<Action>)
    ensures Exec(pre + actions) == ActAll(Exec(pre), actions)
  {
    if actions == [] {
      assert pre + actions == pre;
    } else {
      assert (pre + actions)[..|pre + actions| - 1] == pre + actions[..|actions| - 1];
      ExecAppend(pre, actions[..|actions| - 1]);
    }
  }

  lemma {:induction false} ReportsSnoc(report: Reporting, actions: seq<Action>, last: Action,
                                       before: seq<StatusUpdate>, us: seq<StatusUpdate>)
    requires Reports(report, actions) == before && Reported(report, |actions|, Exec(actions), last) == us
    ensures Reports(report, actions + [last]) == before + us
  {
    assert (actions + [last])[..|actions|] == actions;
  }

  lemma DeparturesGoOffline(actions: seq<Action>, callsigns: seq<Callsign>, keys: set<Address>)
    requires Departures(actions, callsigns, keys)
    ensures forall i :: 0 <= i < |actions| ==> actions[i].GoOffline?
  {
    forall i | 0 <= i < |actions| ensures actions[i].GoOffline? {
      assert Departs(actions[i], callsigns[i], keys);
    }
  }

  /** Departure number `n` reports update number `n` of the sweep. */
  lemma {:induction false} DepartureReports(report: Reporting, pre: seq<Action>, actions: seq<Action>,
                                            expired: seq<StationEntry>, now: int, n: nat)
    requires n < |expired| && Departures(actions, Callsigns(expired), Exec(pre).sessions.Keys)
    requires ReportsSweep(report, |pre|, expired, now)
    ensures |actions| == |expired|
    ensures var before := pre + actions[..n];
            Reported(report, |before|, Exec(before), actions[n]) == [SweepUpdates(expired, now)[n]]
  {
    CallsignsAre(expired);
    DepartsThen(pre, actions, Callsigns(expired), n);
    var before := pre + actions[..n];
    DepartureReport(report, |before|, Exec(before), actions[n], Callsigns(expired)[n]);
  }

  /** The keys a departure lists are those it finds. */
  lemma {:induction false} DepartsThen(pre: seq<Action>, actions: seq<Action>, callsigns: seq<Callsign>, n: nat)
    requires n < |actions| && Departures(actions, callsigns, Exec(pre).sessions.Keys)
    ensures Departs(actions[n], callsigns[n], Exec(pre + actions[..n]).sessions.Keys)
  {
    DeparturesGoOffline(actions, callsigns, Exec(pre).sessions.Keys);
    KeysAfter(pre, actions[..n]);
  }

  lemma DepartureReport(report: Reporting, n: nat, net: Net, action: Action, station: Callsign)
    requires Departs(action, station, net.sessions.Keys)
    ensures Reported(report, n, net, action) == [report(n, station, Offline)]
  {}

  lemma KeysAfter(pre: seq<Action>, actions: seq<Action>)
    requires forall i :: 0 <= i < |actions| ==> actions[i].GoOffline?
    ensures Exec(pre + actions).sessions.Keys == Exec(pre).sessions.Keys
  {
    ExecAppend(pre, actions);
    DeparturesKeepKeys(Exec(pre), actions);
  }

  /** Action number `k` reports exactly update number `k`. */
  ghost predicate ReportsEach(report: Reporting, pre: seq<Action>, actions: seq<Action>, us: seq<StatusUpdate>) {
    |actions| == |us| && forall k :: 0 <= k < |us| ==>
      var before := pre + actions[..k]; Reported(report, |before|, Exec(before), actions[k]) == [us[k]]
  }

  lemma {:induction false} ReportsOf(report: Reporting, pre: seq<Action>, actions: seq<Action>,
                                     us: seq<StatusUpdate>, n: nat)
    requires n <= |us| && ReportsEach(report, pre, actions, us)
    ensures Reports(report, pre + actions[..n]) == Reports(report, pre) + us[..n]
  {
    if n == 0 {
      assert pre + actions[..0] == pre;
      assert Reports(report, pre) + us[..0] == Reports(report, pre);
    } else {
      ReportsOf(report, pre, actions, us, n - 1);
      ReportsOneMore(report, pre, actions, us, n, Reports(report, pre));
    }
  }

  lemma {:induction false} ReportsOneMore(report: Reporting, pre: seq<Action>, actions: seq<Action>,
                                          us: seq<StatusUpdate>, n: nat, first: seq<StatusUpdate>)
    requires 0 < n <= |us| && ReportsEach(report, pre, actions, us)
    requires Reports(report, pre + actions[..n - 1]) == first + us[..n - 1]
    ensures Reports(report, pre + actions[..n]) == first + us[..n]
  {
    var before, known := pre + actions[..n - 1], first + us[..n - 1];
    TakeSnoc(pre, actions, n);
    TakeSnoc(first, us, n);
    ReportsSnoc(report, before, actions[n - 1], known, [us[n - 1]]);
  }

  lemma TakeSnoc<T>(pre: seq<T>, xs: seq<T>, n: nat)
    requires 0 < n <= |xs|
    ensures pre + xs[..n] == (pre + xs[..n - 1]) + [xs[n - 1]]
  {}

  lemma {:induction false} DeparturesReportEach(report: Reporting, pre: seq<Action>, actions: seq<Action>,
                                                expired: seq<StationEntry>, now: int)
    requires Departures(actions, Callsigns(expired), Exec(pre).sessions.Keys)
    requires ReportsSweep(report, |pre|, expired, now)
    ensures ReportsEach(report, pre, actions, SweepUpdates(expired, now))
  {
    CallsignsAre(expired);
    forall k | 0 <= k < |expired|
      ensures var before := pre + actions[..k];
              Reported(report, |before|, Exec(before), actions[k]) == [SweepUpdates(expired, now)[k]]
    {
      DepartureReports(report, pre, actions, expired, now, k);
    }
  }

  /**
    A tick continues the run: after any run, the departures of the expired
    stations report exactly the updates the sweep makes, and lead to the state
    the tick leaves.
  */
  lemma {:induction false} TickContinuesRun(report: Reporting, key: Keying, pre: seq<Action>, actions: seq<Action>,
                                            expired: seq<StationEntry>, now: int)
    requires Departures(actions, Callsigns(expired), Exec(pre).sessions.Keys)
    requires ReportsSweep(report, |pre|, expired, now)
    ensures Exec(pre + actions) == ActAll(Exec(pre), actions)
    ensures Reports(report, pre + actions) == Reports(report, pre) + SweepUpdates(expired, now)
    ensures Replayed(key, Reports(report, pre + actions))
         == UpdatedAll(Replayed(key, Reports(report, pre)), key, SweepUpdates(expired, now))
  {
    var n, us := |actions|, SweepUpdates(expired, now);
    CallsignsAre(expired);
    ExecAppend(pre, actions);
    DeparturesReportEach(report, pre, actions, expired, now);
    ReportsOf(report, pre, actions, us, n);
    assert actions[..n] == actions && us[..n] == us;
    UpdatedAllAppend(Reg(map[], map[]), key, Reports(report, pre), us);
  }
}
