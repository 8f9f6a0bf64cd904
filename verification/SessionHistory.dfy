/**
  What every run of session events keeps, and why a slot is in the phase it
  is in: invariants, stability of the active slot, and causality.
*/
module SessionHistory {
  import opened Common
  import opened Session

  datatype Event =
    | LogonRequest(station: Endpoint)
    | LogonAccepted(callsign: Callsign)
    | ConnectionRequest(callsign: Callsign)
    | ConnectionAccepted(callsign: Callsign)
    | NextDataAuthority(station: Endpoint)
    | Termination(callsign: Callsign)

  function Apply(s: SessionState, e: Event): Result<SessionState> {
    match e
    case LogonRequest(station) => Ok(OnLogonRequest(s, station))
    case LogonAccepted(callsign) => Ok(OnLogonAccepted(s, callsign))
    case ConnectionRequest(callsign) => Ok(OnConnectionRequest(s, callsign))
    case ConnectionAccepted(callsign) => OnConnectionAccepted(s, callsign)
    case NextDataAuthority(station) => Ok(OnNextDataAuthority(s, station))
    case Termination(callsign) => Ok(OnTermination(s, callsign))
  }

  /** An event that fails is not stored, so the session stays as it was. */
  function Advance(s: SessionState, e: Event): SessionState {
    match Apply(s, e)
    case Ok(t) => t
    case Err(_) => s
  }

  function Replay(s: SessionState, es: seq<Event>): SessionState {
    if es == [] then s else Advance(Replay(s, es[..|es| - 1]), es[|es| - 1])
  }

  lemma {:induction false} ReplayAppend(s: SessionState, xs: seq<Event>, ys: seq<Event>)
    ensures Replay(s, xs + ys) == Replay(Replay(s, xs), ys)
  {
    if ys == [] {
      assert xs + ys == xs;
    } else {
      var n := |ys| - 1;
      assert (xs + ys)[..|xs + ys| - 1] == xs + ys[..n];
      ReplayAppend(s, xs, ys[..n]);
    }
  }

  // ---------------------------------------------------------------------
  // Invariants
  // ---------------------------------------------------------------------

  predicate SlotOk(slot: Option<Connection>) {
    slot.Some? && slot.value.connection ==> slot.value.logon
  }

  predicate WellFormed(s: SessionState) {
    && SlotOk(s.active)
    && SlotOk(s.inactive)
    && (s.inactive.Some? ==> s.active.Some?)
  }

  lemma {:induction false} ReplayKeepsWellFormed(s: SessionState, es: seq<Event>)
    requires WellFormed(s)
    ensures WellFormed(Replay(s, es)) && Replay(s, es).aircraft == s.aircraft
  {
    if es != [] {
      ReplayKeepsWellFormed(s, es[..|es| - 1]);
      AdvanceKeepsWellFormed(Replay(s, es[..|es| - 1]), es[|es| - 1]);
    }
  }

  lemma AdvanceKeepsWellFormed(s: SessionState, e: Event)
    requires WellFormed(s)
    ensures WellFormed(Advance(s, e)) && Advance(s, e).aircraft == s.aircraft
  {}

  function Rank(p: Phase): nat {
    match p
    case LogonPending => 0
    case LoggedOn => 1
    case Connected => 2
    case Terminated => 3
  }

  /**
    While nobody terminates the station in the active slot, that station stays
    there and its phase never goes down, whatever else happens.
  */
  lemma {:induction false} ActiveStaysUntilTerminated(s: SessionState, es: seq<Event>)
    requires s.active.Some? && SlotOk(s.active)
    requires forall i :: 0 <= i < |es| ==> es[i] != Termination(s.active.value.station.callsign)
    ensures var t := Replay(s, es);
            && t.active.Some?
            && SlotOk(t.active)
            && t.active.value.station == s.active.value.station
            && Rank(PhaseOf(s.active.value)) <= Rank(PhaseOf(t.active.value))
  {
    if es != [] {
      ActiveStaysUntilTerminated(s, es[..|es| - 1]);
      assert es[|es| - 1] != Termination(s.active.value.station.callsign);
    }
  }

  /**
    The same read backwards: when the active station of a run differs from the
    one it started with, the run terminated the one it started with.
  */
  lemma ActiveChangedMeansTerminated(s: SessionState, es: seq<Event>)
    requires s.active.Some? && SlotOk(s.active)
    requires Replay(s, es).active.None? || Replay(s, es).active.value.station != s.active.value.station
    ensures exists i :: 0 <= i < |es| && es[i] == Termination(s.active.value.station.callsign)
  {
    if forall i :: 0 <= i < |es| ==> es[i] != Termination(s.active.value.station.callsign) {
      ActiveStaysUntilTerminated(s, es);
    }
  }

  // ---------------------------------------------------------------------
  // Causality
  // ---------------------------------------------------------------------

  ghost predicate HeldAt(a: Endpoint, es: seq<Event>, p: nat, station: Callsign)
    requires p <= |es|
  {
    Occupies(Replay(NewSession(a), es[..p]), station)
  }

  /** `station` has been in a slot without a gap ever since event `i`. */
  ghost predicate HeldSince(a: Endpoint, es: seq<Event>, i: nat, station: Callsign) {
    forall p :: i < p <= |es| ==> HeldAt(a, es, p, station)
  }

  predicate Requests(e: Event, station: Callsign) {
    e.LogonRequest? && e.station.callsign == station
  }

  predicate Designates(e: Event, station: Callsign) {
    e.NextDataAuthority? && e.station.callsign == station
  }

  /** Events `i < j` logged `station` on: explicitly, or as Next Data Authority. */
  ghost predicate LogonPair(a: Endpoint, es: seq<Event>, i: nat, j: nat, station: Callsign)
    requires i < j < |es|
  {
    || (Requests(es[i], station) && es[j] == LogonAccepted(station) && HeldSince(a, es, i, station))
    || (&& Designates(es[i], station)
        && (forall m :: i < m < j ==> !es[m].NextDataAuthority?)
        && es[j] == ConnectionRequest(station)
        && HeldSince(a, es, j, station))
  }

  ghost predicate WasRequested(a: Endpoint, es: seq<Event>, station: Callsign) {
    exists i: nat :: i < |es| && Requests(es[i], station) && HeldSince(a, es, i, station)
  }

  ghost predicate WasLoggedOn(a: Endpoint, es: seq<Event>, station: Callsign) {
    exists i: nat, j: nat :: i < j < |es| && LogonPair(a, es, i, j, station)
  }

  ghost predicate WasConnected(a: Endpoint, es: seq<Event>, station: Callsign) {
    exists i: nat, j: nat, k: nat ::
      i < j < k < |es| && LogonPair(a, es, i, j, station) && es[k] == ConnectionAccepted(station)
  }

  /** What the history must contain for a slot to hold this connection. */
  ghost predicate Explained(a: Endpoint, es: seq<Event>, slot: Option<Connection>) {
    slot.Some? ==>
      var station := slot.value.station.callsign;
      && (WasRequested(a, es, station) || WasLoggedOn(a, es, station))
      && (slot.value.logon ==> WasLoggedOn(a, es, station))
      && (slot.value.connection ==> WasConnected(a, es, station))
  }

  ghost predicate NdaExplained(es: seq<Event>, nda: Option<Endpoint>) {
    nda.Some? ==>
      exists i: nat :: i < |es| && es[i] == NextDataAuthority(nda.value)
                       && forall m :: i < m < |es| ==> !es[m].NextDataAuthority?
  }

  lemma HeldSinceExtends(a: Endpoint, es: seq<Event>, e: Event, i: nat, station: Callsign)
    requires HeldSince(a, es, i, station)
    requires Occupies(Replay(NewSession(a), es + [e]), station)
    ensures HeldSince(a, es + [e], i, station)
  {
    forall p | i < p <= |es + [e]| ensures HeldAt(a, es + [e], p, station) {
      if p <= |es| {
        assert (es + [e])[..p] == es[..p];
        assert HeldAt(a, es, p, station);
      } else {
        assert (es + [e])[..p] == es + [e];
      }
    }
  }

  lemma {:induction false} PairExtends(a: Endpoint, es: seq<Event>, e: Event, i: nat, j: nat, station: Callsign)
    requires i < j < |es| && LogonPair(a, es, i, j, station)
    requires Occupies(Replay(NewSession(a), es + [e]), station)
    ensures LogonPair(a, es + [e], i, j, station)
  {
    if HeldSince(a, es, i, station) { HeldSinceExtends(a, es, e, i, station); }
    if HeldSince(a, es, j, station) { HeldSinceExtends(a, es, e, j, station); }
  }

  /** Old evidence survives every event that leaves the station in a slot. */
  lemma EvidenceExtends(a: Endpoint, es: seq<Event>, e: Event, station: Callsign)
    requires Occupies(Replay(NewSession(a), es + [e]), station)
    ensures WasRequested(a, es, station) ==> WasRequested(a, es + [e], station)
    ensures WasLoggedOn(a, es, station) ==> WasLoggedOn(a, es + [e], station)
    ensures WasConnected(a, es, station) ==> WasConnected(a, es + [e], station)
  {
    var fs := es + [e];
    if WasRequested(a, es, station) {
      var i: nat :| i < |es| && Requests(es[i], station) && HeldSince(a, es, i, station);
      HeldSinceExtends(a, es, e, i, station);
      assert Requests(fs[i], station);
    }
    if WasLoggedOn(a, es, station) {
      var i: nat, j: nat :| i < j < |es| && LogonPair(a, es, i, j, station);
      PairExtends(a, es, e, i, j, station);
    }
    if WasConnected(a, es, station) {
      var i: nat, j: nat, k: nat :|
        i < j < k < |es| && LogonPair(a, es, i, j, station) && es[k] == ConnectionAccepted(station);
      PairExtends(a, es, e, i, j, station);
      assert fs[k] == ConnectionAccepted(station);
    }
  }

  /** The last event itself becomes the evidence. */
  lemma EvidenceArrives(a: Endpoint, es: seq<Event>, e: Event, station: Callsign)
    requires Occupies(Replay(NewSession(a), es + [e]), station)
    ensures Requests(e, station) ==> WasRequested(a, es + [e], station)
    ensures WasRequested(a, es, station) && e == LogonAccepted(station) ==> WasLoggedOn(a, es + [e], station)
    ensures WasLoggedOn(a, es, station) && e == ConnectionAccepted(station) ==> WasConnected(a, es + [e], station)
    ensures (exists n :: NdaExplained(es, Some(n)) && n.callsign == station) && e == ConnectionRequest(station)
            ==> WasLoggedOn(a, es + [e], station)
  {
    var fs := es + [e];
    var last := |es|;
    assert fs[..last + 1] == fs;
    assert HeldSince(a, fs, last, station);
    if Requests(e, station) {
      assert Requests(fs[last], station);
    }
    if WasRequested(a, es, station) && e == LogonAccepted(station) {
      var i: nat :| i < |es| && Requests(es[i], station) && HeldSince(a, es, i, station);
      HeldSinceExtends(a, es, e, i, station);
      assert LogonPair(a, fs, i, last, station);
    }
    if WasLoggedOn(a, es, station) && e == ConnectionAccepted(station) {
      var i: nat, j: nat :| i < j < |es| && LogonPair(a, es, i, j, station);
      PairExtends(a, es, e, i, j, station);
      assert fs[last] == ConnectionAccepted(station);
    }
    if (exists n :: NdaExplained(es, Some(n)) && n.callsign == station) && e == ConnectionRequest(station) {
      var n :| NdaExplained(es, Some(n)) && n.callsign == station;
      var i: nat :| i < |es| && es[i] == NextDataAuthority(n)
                    && forall m :: i < m < |es| ==> !es[m].NextDataAuthority?;
      assert LogonPair(a, fs, i, last, station);
    }
  }

  /** The connection stayed in the session, or the event raised its phase. */
  predicate GrownFrom(was: Option<Connection>, e: Event, c: Connection) {
    was.Some? && var o := was.value;
      || c == o
      || (e == LogonAccepted(o.station.callsign) && c == o.(logon := true))
      || (e == ConnectionAccepted(o.station.callsign) && o.logon && c == o.(connection := true))
  }

  /** The event put the connection in: a logon request, or the request of the designated next authority. */
  predicate NewBy(nda: Option<Endpoint>, e: Event, c: Connection) {
    || (e.LogonRequest? && c == NewConnection(e.station))
    || (&& e.ConnectionRequest? && nda.Some? && nda.value.callsign == e.callsign
        && c == Connection(Endpoint(e.callsign, ""), true, false))
  }

  /** Where the connections of a session come from. */
  lemma SlotOrigin(before: SessionState, e: Event, c: Connection)
    requires var after := Advance(before, e); Some(c) == after.active || Some(c) == after.inactive
    ensures GrownFrom(before.active, e, c) || GrownFrom(before.inactive, e, c) || NewBy(before.nda, e, c)
  {}

  lemma GrownStaysExplained(a: Endpoint, es: seq<Event>, e: Event, slot: Option<Connection>, c: Connection)
    requires Explained(a, es, slot) && GrownFrom(slot, e, c)
    requires Occupies(Replay(NewSession(a), es + [e]), c.station.callsign)
    ensures Explained(a, es + [e], Some(c))
  {
    EvidenceExtends(a, es, e, c.station.callsign);
    EvidenceArrives(a, es, e, c.station.callsign);
  }

  lemma NewIsExplained(a: Endpoint, es: seq<Event>, e: Event, nda: Option<Endpoint>, c: Connection)
    requires NdaExplained(es, nda) && NewBy(nda, e, c)
    requires Occupies(Replay(NewSession(a), es + [e]), c.station.callsign)
    ensures Explained(a, es + [e], Some(c))
  {
    EvidenceArrives(a, es, e, c.station.callsign);
    if e.ConnectionRequest? { assert NdaExplained(es, Some(nda.value)); }
  }

  lemma SlotStaysExplained(a: Endpoint, es: seq<Event>, e: Event, before: SessionState, slot: Option<Connection>)
    requires before == Replay(NewSession(a), es)
    requires Explained(a, es, before.active) && Explained(a, es, before.inactive)
    requires NdaExplained(es, before.nda)
    requires var after := Advance(before, e); slot == after.active || slot == after.inactive
    ensures Explained(a, es + [e], slot)
  {
    if slot.Some? {
      var c := slot.value;
      assert (es + [e])[..|es|] == es;
      assert Occupies(Replay(NewSession(a), es + [e]), c.station.callsign);
      SlotOrigin(before, e, c);
      if GrownFrom(before.active, e, c) {
        GrownStaysExplained(a, es, e, before.active, c);
      } else if GrownFrom(before.inactive, e, c) {
        GrownStaysExplained(a, es, e, before.inactive, c);
      } else {
        NewIsExplained(a, es, e, before.nda, c);
      }
    }
  }

  /**
    Causality over whole runs. Every occupied slot of every reachable session
    is explained by the history that led to it, and the explanation is no
    older than the station's present stay in the slots: a connection never
    outlives its termination.
  */
  lemma {:induction false} SlotsAreExplained(a: Endpoint, es: seq<Event>)
    ensures var s := Replay(NewSession(a), es);
            && Explained(a, es, s.active)
            && Explained(a, es, s.inactive)
            && NdaExplained(es, s.nda)
  {
    if es != [] {
      var init, e := es[..|es| - 1], es[|es| - 1];
      assert es == init + [e];
      SlotsAreExplained(a, init);
      var before := Replay(NewSession(a), init);
      var after := Replay(NewSession(a), es);
      SlotStaysExplained(a, init, e, before, after.active);
      SlotStaysExplained(a, init, e, before, after.inactive);
      NdaStaysExplained(init, e, before);
    }
  }

  lemma NdaStaysExplained(es: seq<Event>, e: Event, before: SessionState)
    requires NdaExplained(es, before.nda)
    ensures NdaExplained(es + [e], Advance(before, e).nda)
  {
    var fs := es + [e];
    if e.NextDataAuthority? {
      assert fs[|es|] == e;
    } else if before.nda.Some? {
      var i: nat :| i < |es| && es[i] == NextDataAuthority(before.nda.value)
                    && forall m :: i < m < |es| ==> !es[m].NextDataAuthority?;
      assert fs[i] == NextDataAuthority(before.nda.value);
    }
  }

  /** The reading for one connected station. */
  lemma ConnectedHasACause(a: Endpoint, es: seq<Event>, station: Callsign)
    requires var s := Replay(NewSession(a), es);
             || (Holds(s.active, station) && PhaseOf(s.active.value) == Connected)
             || (Holds(s.inactive, station) && PhaseOf(s.inactive.value) == Connected)
    ensures WasConnected(a, es, station)
  {
    SlotsAreExplained(a, es);
  }

  // ---------------------------------------------------------------------
  // Both slots for one station
  // ---------------------------------------------------------------------

  predicate TwoStations(s: SessionState) {
    s.active.Some? && s.inactive.Some? ==> s.active.value.station.callsign != s.inactive.value.station.callsign
  }

  /** A second logon request to the station that is already active. */
  predicate Relogs(s: SessionState, e: Event) {
    e.LogonRequest? && Holds(s.active, e.station.callsign)
  }

  /** In every session of the run the slots hold different stations. */
  predicate AlwaysTwoStations(a: Endpoint, es: seq<Event>) {
    TwoStations(Replay(NewSession(a), es)) && (es != [] ==> AlwaysTwoStations(a, es[..|es| - 1]))
  }

  predicate NeverRelogs(a: Endpoint, es: seq<Event>) {
    es != [] ==>
      var init := es[..|es| - 1];
      NeverRelogs(a, init) && !Relogs(Replay(NewSession(a), init), es[|es| - 1])
  }

  lemma StaysTwoStationsIff(s: SessionState, e: Event)
    requires WellFormed(s) && TwoStations(s)
    ensures TwoStations(Advance(s, e)) <==> !Relogs(s, e)
  {
  }

  /** The slots of a session keep different stations exactly as long as nobody logs on to the active one again. */
  lemma {:induction false} TwoStationsIffNoRelog(a: Endpoint, es: seq<Event>)
    ensures AlwaysTwoStations(a, es) <==> NeverRelogs(a, es)
  {
    if es != [] {
      var init := es[..|es| - 1];
      TwoStationsIffNoRelog(a, init);
      ReplayKeepsWellFormed(NewSession(a), init);
      if AlwaysTwoStations(a, init) {
        StaysTwoStationsIff(Replay(NewSession(a), init), es[|es| - 1]);
      }
    }
  }

  /** Two logon requests to one station fill both slots with it. */
  lemma RelogFillsBothSlots(a: Endpoint, station: Endpoint)
    ensures var s := Replay(NewSession(a), [LogonRequest(station), LogonRequest(station)]);
            Holds(s.active, station.callsign) && Holds(s.inactive, station.callsign)
  {
    var e := LogonRequest(station);
    assert [e, e][..1] == [e] && [e][..0] == [];
    assert Replay(NewSession(a), [e]) == Advance(NewSession(a), e);
    assert Replay(NewSession(a), [e, e]) == Advance(Replay(NewSession(a), [e]), e);
  }

  /** One termination leaves the station in the session if and only if it held both slots. */
  lemma OneTerminationLeavesIff(s: SessionState, station: Callsign)
    ensures Occupies(OnTermination(s, station), station) <==> Holds(s.active, station) && Holds(s.inactive, station)
    ensures !Occupies(OnTermination(OnTermination(s, station), station), station)
  {
  }
}
