/**
  Presence: what happens to the sessions when a station goes offline, and the
  lease sweep of the registry composed with it.
*/
module Presence {
  import opened Common
  import opened Session
  import opened SessionHistory
  import opened Handler
  import opened Registry
  import Store
  import opened Sequences

  type Sessions = map<Address, SessionState>

  function AddressOf(s: SessionState): Address {
    s.aircraft.address
  }

  ghost predicate Keyed(sessions: Sessions) {
    forall a :: a in sessions ==> sessions[a].aircraft.address == a && WellFormed(sessions[a])
  }

  function TerminatedEverywhere(sessions: Sessions, station: Callsign): Sessions {
    map a | a in sessions :: OnTermination(sessions[a], station)
  }

  predicate ListsRelevant(listed: seq<SessionState>, sessions: Sessions, callsign: Callsign) {
    && Apart(listed, AddressOf)
    && (forall i :: 0 <= i < |listed| ==>
          && listed[i].aircraft.address in sessions
          && sessions[listed[i].aircraft.address] == listed[i]
          && Store.Relevant(listed[i], callsign))
    && (forall a :: a in sessions && Store.Relevant(sessions[a], callsign) ==> sessions[a] in listed)
  }

  class SessionStore {
    var sessions: Sessions

    constructor ()
      ensures sessions == map[]
    {
      sessions := map[];
    }

    method ListSessionsForCallsign(callsign: Callsign) returns (listed: seq<SessionState>)
      requires Keyed(sessions)
      ensures ListsRelevant(listed, sessions, callsign)
    {
      listed := [];
      var keys := sessions.Keys;
      while keys != {}
        invariant keys <= sessions.Keys
        invariant Apart(listed, AddressOf)
        invariant forall i :: 0 <= i < |listed| ==>
          && listed[i].aircraft.address in sessions && listed[i].aircraft.address !in keys
          && sessions[listed[i].aircraft.address] == listed[i]
          && Store.Relevant(listed[i], callsign)
        invariant forall a :: a in sessions && a !in keys && Store.Relevant(sessions[a], callsign) ==>
          sessions[a] in listed
        decreases keys
      {
        var key :| key in keys;
        keys := keys - {key};
        if Store.Relevant(sessions[key], callsign) {
          listed := listed + [sessions[key]];
        }
      }
    }

    /**
      Terminate `station` in every session. The result holds, each once, the
      sessions that named it and from which it is now gone.
    */
    method TerminateSessionsForStation(station: Callsign) returns (updated: seq<SessionState>)
      requires Keyed(sessions)
      modifies this
      ensures Keyed(sessions)
      ensures sessions == TerminatedEverywhere(old(sessions), station)
      ensures ReleasedExactly(updated, old(sessions), station)
    {
      var listed := ListSessionsForCallsign(station);
      updated := [];
      ghost var before := sessions;
      for i := 0 to |listed|
        invariant sessions == TerminatedListed(before, listed[..i], station)
        invariant updated == ReleasedBy(listed[..i], station)
      {
        NextListed(before, listed, i, station);
        var aircraft := listed[i].aircraft;
        var existing := sessions[aircraft.address];
        if Occupies(existing, station) {
          existing := OnTermination(existing, station);
        }
        sessions := sessions[aircraft.address := existing];
        if !Occupies(existing, station) {
          updated := updated + [existing];
        }
      }
      assert listed[..|listed|] == listed;
      AllListed(before, listed, station);
      TerminationKeepsKeyed(before, station);
      ReleasedWere(before, listed, station);
    }
  }

  ghost predicate WasReleased(s: SessionState, before: Sessions, station: Callsign) {
    && !Occupies(s, station)
    && exists a :: a in before && Store.Relevant(before[a], station) && OnTermination(before[a], station) == s
  }

  /** Each once, the sessions that named `station` and do not after its termination. */
  ghost predicate ReleasedExactly(updated: seq<SessionState>, before: Sessions, station: Callsign) {
    && (forall i :: 0 <= i < |updated| ==> WasReleased(updated[i], before, station))
    && (forall a :: a in before && Store.Relevant(before[a], station)
                    && !Occupies(OnTermination(before[a], station), station) ==>
          OnTermination(before[a], station) in updated)
    && Apart(updated, AddressOf)
  }

  /** The stored sessions after the sweep has worked through `listed`. */
  function TerminatedListed(sessions: Sessions, listed: seq<SessionState>, station: Callsign): Sessions {
    if listed == [] then sessions
    else
      var s := listed[|listed| - 1];
      TerminatedListed(sessions, listed[..|listed| - 1], station)[s.aircraft.address := OnTermination(s, station)]
  }

  function ReleasedBy(listed: seq<SessionState>, station: Callsign): seq<SessionState> {
    Kept(EachTerminated(listed, station), (s: SessionState) => !Occupies(s, station))
  }

  function EachTerminated(listed: seq<SessionState>, station: Callsign): seq<SessionState> {
    seq(|listed|, i requires 0 <= i < |listed| => OnTermination(listed[i], station))
  }

  lemma ReleasedSnoc(listed: seq<SessionState>, s: SessionState, station: Callsign)
    ensures ReleasedBy(listed + [s], station)
         == ReleasedBy(listed, station)
            + (if Occupies(OnTermination(s, station), station) then [] else [OnTermination(s, station)])
  {
    assert EachTerminated(listed + [s], station) == EachTerminated(listed, station) + [OnTermination(s, station)];
    KeptSnoc(EachTerminated(listed, station), OnTermination(s, station), (t: SessionState) => !Occupies(t, station));
  }

  predicate TakenFrom(listed: seq<SessionState>, sessions: Sessions) {
    && Apart(listed, AddressOf)
    && (forall i :: 0 <= i < |listed| ==>
          listed[i].aircraft.address in sessions && sessions[listed[i].aircraft.address] == listed[i])
  }

  lemma {:induction false} TerminatedListedIs(sessions: Sessions, listed: seq<SessionState>, station: Callsign)
    requires Keyed(sessions) && TakenFrom(listed, sessions)
    ensures var after := TerminatedListed(sessions, listed, station);
            && after.Keys == sessions.Keys
            && forall a :: a in sessions ==>
                 after[a] == if sessions[a] in listed then OnTermination(sessions[a], station) else sessions[a]
  {
    if listed != [] {
      var init, s := listed[..|listed| - 1], listed[|listed| - 1];
      assert listed == init + [s];
      TerminatedListedIs(sessions, init, station);
      assert forall i :: 0 <= i < |init| ==> init[i].aircraft.address != s.aircraft.address;
      assert sessions[s.aircraft.address] == s;
    }
  }

  lemma NextListed(sessions: Sessions, listed: seq<SessionState>, i: nat, station: Callsign)
    requires Keyed(sessions) && TakenFrom(listed, sessions) && i < |listed|
    ensures var now := TerminatedListed(sessions, listed[..i], station);
            var s := listed[i];
            && s.aircraft.address in now && now[s.aircraft.address] == s
            && TerminatedListed(sessions, listed[..i + 1], station)
               == now[s.aircraft.address := OnTermination(s, station)]
            && ReleasedBy(listed[..i + 1], station)
               == ReleasedBy(listed[..i], station)
                  + (if Occupies(OnTermination(s, station), station) then [] else [OnTermination(s, station)])
  {
    assert listed[..i + 1] == listed[..i] + [listed[i]];
    ReleasedSnoc(listed[..i], listed[i], station);
    TerminatedListedIs(sessions, listed[..i], station);
    assert forall j :: 0 <= j < i ==> listed[j].aircraft.address != listed[i].aircraft.address;
    assert listed[i] !in listed[..i];
  }

  lemma AllListed(sessions: Sessions, listed: seq<SessionState>, station: Callsign)
    requires Keyed(sessions) && ListsRelevant(listed, sessions, station)
    ensures TerminatedListed(sessions, listed, station) == TerminatedEverywhere(sessions, station)
  {
    TerminatedListedIs(sessions, listed, station);
    forall a | a in sessions
      ensures TerminatedListed(sessions, listed, station)[a] == OnTermination(sessions[a], station)
    {
      if Occupies(sessions[a], station) { assert Store.Relevant(sessions[a], station); }
    }
  }

  lemma TerminationKeepsKeyed(sessions: Sessions, station: Callsign)
    requires Keyed(sessions)
    ensures Keyed(TerminatedEverywhere(sessions, station))
  {
  }

  lemma ReleasedWere(sessions: Sessions, listed: seq<SessionState>, station: Callsign)
    requires ListsRelevant(listed, sessions, station)
    ensures ReleasedExactly(ReleasedBy(listed, station), sessions, station)
  {
    var ended := EachTerminated(listed, station);
    var rs := ReleasedBy(listed, station);
    KeptIs(ended, (t: SessionState) => !Occupies(t, station));
    KeptApart(ended, (t: SessionState) => !Occupies(t, station), AddressOf);
    forall j | 0 <= j < |rs| ensures WasReleased(rs[j], sessions, station) {
      assert rs[j] in rs;
      var i :| 0 <= i < |listed| && ended[i] == rs[j];
      assert sessions[listed[i].aircraft.address] == listed[i];
    }
    forall a | a in sessions && Store.Relevant(sessions[a], station)
             && !Occupies(OnTermination(sessions[a], station), station)
      ensures OnTermination(sessions[a], station) in rs
    {
      var i :| 0 <= i < |listed| && listed[i] == sessions[a];
      assert ended[i] in ended;
    }
  }

  // ---------------------------------------------------------------------
  // What the sessions keep
  // ---------------------------------------------------------------------

  function Callsigns(es: seq<StationEntry>): seq<Callsign> {
    if es == [] then [] else Callsigns(es[..|es| - 1]) + [es[|es| - 1].endpoint.callsign]
  }

  function OfflineAll(sessions: Sessions, gone: seq<Callsign>): Sessions {
    if gone == [] then sessions else TerminatedEverywhere(OfflineAll(sessions, gone[..|gone| - 1]), gone[|gone| - 1])
  }

  function Count(gone: seq<Callsign>, c: Callsign): nat {
    if gone == [] then 0 else Count(gone[..|gone| - 1], c) + (if gone[|gone| - 1] == c then 1 else 0)
  }

  function Spared(cs: seq<Connection>, gone: seq<Callsign>): seq<Connection> {
    Kept(cs, (c: Connection) => c.station.callsign !in gone)
  }

  lemma SparedCons(c: Connection, cs: seq<Connection>, gone: seq<Callsign>)
    ensures Spared([c] + cs, gone) == (if c.station.callsign in gone then [] else [c]) + Spared(cs, gone)
  {
    KeptCons(c, cs, (d: Connection) => d.station.callsign !in gone);
  }

  lemma {:induction false} WithoutSpares(cs: seq<Connection>, station: Callsign, gone: seq<Callsign>)
    requires station in gone
    ensures Spared(Without(cs, station, 1), gone) == Spared(cs, gone)
  {
    if cs != [] {
      var head, rest := cs[0], cs[1..];
      assert cs == [head] + rest;
      SparedCons(head, rest, gone);
      if head.station.callsign == station {
        assert Without(rest, station, 0) == rest;
      } else {
        WithoutSpares(rest, station, gone);
        SparedCons(head, Without(rest, station, 1), gone);
      }
    }
  }

  lemma {:induction false} WithoutKeepsOtherCounts(cs: seq<Connection>, station: Callsign, c: Callsign)
    requires c != station
    ensures Occurrences(Without(cs, station, 1), c) == Occurrences(cs, c)
  {
    if cs != [] {
      WithoutKeepsOtherCounts(cs[1..], station, c);
      if cs[0].station.callsign == station {
        assert Without(cs[1..], station, 0) == cs[1..];
      } else {
        assert ([cs[0]] + Without(cs[1..], station, 1))[1..] == Without(cs[1..], station, 1);
      }
    }
  }

  lemma {:induction false} SparedByMore(cs: seq<Connection>, ds: seq<Connection>, gone: seq<Callsign>, c: Callsign)
    requires Spared(cs, gone) == Spared(ds, gone)
    ensures Spared(cs, gone + [c]) == Spared(ds, gone + [c])
  {
    SparedTwice(cs, gone, c);
    SparedTwice(ds, gone, c);
  }

  lemma {:induction false} SparedTwice(cs: seq<Connection>, gone: seq<Callsign>, c: Callsign)
    ensures Spared(cs, gone + [c]) == Spared(Spared(cs, gone), [c])
  {
    if cs != [] {
      var head, rest := cs[0], cs[1..];
      assert cs == [head] + rest;
      SparedTwice(rest, gone, c);
      SparedCons(head, rest, gone + [c]);
      SparedCons(head, rest, gone);
      if head.station.callsign in gone {
        assert Spared(cs, gone) == Spared(rest, gone);
      } else {
        SparedCons(head, Spared(rest, gone), [c]);
      }
    }
  }

  lemma OneOffline(s: SessionState, station: Callsign, gone: seq<Callsign>, c: Callsign)
    requires WellFormed(s) && station in gone
    ensures WellFormed(OnTermination(s, station)) && OnTermination(s, station).aircraft == s.aircraft
    ensures var before, after := Slots(s), Slots(OnTermination(s, station));
            && Occurrences(after, c) == Occurrences(before, c)
                                        - (if c == station && Occurrences(before, c) > 0 then 1 else 0)
            && Spared(after, gone) == Spared(before, gone)
  {
    var cs := Slots(s);
    TerminationRemovesFirst(s, station);
    WithoutSpares(cs, station, gone);
    if c == station {
      WithoutCounts(cs, station, 1);
    } else {
      WithoutKeepsOtherCounts(cs, station, c);
    }
  }

  /**
    Stations going offline, one after the other. Each lowers its own
    occurrences in every session by one, not below zero; the connections of all
    other stations stay, in order, whichever slot they end up in.
  */
  lemma {:induction false} OfflineAllEffect(sessions: Sessions, gone: seq<Callsign>, a: Address, c: Callsign)
    requires a in sessions && WellFormed(sessions[a])
    ensures a in OfflineAll(sessions, gone)
    ensures var s, t := sessions[a], OfflineAll(sessions, gone)[a];
            && WellFormed(t) && t.aircraft == s.aircraft && t.nda == s.nda
            && Occurrences(Slots(t), c) ==
                 (if Count(gone, c) <= Occurrences(Slots(s), c) then Occurrences(Slots(s), c) - Count(gone, c) else 0)
            && Spared(Slots(t), gone) == Spared(Slots(s), gone)
            && ((forall d :: d in gone ==> !Occupies(s, d)) ==> t == s)
  {
    if gone != [] {
      var init, station := gone[..|gone| - 1], gone[|gone| - 1];
      assert gone == init + [station];
      OfflineAllEffect(sessions, init, a, c);
      var mid := OfflineAll(sessions, init)[a];
      SparedByMore(Slots(sessions[a]), Slots(mid), init, station);
      OneOffline(mid, station, gone, c);
    }
  }
}
