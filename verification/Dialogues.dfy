/**
  Grouping the controller's messages into dialogues: the one-pass maps hold
  exactly what a walk along the chain of message references gives.
*/
module Dialogues {
  import opened Common
  import opened DialogueRules

  // ---------------------------------------------------------------------
  // What the grouping looks at
  // ---------------------------------------------------------------------

  datatype Candidate = Candidate(callsign: Callsign, min: Min, mrn: Option<Min>, closing: bool)

  /** One entry per message; `None` for a message that belongs to no dialogue. */
  type Log = seq<Option<Candidate>>

  function View(m: ReceivedMessage): (v: Option<Candidate>)
    ensures v.Some? ==> DialogueCallsign(m) == Some(v.value.callsign)
    ensures v.Some? ==> v.value.closing == IsClosing(m)
  {
    if IsCandidate(m) && DialogueCallsign(m).Some?
    then Some(Candidate(DialogueCallsign(m).value, m.min.value, m.mrn, IsClosing(m)))
    else None
  }

  function Views(messages: seq<ReceivedMessage>): (log: Log)
    ensures |log| == |messages|
    ensures forall i :: 0 <= i < |log| ==> log[i] == View(messages[i])
  {
    seq(|messages|, i requires 0 <= i < |messages| => View(messages[i]))
  }

  lemma ViewsSnoc(messages: seq<ReceivedMessage>)
    requires messages != []
    ensures var n := |messages| - 1;
            && Views(messages)[..n] == Views(messages[..n])
            && Views(messages)[n] == View(messages[n])
  {}

  // ---------------------------------------------------------------------
  // The reference: walking the chain of references
  // ---------------------------------------------------------------------

  predicate HasMin(log: Log, i: nat, callsign: Callsign, min: Min) {
    i < |log| && log[i].Some? && log[i].value.callsign == callsign && log[i].value.min == min
  }

  /** The latest of the first `n` entries of the aircraft with that MIN. */
  function LatestBefore(log: Log, n: nat, callsign: Callsign, min: Min): (r: Option<nat>)
    requires n <= |log|
    ensures r.Some? ==> r.value < n && HasMin(log, r.value, callsign, min)
                        && forall j: nat :: r.value < j < n ==> !HasMin(log, j, callsign, min)
    ensures r.None? ==> forall j: nat :: j < n ==> !HasMin(log, j, callsign, min)
  {
    if n == 0 then None
    else if HasMin(log, n - 1, callsign, min) then Some(n - 1)
    else LatestBefore(log, n - 1, callsign, min)
  }

  /** The message this one refers to: the latest earlier one of its aircraft with the referenced MIN. */
  function Parent(log: Log, i: nat): (r: Option<nat>)
    requires i < |log| && log[i].Some?
    ensures r.Some? ==> r.value < i && log[r.value].Some?
  {
    var c := log[i].value;
    if c.mrn.None? then None else LatestBefore(log, i, c.callsign, c.mrn.value)
  }

  /** The MIN of the message at the start of the chain. */
  function RootOf(log: Log, i: nat): Min
    requires i < |log| && log[i].Some?
  {
    match Parent(log, i)
    case None => log[i].value.min
    case Some(p) => RootOf(log, p)
  }

  type Key = (Callsign, Min)

  predicate Member(log: Log, i: nat, key: Key) {
    i < |log| && log[i].Some? && log[i].value.callsign == key.0 && RootOf(log, i) == key.1
  }

  lemma {:induction false} LatestInPrefix(log: Log, m: nat, n: nat, callsign: Callsign, min: Min)
    requires n <= m <= |log|
    ensures LatestBefore(log[..m], n, callsign, min) == LatestBefore(log, n, callsign, min)
  {
    if n > 0 { LatestInPrefix(log, m, n - 1, callsign, min); }
  }

  /** Later messages do not move a message to another dialogue. */
  lemma {:induction false} RootInPrefix(log: Log, m: nat, i: nat)
    requires i < m <= |log| && log[i].Some?
    ensures RootOf(log[..m], i) == RootOf(log, i)
  {
    var c := log[i].value;
    if c.mrn.Some? { LatestInPrefix(log, m, i, c.callsign, c.mrn.value); }
    var p := Parent(log, i);
    if p.Some? { RootInPrefix(log, m, p.value); }
  }

  lemma MemberInPrefix(log: Log, m: nat, i: nat, key: Key)
    requires i < m <= |log|
    ensures Member(log[..m], i, key) <==> Member(log, i, key)
  {
    if log[i].Some? { RootInPrefix(log, m, i); }
  }

  // ---------------------------------------------------------------------
  // The one-pass grouping
  // ---------------------------------------------------------------------

  datatype Track = Track(mins: seq<Min>, lastIndex: nat, closed: bool)

  datatype Grouping = Grouping(roots: map<Key, Min>, tracks: map<Key, Track>)

  function RootFor(g: Grouping, c: Candidate): Min {
    if c.mrn.Some? && (c.callsign, c.mrn.value) in g.roots then g.roots[(c.callsign, c.mrn.value)] else c.min
  }

  function Joined(track: Track, i: nat, c: Candidate): Track {
    Track(if c.min in track.mins then track.mins else track.mins + [c.min], i, track.closed || c.closing)
  }

  function Entry(g: Grouping, key: Key, i: nat): Track {
    if key in g.tracks then g.tracks[key] else Track([], i, false)
  }

  /** Entry `i` of the log joins the groups. */
  function Joins(g: Grouping, i: nat, v: Option<Candidate>): Grouping {
    match v
    case None => g
    case Some(c) =>
      var root := RootFor(g, c);
      var key := (c.callsign, root);
      Grouping(g.roots[(c.callsign, c.min) := root], g.tracks[key := Joined(Entry(g, key, i), i, c)])
  }

  function Grouped(log: Log): Grouping {
    if log == [] then Grouping(map[], map[])
    else Joins(Grouped(log[..|log| - 1]), |log| - 1, log[|log| - 1])
  }

  // ---------------------------------------------------------------------
  // The grouping is the reference
  // ---------------------------------------------------------------------

  /** The map of roots holds the root of the latest message with each MIN. */
  predicate RootHolds(log: Log, roots: map<Key, Min>, callsign: Callsign, min: Min) {
    match LatestBefore(log, |log|, callsign, min)
    case None => (callsign, min) !in roots
    case Some(i) => (callsign, min) in roots && roots[(callsign, min)] == RootOf(log, i)
  }

  lemma {:induction false} RootsAreChains(log: Log, callsign: Callsign, min: Min)
    ensures RootHolds(log, Grouped(log).roots, callsign, min)
    decreases |log|, 1
  {
    if log != [] {
      var n := |log| - 1;
      var init := log[..n];
      RootsAreChains(init, callsign, min);
      LatestInPrefix(log, n, n, callsign, min);
      var latest := LatestBefore(log, n, callsign, min);
      if latest.Some? { RootInPrefix(log, n, latest.value); }
      if log[n].Some? { NextRoot(log); }
    }
  }

  /** The root looked up for the last message is the start of its chain. */
  lemma {:induction false} NextRoot(log: Log)
    requires log != [] && log[|log| - 1].Some?
    ensures RootFor(Grouped(log[..|log| - 1]), log[|log| - 1].value) == RootOf(log, |log| - 1)
    decreases |log|, 0
  {
    var n := |log| - 1;
    var c := log[n].value;
    if c.mrn.Some? {
      RootsAreChains(log[..n], c.callsign, c.mrn.value);
      LatestInPrefix(log, n, n, c.callsign, c.mrn.value);
      var p := Parent(log, n);
      if p.Some? { RootInPrefix(log, n, p.value); }
    }
  }

  /** A dialogue: its last message, whether a member closes it, and the MINs of its members. */
  ghost predicate Describes(log: Log, key: Key, track: Track) {
    && Member(log, track.lastIndex, key)
    && (forall i: nat :: Member(log, i, key) ==> i <= track.lastIndex)
    && (track.closed <==> exists i: nat :: Member(log, i, key) && log[i].value.closing)
    && (forall min :: min in track.mins <==> exists i: nat :: Member(log, i, key) && log[i].value.min == min)
  }

  ghost predicate TrackHolds(log: Log, tracks: map<Key, Track>, key: Key) {
    if key in tracks then Describes(log, key, tracks[key]) else forall i: nat :: !Member(log, i, key)
  }

  lemma {:induction false} TracksAreDialogues(log: Log, key: Key)
    ensures TrackHolds(log, Grouped(log).tracks, key)
  {
    if log != [] {
      var n := |log| - 1;
      TracksAreDialogues(log[..n], key);
      OneMore(log, key);
    }
  }

  lemma {:induction false} OneMore(log: Log, key: Key)
    requires log != [] && TrackHolds(log[..|log| - 1], Grouped(log[..|log| - 1]).tracks, key)
    ensures TrackHolds(log, Grouped(log).tracks, key)
  {
    var n := |log| - 1;
    var before, after := Grouped(log[..n]), Grouped(log);
    assert SameMembers(log, key) by {
      forall i: nat | i < n ensures Member(log[..n], i, key) <==> Member(log, i, key) {
        MemberInPrefix(log, n, i, key);
      }
    }
    if log[n].Some? {
      NextRoot(log);
      var joined := (log[n].value.callsign, RootOf(log, n));
      assert after.tracks == before.tracks[joined := Joined(Entry(before, joined, n), n, log[n].value)];
      if key == joined {
        Joining(log, key, before);
      } else {
        Staying(log, key, before.tracks);
      }
    } else {
      Staying(log, key, before.tracks);
    }
  }

  ghost predicate SameMembers(log: Log, key: Key)
    requires log != []
  {
    forall i: nat {:trigger Member(log, i, key)} :: i < |log| - 1 ==>
             (Member(log[..|log| - 1], i, key) <==> Member(log, i, key))
  }

  lemma Staying(log: Log, key: Key, tracks: map<Key, Track>)
    requires log != [] && SameMembers(log, key) && !Member(log, |log| - 1, key)
    requires TrackHolds(log[..|log| - 1], tracks, key)
    ensures key in tracks ==> Describes(log, key, tracks[key])
    ensures key !in tracks ==> forall i: nat :: !Member(log, i, key)
  {
    var n := |log| - 1;
    var init := log[..n];
    forall i: nat ensures Member(log, i, key) <==> Member(init, i, key) {}
    if key in tracks {
      var track := tracks[key];
      forall min ensures min in track.mins <==> exists i: nat :: Member(log, i, key) && log[i].value.min == min {
        if i: nat :| Member(init, i, key) && init[i].value.min == min { assert Member(log, i, key); }
      }
      if i: nat :| Member(init, i, key) && init[i].value.closing { assert Member(log, i, key); }
    }
  }

  lemma Joining(log: Log, key: Key, before: Grouping)
    requires log != [] && SameMembers(log, key) && Member(log, |log| - 1, key)
    requires TrackHolds(log[..|log| - 1], before.tracks, key)
    ensures var n := |log| - 1; Describes(log, key, Joined(Entry(before, key, n), n, log[n].value))
  {
    var n := |log| - 1;
    var init, c := log[..n], log[n].value;
    var entry := Entry(before, key, n);
    var track := Joined(entry, n, c);
    forall i: nat ensures Member(log, i, key) <==> Member(init, i, key) || i == n {}
    forall min ensures min in track.mins <==> exists i: nat :: Member(log, i, key) && log[i].value.min == min {
      if min == c.min { assert Member(log, n, key); }
      if i: nat :| Member(init, i, key) && init[i].value.min == min { assert Member(log, i, key); }
    }
    if c.closing { assert Member(log, n, key); }
    if i: nat :| Member(init, i, key) && init[i].value.closing { assert Member(log, i, key); }
  }

  // ---------------------------------------------------------------------
  // Groups and chains
  // ---------------------------------------------------------------------

  /** The message at the start of the chain. */
  function StartOf(log: Log, i: nat): (start: nat)
    requires i < |log| && log[i].Some?
    ensures start <= i && log[start].Some?
  {
    match Parent(log, i)
    case None => i
    case Some(p) => StartOf(log, p)
  }

  /** The aircraft starts a chain with that MIN here. */
  predicate Starts(log: Log, i: nat, key: Key) {
    HasMin(log, i, key.0, key.1) && Parent(log, i).None?
  }

  /** The start of a member's chain is a chain start with the MIN of the group. */
  lemma {:induction false} StartStarts(log: Log, i: nat, key: Key)
    requires Member(log, i, key)
    ensures Starts(log, StartOf(log, i), key)
  {
    var p := Parent(log, i);
    if p.Some? { StartStarts(log, p.value, key); }
  }

  lemma StartIsMember(log: Log, i: nat, key: Key)
    requires Starts(log, i, key)
    ensures Member(log, i, key) && StartOf(log, i) == i
  {}

  /** The members of the group belong to one chain. */
  ghost predicate OneChain(log: Log, key: Key) {
    forall i: nat, j: nat :: Member(log, i, key) && Member(log, j, key) ==> StartOf(log, i) == StartOf(log, j)
  }

  /** The aircraft starts at most one chain with that MIN. */
  ghost predicate StartsOnce(log: Log, key: Key) {
    forall i: nat, j: nat :: Starts(log, i, key) && Starts(log, j, key) ==> i == j
  }

  /**
    A group is one chain of references if and only if no two chain starts of
    its aircraft have its MIN: groups are kept by the MIN of the start, and a
    MIN that comes round again joins the old group.
  */
  lemma {:induction false} OneChainIff(log: Log, key: Key)
    ensures OneChain(log, key) <==> StartsOnce(log, key)
  {
    if OneChain(log, key) {
      forall i: nat, j: nat | Starts(log, i, key) && Starts(log, j, key) ensures i == j {
        StartIsMember(log, i, key);
        StartIsMember(log, j, key);
      }
    }
    if StartsOnce(log, key) {
      forall i: nat, j: nat | Member(log, i, key) && Member(log, j, key) ensures StartOf(log, i) == StartOf(log, j) {
        StartStarts(log, i, key);
        StartStarts(log, j, key);
      }
    }
  }

  /** An open request, its closing answer, and a fresh request with the first one's MIN. */
  function ReusedMin(cs: Callsign): Log {
    [Some(Candidate(cs, 1, None, false)), Some(Candidate(cs, 2, Some(1), true)), Some(Candidate(cs, 1, None, false))]
  }

  lemma ReusedMinChains(cs: Callsign)
    ensures var log, key := ReusedMin(cs), (cs, 1);
            && Starts(log, 0, key) && Starts(log, 2, key) && !OneChain(log, key)
            && Member(log, 0, key) && Member(log, 1, key) && Member(log, 2, key)
  {
    var log, key := ReusedMin(cs), (cs, 1);
    assert Starts(log, 0, key) && Starts(log, 2, key);
    StartIsMember(log, 0, key);
    StartIsMember(log, 2, key);
    OneChainIff(log, key);
    assert HasMin(log, 0, cs, 1);
    assert LatestBefore(log, 1, cs, 1) == Some(0);
    assert Parent(log, 1) == Some(0);
  }

  /** The fresh request starts a chain of its own and joins the closed group. */
  lemma ReusedMinJoins(cs: Callsign)
    ensures var log, key := ReusedMin(cs), (cs, 1);
            && Starts(log, 0, key) && Starts(log, 2, key) && !OneChain(log, key)
            && Member(log, 0, key) && Member(log, 1, key) && Member(log, 2, key)
            && key in Grouped(log).tracks && Grouped(log).tracks[key] == Track([1, 2], 2, true)
  {
    ReusedMinChains(cs);
    var log, key := ReusedMin(cs), (cs, 1);
    assert log[..2] == [log[0], log[1]] && log[..2][..1] == [log[0]] && [log[0]][..0] == [];
    var c0, c1, c2 := log[0].value, log[1].value, log[2].value;
    var g1 := Joins(Grouped([]), 0, log[0]);
    assert g1 == Grouped(log[..2][..1]);
    assert g1.tracks[key] == Track([1], 0, false) && g1.roots[(cs, 1)] == 1;
    var g2 := Joins(g1, 1, log[1]);
    assert g2 == Grouped(log[..2]);
    assert g2.tracks[key] == Track([1, 2], 1, true);
    assert Grouped(log) == Joins(g2, 2, log[2]);
  }
}
