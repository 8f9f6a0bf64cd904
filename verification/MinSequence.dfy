/**
  The three allocators of Message Identification Numbers: the Hoppie bridge's
  tracker (keyed by a callsign pair, counting the last number given out), the
  Rust client and the TypeScript client (keyed by `sender>receiver`, holding
  the next number). All three must give out the same circular sequence.
*/
module MinSequence {
  type Byte = x: int | 0 <= x < 256

  type Pair = (string, string)

  datatype Op<K> = Next(key: K) | Reset(key: K)

  const LAST: int := 63

  // ---------------------------------------------------------------------
  // The allocators
  // ---------------------------------------------------------------------

  function TrackerMin(counters: map<Pair, Byte>, key: Pair): Byte {
    (if key in counters then counters[key] else 0) % LAST + 1
  }

  class SessionTracker {
    var minCounters: map<Pair, Byte>
    var hoppieToOpenlink: map<(Pair, Byte), Byte>
    var openlinkToHoppie: map<(Pair, Byte), Byte>

    constructor ()
      ensures minCounters == map[] && hoppieToOpenlink == map[] && openlinkToHoppie == map[]
    {
      minCounters, hoppieToOpenlink, openlinkToHoppie := map[], map[], map[];
    }

    method NextMin(key: Pair) returns (min: Byte)
      modifies this`minCounters
      ensures min == TrackerMin(old(minCounters), key)
      ensures minCounters == old(minCounters)[key := min]
    {
      if key !in minCounters {
        minCounters := minCounters[key := 0];
      }
      minCounters := minCounters[key := minCounters[key] % LAST + 1];
      min := minCounters[key];
    }

    method ResetSession(key: Pair)
      modifies this
      ensures minCounters == old(minCounters) - {key}
      ensures forall p :: p in hoppieToOpenlink <==> p in old(hoppieToOpenlink) && p.0 != key
      ensures forall p :: p in hoppieToOpenlink ==> hoppieToOpenlink[p] == old(hoppieToOpenlink)[p]
      ensures forall p :: p in openlinkToHoppie <==> p in old(openlinkToHoppie) && p.0 != key
      ensures forall p :: p in openlinkToHoppie ==> openlinkToHoppie[p] == old(openlinkToHoppie)[p]
    {
      minCounters := minCounters - {key};
      hoppieToOpenlink := map p | p in hoppieToOpenlink && p.0 != key :: hoppieToOpenlink[p];
      openlinkToHoppie := map p | p in openlinkToHoppie && p.0 != key :: openlinkToHoppie[p];
    }
  }

  /** The session key of both clients. */
  function SessionKey(p: Pair): string {
    p.0 + ">" + p.1
  }

  function Normalized(entry: int): int {
    if entry <= 0 || entry > LAST then 1 else entry
  }

  function ClientMin(next: map<string, int>, key: string): int {
    Normalized(if key in next then next[key] else 1)
  }

  function Successor(min: int): int {
    if min >= LAST then 1 else min + 1
  }

  class OpenLinkClient {
    var minSequences: map<string, Byte>

    constructor ()
      ensures minSequences == map[]
    {
      minSequences := map[];
    }

    method NextMinForSession(p: Pair) returns (min: Byte)
      modifies this
      ensures min == ClientMin(old(minSequences), SessionKey(p))
      ensures minSequences == old(minSequences)[SessionKey(p) := Successor(min)]
    {
      var key := p.0 + ">" + p.1;
      if key !in minSequences {
        minSequences := minSequences[key := 1];
      }
      var entry := minSequences[key];
      var current := if entry == 0 || entry > 63 then 1 else entry;
      minSequences := minSequences[key := if current >= 63 then 1 else current + 1];
      min := current;
    }

    method ResetMinForSession(p: Pair)
      modifies this
      ensures minSequences == old(minSequences)[SessionKey(p) := 1]
    {
      minSequences := minSequences[p.0 + ">" + p.1 := 1];
    }
  }

  class TypeScriptSequences {
    var minSequences: map<string, int>

    constructor ()
      ensures minSequences == map[]
    {
      minSequences := map[];
    }

    method NextMinForSession(p: Pair) returns (min: int)
      modifies this
      ensures min == ClientMin(old(minSequences), SessionKey(p))
      ensures minSequences == old(minSequences)[SessionKey(p) := Successor(min)]
    {
      var key := p.0 + ">" + p.1;
      var current := if key in minSequences then minSequences[key] else 1;
      var normalized := if current > 0 && current <= 63 then current else 1;
      var next := if normalized >= 63 then 1 else normalized + 1;
      minSequences := minSequences[key := next];
      min := normalized;
    }

    method ResetMinForSession(p: Pair)
      modifies this
      ensures minSequences == old(minSequences)[SessionKey(p) := 1]
    {
      minSequences := minSequences[p.0 + ">" + p.1 := 1];
    }
  }

  // ---------------------------------------------------------------------
  // Runs
  // ---------------------------------------------------------------------

  function TrackerState(ops: seq<Op<Pair>>): map<Pair, Byte> {
    if ops == [] then map[]
    else
      var before, op := TrackerState(ops[..|ops| - 1]), ops[|ops| - 1];
      match op
      case Next(key) => before[key := TrackerMin(before, key)]
      case Reset(key) => before - {key}
  }

  function ClientState(ops: seq<Op<Pair>>): map<string, int> {
    if ops == [] then map[]
    else
      var before, op := ClientState(ops[..|ops| - 1]), ops[|ops| - 1];
      var key := SessionKey(op.key);
      match op
      case Next(_) => before[key := Successor(ClientMin(before, key))]
      case Reset(_) => before[key := 1]
  }

  /** Allocations for `key` since it was last reset. */
  function Since<K(==)>(ops: seq<Op<K>>, key: K): nat {
    if ops == [] then 0
    else
      var before, op := Since(ops[..|ops| - 1], key), ops[|ops| - 1];
      if op.key != key then before
      else if op.Next? then before + 1
      else 0
  }

  /** The numbers the tracker gives out for `key` over a run, in order. */
  function Allocated(ops: seq<Op<Pair>>, key: Pair): seq<int> {
    if ops == [] then []
    else
      var init, op := ops[..|ops| - 1], ops[|ops| - 1];
      Allocated(init, key) + (if op == Next(key) then [TrackerMin(TrackerState(init), key) as int] else [])
  }

  lemma {:induction false} TrackerCounts(ops: seq<Op<Pair>>, key: Pair)
    ensures var n := Since(ops, key);
            var counters := TrackerState(ops);
            (if key in counters then counters[key] else 0) == if n == 0 then 0 else (n - 1) % LAST + 1
  {
    if ops != [] {
      TrackerCounts(ops[..|ops| - 1], key);
    }
  }

  /** Whatever happens on other keys, the next number for a key only counts that key's allocations. */
  lemma TrackerMinIs(ops: seq<Op<Pair>>, key: Pair)
    ensures TrackerMin(TrackerState(ops), key) == Since(ops, key) % LAST + 1
  {
    TrackerCounts(ops, key);
  }

  /** The string keys `p` and `q` share although the pairs differ, `p` with the shorter sender. */
  ghost predicate Overlaps(p: Pair, q: Pair) {
    exists x: string :: q.0 == p.0 + ">" + x && p.1 == x + ">" + q.1
  }

  /** Two different pairs with one string key. */
  ghost predicate Collide(p: Pair, q: Pair) {
    Overlaps(p, q) || Overlaps(q, p)
  }

  lemma OverlapsShareKey(p: Pair, q: Pair, x: string)
    requires q.0 == p.0 + ">" + x && p.1 == x + ">" + q.1
    ensures SessionKey(p) == SessionKey(q) && p != q
  {
    assert |q.0| > |p.0|;
    assert SessionKey(p) == p.0 + ">" + x + ">" + q.1;
  }

  lemma SharedKeyOverlaps(p: Pair, q: Pair)
    requires SessionKey(p) == SessionKey(q) && |p.0| <= |q.0| && p != q
    ensures Overlaps(p, q)
  {
    var k := SessionKey(p);
    assert p.0 == k[..|p.0|] && p.1 == k[|p.0| + 1..] && k[|p.0|] == '>';
    assert q.0 == k[..|q.0|] && q.1 == k[|q.0| + 1..] && k[|q.0|] == '>';
    assert |p.0| < |q.0|;
    var x := k[|p.0| + 1..|q.0|];
    assert q.0 == p.0 + ">" + x;
    assert p.1 == x + ">" + q.1;
  }

  /**
    When the string key tells two pairs apart: always, unless one sender
    continues the other with a `>` and what follows it, up to a `>`, starts the
    other's receiver.
  */
  lemma SessionKeySharedIff(p: Pair, q: Pair)
    ensures SessionKey(p) == SessionKey(q) <==> p == q || Collide(p, q)
  {
    if SessionKey(p) == SessionKey(q) && p != q {
      if |p.0| <= |q.0| { SharedKeyOverlaps(p, q); } else { SharedKeyOverlaps(q, p); }
    }
    if Overlaps(p, q) {
      var x :| q.0 == p.0 + ">" + x && p.1 == x + ">" + q.1;
      OverlapsShareKey(p, q, x);
    }
    if Overlaps(q, p) {
      var x :| p.0 == q.0 + ">" + x && q.1 == x + ">" + p.1;
      OverlapsShareKey(q, p, x);
    }
  }

  lemma OverlapHasSeparator(p: Pair, q: Pair)
    ensures Overlaps(p, q) ==> '>' in q.0
  {
    if Overlaps(p, q) {
      var x :| q.0 == p.0 + ">" + x && p.1 == x + ">" + q.1;
      assert q.0[|p.0|] == '>';
    }
  }

  /** Senders without `>` never collide. */
  lemma SessionKeyInjective(p: Pair, q: Pair)
    requires '>' !in p.0 && '>' !in q.0
    ensures SessionKey(p) == SessionKey(q) <==> p == q
  {
    SessionKeySharedIff(p, q);
    OverlapHasSeparator(p, q);
    OverlapHasSeparator(q, p);
  }

  /** With a `>` in a sender two pairs can share one sequence. */
  lemma SessionKeyCollides()
    ensures Collide(("A>B", "C"), ("A", "B>C"))
    ensures SessionKey(("A>B", "C")) == SessionKey(("A", "B>C")) && ("A>B", "C") != ("A", "B>C")
  {
    assert "A>B" == "A" + ">" + "B" && "B>C" == "B" + ">" + "C";
    assert Overlaps(("A", "B>C"), ("A>B", "C"));
    assert "A>B" != "A";
  }

  /** A run as the clients see it: operations on string keys. */
  function Keyed(ops: seq<Op<Pair>>): seq<Op<string>> {
    if ops == [] then []
    else
      var op := ops[|ops| - 1];
      Keyed(ops[..|ops| - 1]) + [if op.Next? then Next(SessionKey(op.key)) else Reset(SessionKey(op.key))]
  }

  lemma KeyedSnoc(ops: seq<Op<Pair>>)
    requires ops != []
    ensures var keyed, op := Keyed(ops), ops[|ops| - 1];
            && keyed != [] && keyed[..|keyed| - 1] == Keyed(ops[..|ops| - 1])
            && keyed[|keyed| - 1] == if op.Next? then Next(SessionKey(op.key)) else Reset(SessionKey(op.key))
  {
    var keyed := Keyed(ops);
    assert keyed[..|keyed| - 1] == Keyed(ops[..|ops| - 1]);
  }

  /** The clients count the allocations of a string key, whichever pair they were for. */
  lemma {:induction false} ClientCounts(ops: seq<Op<Pair>>, key: string)
    ensures ClientMin(ClientState(ops), key) == Since(Keyed(ops), key) % LAST + 1
  {
    if ops != [] {
      ClientCounts(ops[..|ops| - 1], key);
      KeyedSnoc(ops);
      CountGoesOn(Since(Keyed(ops[..|ops| - 1]), key));
    }
  }

  /** The successor of the number for `n` allocations is the number for one more. */
  lemma CountGoesOn(n: nat)
    ensures Normalized(Successor(n % LAST + 1)) == (n + 1) % LAST + 1
    ensures Normalized(n % LAST + 1) == n % LAST + 1
  {}

  /**
    The allocators, after any run of allocations and resets: the clients and
    the tracker give a pair the same next number if and only if the numbers
    given out since the last reset, of the string key and of the pair, are the
    same up to whole rounds of 63.
  */
  lemma AllocatorsAgreeIff(ops: seq<Op<Pair>>, p: Pair)
    ensures ClientMin(ClientState(ops), SessionKey(p)) == TrackerMin(TrackerState(ops), p)
            <==> Since(Keyed(ops), SessionKey(p)) % LAST == Since(ops, p) % LAST
    ensures 1 <= ClientMin(ClientState(ops), SessionKey(p)) <= LAST
    ensures 1 <= TrackerMin(TrackerState(ops), p) <= LAST
  {
    ClientCounts(ops, SessionKey(p));
    TrackerMinIs(ops, p);
  }

  /** No operation is on another pair with the key of `p`. */
  ghost predicate Undisturbed(ops: seq<Op<Pair>>, p: Pair) {
    forall i :: 0 <= i < |ops| ==> !Collide(ops[i].key, p)
  }

  lemma {:induction false} UndisturbedCounts(ops: seq<Op<Pair>>, p: Pair)
    requires Undisturbed(ops, p)
    ensures Since(Keyed(ops), SessionKey(p)) == Since(ops, p)
  {
    if ops != [] {
      var n := |ops| - 1;
      forall i | 0 <= i < n ensures !Collide(ops[..n][i].key, p) {
        assert ops[..n][i] == ops[i];
      }
      UndisturbedCounts(ops[..n], p);
      SessionKeySharedIff(ops[n].key, p);
      var keyed := Keyed(ops);
      assert keyed[..|keyed| - 1] == Keyed(ops[..n]);
    }
  }

  /** The allocators agree on every pair whose string key no other pair of the run shares. */
  lemma AllocatorsAgree(ops: seq<Op<Pair>>, p: Pair)
    requires Undisturbed(ops, p)
    ensures ClientMin(ClientState(ops), SessionKey(p)) == TrackerMin(TrackerState(ops), p)
  {
    UndisturbedCounts(ops, p);
    AllocatorsAgreeIff(ops, p);
  }

  // ---------------------------------------------------------------------
  // Windows
  // ---------------------------------------------------------------------

  predicate NoReset<K(==)>(ops: seq<Op<K>>, key: K) {
    forall i :: 0 <= i < |ops| ==> ops[i] != Reset(key)
  }

  /** The numbers an allocator that counts by key gives out for `key`, in order. */
  function Given<K(==)>(ops: seq<Op<K>>, key: K): seq<int> {
    if ops == [] then []
    else
      var init, op := ops[..|ops| - 1], ops[|ops| - 1];
      Given(init, key) + (if op == Next(key) then [Since(init, key) % LAST + 1] else [])
  }

  /** The numbers the tracker gives out are counted by pair. */
  lemma {:induction false} AllocatedIsGiven(ops: seq<Op<Pair>>, key: Pair)
    ensures Allocated(ops, key) == Given(ops, key)
  {
    if ops != [] {
      AllocatedIsGiven(ops[..|ops| - 1], key);
      TrackerMinIs(ops[..|ops| - 1], key);
    }
  }

  /** The numbers the clients give out for a string key over a run, to whichever pairs, in order. */
  function ClientAllocated(ops: seq<Op<Pair>>, key: string): seq<int> {
    if ops == [] then []
    else
      var init, op := ops[..|ops| - 1], ops[|ops| - 1];
      ClientAllocated(init, key)
      + (if op.Next? && SessionKey(op.key) == key then [ClientMin(ClientState(init), key)] else [])
  }

  /** The numbers the clients give out are counted by string key. */
  lemma {:induction false} ClientAllocatedIsGiven(ops: seq<Op<Pair>>, key: string)
    ensures ClientAllocated(ops, key) == Given(Keyed(ops), key)
  {
    if ops != [] {
      var init := ops[..|ops| - 1];
      ClientAllocatedIsGiven(init, key);
      ClientCounts(init, key);
      KeyedSnoc(ops);
    }
  }

  lemma {:induction false} GivenInWindow<K>(pre: seq<Op<K>>, mid: seq<Op<K>>, key: K)
    requires NoReset(mid, key)
    ensures var prior, all := Given(pre, key), Given(pre + mid, key);
            && |prior| <= |all| && all[..|prior|] == prior
            && Since(pre + mid, key) == Since(pre, key) + (|all| - |prior|)
            && forall j :: |prior| <= j < |all| ==> all[j] == (Since(pre, key) + (j - |prior|)) % LAST + 1
  {
    if mid == [] {
      assert pre + mid == pre;
    } else {
      var n := |mid| - 1;
      assert (pre + mid)[..|pre + mid| - 1] == pre + mid[..n];
      GivenInWindow(pre, mid[..n], key);
      assert mid[n] != Reset(key);
    }
  }

  /** Each of 1 to 63 once. */
  predicate IsPermutation(given: seq<int>) {
    && |given| == LAST
    && (forall i, j :: 0 <= i < j < LAST ==> given[i] != given[j])
    && (forall m :: 1 <= m <= LAST ==> m in given)
    && (forall i :: 0 <= i < LAST ==> 1 <= given[i] <= LAST)
  }

  lemma {:induction false} GivenWindow<K>(pre: seq<Op<K>>, mid: seq<Op<K>>, key: K)
    requires NoReset(mid, key)
    requires |Given(pre + mid, key)| == |Given(pre, key)| + LAST
    ensures IsPermutation(Given(pre + mid, key)[|Given(pre, key)|..])
  {
    GivenInWindow(pre, mid, key);
    var start := Since(pre, key);
    var given := Given(pre + mid, key)[|Given(pre, key)|..];
    forall i | 0 <= i < LAST ensures given[i] == (start + i) % LAST + 1 {
      assert given[i] == Given(pre + mid, key)[|Given(pre, key)| + i];
    }
    CircularWindow(start, given);
  }

  /**
    Any 63 consecutive allocations of the tracker for one pair, with no reset
    of that pair in between and anything at all on other pairs, are a
    permutation of 1..63.
  */
  lemma {:induction false} WindowIsPermutation(pre: seq<Op<Pair>>, mid: seq<Op<Pair>>, key: Pair)
    requires NoReset(mid, key)
    requires |Allocated(pre + mid, key)| == |Allocated(pre, key)| + LAST
    ensures IsPermutation(Allocated(pre + mid, key)[|Allocated(pre, key)|..])
  {
    AllocatedIsGiven(pre, key);
    AllocatedIsGiven(pre + mid, key);
    GivenWindow(pre, mid, key);
  }

  /** No operation resets the string key, for any pair that has it. */
  predicate NoKeyReset(ops: seq<Op<Pair>>, key: string) {
    forall i :: 0 <= i < |ops| && ops[i].Reset? ==> SessionKey(ops[i].key) != key
  }

  lemma {:induction false} KeyedNoReset(ops: seq<Op<Pair>>, key: string)
    requires NoKeyReset(ops, key)
    ensures NoReset(Keyed(ops), key)
  {
    if ops != [] {
      var init := ops[..|ops| - 1];
      assert forall i :: 0 <= i < |init| ==> init[i] == ops[i];
      KeyedNoReset(init, key);
      KeyedSnoc(ops);
      var keyed := Keyed(ops);
      forall i | 0 <= i < |keyed| ensures keyed[i] != Reset(key) {
        if i < |keyed| - 1 { assert keyed[i] == keyed[..|keyed| - 1][i]; }
      }
    }
  }

  lemma {:induction false} KeyedAppend(xs: seq<Op<Pair>>, ys: seq<Op<Pair>>)
    ensures Keyed(xs + ys) == Keyed(xs) + Keyed(ys)
  {
    if ys == [] {
      assert xs + ys == xs;
    } else {
      var n := |ys| - 1;
      assert (xs + ys)[..|xs + ys| - 1] == xs + ys[..n];
      KeyedAppend(xs, ys[..n]);
    }
  }

  /**
    The same for the clients and their string keys: any 63 consecutive
    allocations for a key, to whichever pairs share it, are a permutation of
    1..63.
  */
  lemma {:induction false} ClientWindowIsPermutation(pre: seq<Op<Pair>>, mid: seq<Op<Pair>>, key: string)
    requires NoKeyReset(mid, key)
    requires |ClientAllocated(pre + mid, key)| == |ClientAllocated(pre, key)| + LAST
    ensures IsPermutation(ClientAllocated(pre + mid, key)[|ClientAllocated(pre, key)|..])
  {
    ClientAllocatedIsGiven(pre, key);
    ClientAllocatedIsGiven(pre + mid, key);
    KeyedAppend(pre, mid);
    KeyedNoReset(mid, key);
    GivenWindow(Keyed(pre), Keyed(mid), key);
  }

  lemma CircularWindow(start: nat, given: seq<int>)
    requires |given| == LAST
    requires forall i :: 0 <= i < LAST ==> given[i] == (start + i) % LAST + 1
    ensures IsPermutation(given)
  {
    var r := start % LAST;
    forall i | 0 <= i < LAST ensures given[i] == (if r + i < LAST then r + i else r + i - LAST) + 1 {
      ModShift(start, i);
    }
    forall m | 1 <= m <= LAST ensures m in given {
      var i := if m - 1 >= r then m - 1 - r else m - 1 - r + LAST;
      assert given[i] == m;
    }
  }

  lemma ModShift(start: nat, i: nat)
    requires i < LAST
    ensures (start + i) % LAST == if start % LAST + i < LAST then start % LAST + i else start % LAST + i - LAST
  {
  }
}
