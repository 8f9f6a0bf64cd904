/** The string operations the codecs are built from. */
module Text {
  import opened Common

  /** The Unicode `White_Space` property. */
  predicate IsWhite(c: char) {
    var n := c as int;
    || 0x09 <= n <= 0x0D || n == 0x20 || n == 0x85 || n == 0xA0 || n == 0x1680
    || 0x2000 <= n <= 0x200A || n == 0x2028 || n == 0x2029 || n == 0x202F || n == 0x205F || n == 0x3000
  }

  function TrimStart(s: string): (r: string)
    ensures |r| <= |s|
  {
    if s != [] && IsWhite(s[0]) then TrimStart(s[1..]) else s
  }

  function TrimEnd(s: string): (r: string)
    ensures |r| <= |s|
  {
    if s != [] && IsWhite(s[|s| - 1]) then TrimEnd(s[..|s| - 1]) else s
  }

  lemma {:induction false} TrimStartIs(s: string) returns (lead: string)
    ensures s == lead + TrimStart(s) && AllWhite(lead)
    ensures TrimStart(s) != "" ==> !IsWhite(TrimStart(s)[0])
  {
    if s != [] && IsWhite(s[0]) {
      lead := TrimStartIs(s[1..]);
      lead := [s[0]] + lead;
      assert s == [s[0]] + s[1..];
    } else {
      lead := "";
    }
  }

  lemma {:induction false} TrimEndIs(s: string) returns (trail: string)
    ensures s == TrimEnd(s) + trail && AllWhite(trail)
    ensures TrimEnd(s) != "" ==> !IsWhite(TrimEnd(s)[|TrimEnd(s)| - 1])
  {
    if s != [] && IsWhite(s[|s| - 1]) {
      var init, last := s[..|s| - 1], [s[|s| - 1]];
      var rest := TrimEndIs(init);
      trail := rest + last;
      assert s == init + last;
      Reassociate(TrimEnd(init), rest, last);
    } else {
      trail := "";
    }
  }

  /** Trimming stops at a visible character. */
  lemma {:induction false} TrimEndKeeps(s: string, k: nat)
    requires k < |s| && !IsWhite(s[k])
    ensures k < |TrimEnd(s)|
  {
    if IsWhite(s[|s| - 1]) { TrimEndKeeps(s[..|s| - 1], k); }
  }

  function Trim(s: string): string {
    TrimEnd(TrimStart(s))
  }

  /** No blank at either end. */
  predicate Trimmed(s: string) {
    s == [] || (!IsWhite(s[0]) && !IsWhite(s[|s| - 1]))
  }

  predicate AllWhite(s: string) {
    forall i :: 0 <= i < |s| ==> IsWhite(s[i])
  }

  lemma TrimIsTrimmed(s: string)
    ensures Trimmed(Trim(s))
  {
    var lead, trail := TrimParts(s);
  }

  /** Blanks around a trimmed text are what trimming takes away. */
  lemma TrimPadded(left: string, core: string, right: string)
    requires AllWhite(left) && AllWhite(right) && Trimmed(core)
    ensures Trim(left + (core + right)) == core
  {
    TrimStartPadded(left, core + right);
    TrimAfter(core, right);
  }

  lemma TrimStartPadded(left: string, s: string)
    requires AllWhite(left)
    ensures TrimStart(left + s) == TrimStart(s)
  {
    if left != [] {
      assert (left + s)[1..] == left[1..] + s;
      TrimStartPadded(left[1..], s);
    } else {
      assert left + s == s;
    }
  }

  lemma TrimEndPadded(s: string, right: string)
    requires AllWhite(right) && s != [] && !IsWhite(s[|s| - 1])
    ensures TrimEnd(s + right) == s
  {
    if right != [] {
      var n := |right| - 1;
      assert (s + right)[..|s + right| - 1] == s + right[..n];
      TrimEndPadded(s, right[..n]);
    } else {
      assert s + right == s;
    }
  }

  lemma TrimAfter(core: string, right: string)
    requires AllWhite(right) && Trimmed(core)
    ensures Trim(core + right) == core
  {
    if core == "" {
      TrimStartPadded(right, "");
      assert right + "" == right && "" + right == right;
    } else {
      TrimEndPadded(core, right);
    }
  }

  /** A text around its visible part. */
  lemma TrimParts(s: string) returns (lead: string, trail: string)
    ensures s == lead + (Trim(s) + trail) && AllWhite(lead) && AllWhite(trail)
    ensures Trimmed(Trim(s))
  {
    lead := TrimStartIs(s);
    trail := TrimEndIs(TrimStart(s));
    assert Trim(s) != "" ==> Trim(s)[0] == TrimStart(s)[0];
  }

  lemma TrimShorter(s: string)
    ensures |Trim(s)| <= |s|
  {
  }

  predicate OccursAt(s: string, needle: string, p: nat) {
    p + |needle| <= |s| && s[p..p + |needle|] == needle
  }

  /** Position of the first occurrence. */
  function Find(s: string, needle: string): (r: Option<nat>)
    ensures r.Some? ==> OccursAt(s, needle, r.value) && forall q: nat :: q < r.value ==> !OccursAt(s, needle, q)
    ensures r.None? ==> forall q: nat :: !OccursAt(s, needle, q)
  {
    FindFrom(s, needle, 0)
  }

  function FindFrom(s: string, needle: string, p: nat): (r: Option<nat>)
    requires p <= |s| + 1
    ensures r.Some? ==> p <= r.value && OccursAt(s, needle, r.value)
                        && forall q: nat :: p <= q < r.value ==> !OccursAt(s, needle, q)
    ensures r.None? ==> forall q: nat :: p <= q ==> !OccursAt(s, needle, q)
    decreases |s| + 1 - p
  {
    if p > |s| then None
    else if OccursAt(s, needle, p) then Some(p)
    else FindFrom(s, needle, p + 1)
  }

  lemma FindIs(s: string, needle: string, p: nat)
    requires OccursAt(s, needle, p)
    requires forall q: nat :: q < p ==> !OccursAt(s, needle, q)
    ensures Find(s, needle) == Some(p)
  {
  }

  /** Position of the first `c`. */
  function FindChar(s: string, c: char): (r: Option<nat>)
    ensures r.Some? ==> r.value < |s| && s[r.value] == c && c !in s[..r.value]
    ensures r.None? ==> c !in s
  {
    if s == [] then None
    else if s[0] == c then Some(0)
    else
      match FindChar(s[1..], c)
      case Some(p) => assert s[..p + 1] == [s[0]] + s[1..][..p]; Some(p + 1)
      case None => None
  }

  lemma FindCharIs(head: string, c: char, tail: string)
    requires c !in head
    ensures FindChar(head + [c] + tail, c) == Some(|head|)
  {
    var s := head + [c] + tail;
    if head != [] {
      assert s[1..] == head[1..] + [c] + tail;
      FindCharIs(head[1..], c, tail);
      assert s[0] == head[0];
    }
  }

  lemma Reassociate(a: string, b: string, c: string)
    ensures a + (b + c) == (a + b) + c
  {
  }

  function Glue(head: string, c: char, tail: string): (s: string)
    ensures |s| == |head| + 1 + |tail|
  {
    head + [c] + tail
  }

  /** `split_once`: what stands before and after the first `c`. */
  function SplitOnce(s: string, c: char): Option<(string, string)> {
    match FindChar(s, c)
    case None => None
    case Some(p) => Some((s[..p], s[p + 1..]))
  }

  lemma SplitOnceIs(head: string, c: char, tail: string)
    requires c !in head
    ensures SplitOnce(Glue(head, c, tail), c) == Some((head, tail))
  {
    FindCharIs(head, c, tail);
    var s := head + [c] + tail;
    assert s[..|head|] == head && s[|head| + 1..] == tail;
  }

  /** `splitn`: at most `n` parts; the last one keeps its separators. */
  function SplitN(s: string, c: char, n: nat): (parts: seq<string>)
    requires n > 0
    ensures 0 < |parts| <= n
  {
    if n == 1 then [s]
    else
      match SplitOnce(s, c)
      case None => [s]
      case Some((head, tail)) => [head] + SplitN(tail, c, n - 1)
  }

  /** One bounded split, for the first part. */
  lemma SplitNFirst(head: string, c: char, tail: string, n: nat)
    requires n > 1 && c !in head
    ensures SplitN(Glue(head, c, tail), c, n) == [head] + SplitN(tail, c, n - 1)
  {
    SplitOnceIs(head, c, tail);
  }

  /** Putting the parts back together gives the text. */
  lemma {:induction false} SplitNJoins(s: string, c: char, n: nat)
    requires n > 0
    ensures Join(SplitN(s, c, n), c) == s
  {
    if n > 1 && SplitOnce(s, c).Some? {
      var head, tail := SplitOnce(s, c).value.0, SplitOnce(s, c).value.1;
      SplitNJoins(tail, c, n - 1);
      var rest := SplitN(tail, c, n - 1);
      assert ([head] + rest)[1..] == rest;
      assert s == head + [c] + tail;
    }
  }

  predicate InnerPartsPlain(parts: seq<string>, c: char, n: nat) {
    forall i :: 0 <= i < |parts| && i + 1 < n ==> c !in parts[i]
  }

  /** Only the last of the full number of parts may hold separators. */
  lemma {:induction false} SplitNParts(s: string, c: char, n: nat)
    requires n > 0
    ensures InnerPartsPlain(SplitN(s, c, n), c, n)
  {
    if n > 1 && SplitOnce(s, c).Some? {
      var head, tail := SplitOnce(s, c).value.0, SplitOnce(s, c).value.1;
      SplitNParts(tail, c, n - 1);
      var rest := SplitN(tail, c, n - 1);
      assert InnerPartsPlain(rest, c, n - 1);
      assert SplitN(s, c, n) == [head] + rest;
    }
  }

  function Join(parts: seq<string>, c: char): string
    requires parts != []
  {
    if |parts| == 1 then parts[0] else Glue(parts[0], c, Join(parts[1..], c))
  }

  lemma JoinThree(a: string, b: string, d: string, c: char)
    ensures Join([a, b, d], c) == Glue(a, c, Glue(b, c, d))
  {
    assert [a, b, d][1..] == [b, d] && [b, d][1..] == [d];
    assert Join([d], c) == d;
    assert Join([b, d], c) == Glue(b, c, Join([d], c));
  }

  lemma JoinFour(a: string, b: string, d: string, e: string, c: char)
    ensures Join([a, b, d, e], c) == Glue(a, c, Glue(b, c, Glue(d, c, e)))
  {
    assert [a, b, d, e][1..] == [b, d, e];
    JoinThree(b, d, e, c);
  }

  /** What a text looks like around its first separator. */
  lemma SplitOnceGlues(s: string, c: char)
    ensures SplitOnce(s, c).None? <==> c !in s
    ensures SplitOnce(s, c).Some? ==>
              c !in SplitOnce(s, c).value.0 && s == Glue(SplitOnce(s, c).value.0, c, SplitOnce(s, c).value.1)
  {
  }

  lemma GlueInjective(a: string, b: string, c: char, x: string, y: string)
    requires Glue(a, c, x) == Glue(b, c, y) && |a| == |b|
    ensures a == b && x == y
  {
    assert a == Glue(a, c, x)[..|a|] && b == Glue(b, c, y)[..|b|];
    assert x == Glue(a, c, x)[|a| + 1..] && y == Glue(b, c, y)[|b| + 1..];
  }

  lemma GlueAssociates(a: string, c: char, b: string, d: char, e: string)
    ensures Glue(Glue(a, c, b), d, e) == Glue(a, c, Glue(b, d, e))
  {
  }

  function StripPrefix(s: string, prefix: string): Option<string> {
    if prefix <= s then Some(s[|prefix|..]) else None
  }

  function UpperChar(c: char): char {
    if 'a' <= c <= 'z' then ((c as int) - 32) as char else c
  }

  function AsciiUpper(s: string): string {
    seq(|s|, i requires 0 <= i < |s| => UpperChar(s[i]))
  }
}
