/** Laying out words on lines: whether they fit at all, and full lines, which are as good as any layout. */
module Layouts {
  const WIDTH: nat := 24

  // ---------------------------------------------------------------------
  // Lines of words
  // ---------------------------------------------------------------------

  /** Words separated by single blanks. */
  function Line(ws: seq<string>): string {
    if ws == [] then ""
    else if |ws| == 1 then ws[0]
    else Line(ws[..|ws| - 1]) + " " + ws[|ws| - 1]
  }

  /** No word is wider than a line. */
  predicate Short(words: seq<string>) {
    forall i :: 0 <= i < |words| ==> |words[i]| <= WIDTH
  }

  /** The words can be laid out, in order, on `n` lines. */
  ghost predicate Fits(words: seq<string>, n: nat) {
    words == [] || (n > 0 && exists k: nat :: 0 < k <= |words| && LineFits(words, k) && Fits(words[k..], n - 1))
  }

  predicate LineFits(words: seq<string>, k: nat)
    requires k <= |words|
  {
    |Line(words[..k])| <= WIDTH
  }

  lemma LineSnoc(ws: seq<string>, w: string)
    requires ws != []
    ensures Line(ws + [w]) == Line(ws) + " " + w
  {
    assert (ws + [w])[..|ws|] == ws;
  }

  lemma {:induction false} LongerLine(words: seq<string>, k: nat, m: nat)
    requires k <= m <= |words|
    ensures |Line(words[..k])| <= |Line(words[..m])|
  {
    if k < m {
      LongerLine(words, k, m - 1);
      assert words[..m] == words[..m - 1] + [words[m - 1]];
      if m > 1 { LineSnoc(words[..m - 1], words[m - 1]); }
    }
  }

  lemma {:induction false} ShorterWithoutFirst(ws: seq<string>)
    requires ws != []
    ensures |Line(ws[1..])| <= |Line(ws)|
  {
    if |ws| > 1 {
      var n := |ws| - 1;
      ShorterWithoutFirst(ws[..n]);
      assert ws[..n][1..] == ws[1..][..n - 1];
    }
  }

  lemma FitsMore(words: seq<string>, n: nat)
    requires Fits(words, n)
    ensures Fits(words, n + 1)
    decreases n
  {
    if words != [] {
      var k: nat :| 0 < k <= |words| && LineFits(words, k) && Fits(words[k..], n - 1);
      FitsMore(words[k..], n - 1);
    }
  }

  /** Fewer words still fit. */
  lemma {:induction false} FitsDropOne(words: seq<string>, n: nat)
    requires words != [] && Fits(words, n)
    ensures Fits(words[1..], n)
  {
    var k: nat :| 0 < k <= |words| && LineFits(words, k) && Fits(words[k..], n - 1);
    if k == 1 {
      FitsMore(words[1..], n - 1);
    } else {
      var rest := words[1..];
      ShorterWithoutFirst(words[..k]);
      assert rest[..k - 1] == words[..k][1..];
      assert rest[k - 1..] == words[k..];
      assert LineFits(rest, k - 1);
    }
  }

  lemma {:induction false} FitsDrop(words: seq<string>, k: nat, n: nat)
    requires k <= |words| && Fits(words, n)
    ensures Fits(words[k..], n)
  {
    if k == 0 {
      assert words[0..] == words;
    } else {
      FitsDrop(words, k - 1, n);
      FitsDropOne(words[k - 1..], n);
      assert words[k - 1..][1..] == words[k..];
    }
  }

  lemma FitsFrom(words: seq<string>, k: nat, n: nat)
    requires 0 < k <= |words| && n > 0 && LineFits(words, k) && Fits(words[k..], n - 1)
    ensures Fits(words, n)
  {}

  /** Whatever layout there is, one that starts with the longest line is there too. */
  lemma {:induction false} LongestLineFits(words: seq<string>, k: nat, n: nat)
    requires 0 < k < |words| && n > 0 && !LineFits(words, k + 1) && Fits(words, n)
    ensures Fits(words[k..], n - 1)
  {
    var m: nat :| 0 < m <= |words| && LineFits(words, m) && Fits(words[m..], n - 1);
    assert m <= k by { if m > k { LongerLine(words, k + 1, m); } }
    var rest := words[m..];
    FitsDrop(rest, k - m, n - 1);
    assert rest[k - m..] == words[k..];
  }

  /** Greedy is optimal: taking as many words as a line holds loses nothing. */
  lemma {:induction false} GreedyIsOptimal(words: seq<string>, k: nat, n: nat)
    requires 0 < k < |words| && n > 0
    requires LineFits(words, k) && !LineFits(words, k + 1)
    ensures Fits(words, n) <==> Fits(words[k..], n - 1)
  {
    if Fits(words, n) { LongestLineFits(words, k, n); }
    if Fits(words[k..], n - 1) { FitsFrom(words, k, n); }
  }

  // ---------------------------------------------------------------------
  // Full lines
  // ---------------------------------------------------------------------

  lemma LineOfOne(words: seq<string>, i: nat)
    requires i < |words|
    ensures Line(words[i..i + 1]) == words[i]
  {}

  lemma LineGrows(words: seq<string>, start: nat, i: nat)
    requires start < i < |words|
    ensures Line(words[start..i + 1]) == Line(words[start..i]) + " " + words[i]
  {
    assert words[start..i + 1] == words[start..i] + [words[i]];
    LineSnoc(words[start..i], words[i]);
  }

  /** A line of the first words that cannot take the next one. */
  predicate FullLine(group: seq<string>, words: seq<string>) {
    && 0 < |group| <= |words| && words[..|group|] == group && |Line(group)| <= WIDTH
    && (|group| < |words| ==> |Line(group)| + 1 + |words[|group|]| > WIDTH)
  }

  /** Full lines, one after the other, with `rest` left over. */
  predicate Packed(groups: seq<seq<string>>, words: seq<string>, rest: seq<string>) {
    if groups == [] then rest == words
    else FullLine(groups[0], words) && Packed(groups[1..], words[|groups[0]|..], rest)
  }

  function Concat(groups: seq<seq<string>>): seq<string> {
    if groups == [] then [] else groups[0] + Concat(groups[1..])
  }

  lemma {:induction false} PackedIsConcat(groups: seq<seq<string>>, words: seq<string>, rest: seq<string>)
    requires Packed(groups, words, rest)
    ensures words == Concat(groups) + rest
  {
    if groups != [] {
      var after := words[|groups[0]|..];
      PackedIsConcat(groups[1..], after, rest);
      assert words == groups[0] + after;
    }
  }

  lemma {:induction false} PackedSnoc(groups: seq<seq<string>>, words: seq<string>, rest: seq<string>,
                                      group: seq<string>)
    requires Packed(groups, words, rest) && FullLine(group, rest)
    ensures Packed(groups + [group], words, rest[|group|..])
  {
    var all := groups + [group];
    if groups == [] {
      assert all[1..] == [];
    } else {
      PackedSnoc(groups[1..], words[|groups[0]|..], rest, group);
      assert all[1..] == groups[1..] + [group];
    }
  }

  lemma NextIsTooMuch(group: seq<string>, words: seq<string>)
    requires FullLine(group, words) && |group| < |words|
    ensures !LineFits(words, |group| + 1)
  {
    LineGrows(words, 0, |group|);
    assert words[0..|group|] == group && words[0..|group| + 1] == words[..|group| + 1];
  }

  /** A full line is as good a beginning as any. */
  lemma {:induction false} FullLineIsGreedy(group: seq<string>, words: seq<string>, n: nat)
    requires FullLine(group, words) && |group| < |words| && n > 0
    ensures Fits(words, n) <==> Fits(words[|group|..], n - 1)
  {
    NextIsTooMuch(group, words);
    GreedyIsOptimal(words, |group|, n);
  }

  /** Behind full lines, what is left over decides. */
  lemma {:induction false} PackedFitsIff(groups: seq<seq<string>>, words: seq<string>, rest: seq<string>, n: nat)
    requires Packed(groups, words, rest) && rest != [] && |groups| <= n
    ensures Fits(words, n) <==> Fits(rest, n - |groups|)
  {
    if groups != [] {
      var after := words[|groups[0]|..];
      PackedIsConcat(groups[1..], after, rest);
      PackedFitsIff(groups[1..], after, rest, n - 1);
      FullLineIsGreedy(groups[0], words, n);
    }
  }

  lemma {:induction false} AllPackedFits(groups: seq<seq<string>>, words: seq<string>, n: nat)
    requires Packed(groups, words, []) && |groups| <= n
    ensures Fits(words, n)
  {
    if groups != [] {
      AllPackedFits(groups[1..], words[|groups[0]|..], n - 1);
      FitsFrom(words, |groups[0]|, n);
    }
  }

  /** Full lines stay full when the text ends later than they do. */
  lemma {:induction false} PackedCut(groups: seq<seq<string>>, words: seq<string>, rest: seq<string>, j: nat)
    requires Packed(groups, words, rest) && 0 < j <= |rest| && |rest| <= |words|
    ensures Packed(groups, words[..|words| - |rest| + j], rest[..j])
  {
    if groups != [] {
      var head := |groups[0]|;
      var after, shorter := words[head..], words[..|words| - |rest| + j];
      PackedIsConcat(groups[1..], after, rest);
      PackedCut(groups[1..], after, rest, j);
      assert shorter[..head] == words[..head] && shorter[head..] == after[..|after| - |rest| + j];
    }
  }

  /** No layout on `n` lines keeps more than the first `kept` words, and all are kept if there is one for all. */
  ghost predicate KeepsMost(words: seq<string>, kept: int, n: nat) {
    && (forall k: nat :: k <= |words| && Fits(words[..k], n) ==> k <= kept)
    && (kept == |words| <==> Fits(words, n))
  }

  /** Full lines, as many as there may be, keep most. */
  lemma {:induction false} PackedKeepsMost(groups: seq<seq<string>>, words: seq<string>, rest: seq<string>, n: nat)
    requires Packed(groups, words, rest) && |groups| <= n && (rest == [] || |groups| == n)
    ensures KeepsMost(words, |words| - |rest|, n)
  {
    PackedIsConcat(groups, words, rest);
    var kept := |words| - |rest|;
    forall k: nat | k <= |words| && k > kept ensures !Fits(words[..k], n) {
      PackedCut(groups, words, rest, k - kept);
      PackedFitsIff(groups, words[..k], rest[..k - kept], n);
    }
    if rest == [] { AllPackedFits(groups, words, n); }
    assert words[..|words|] == words;
  }

  /** A full line is not the start of another one. */
  lemma NoLongerLine(group: seq<string>, other: seq<string>, words: seq<string>)
    requires FullLine(group, words) && FullLine(other, words)
    ensures |other| <= |group|
  {
    if |other| > |group| {
      NextIsTooMuch(group, words);
      LongerLine(words, |group| + 1, |other|);
    }
  }

  /** There is one way only to fill lines. */
  lemma {:induction false} PackedOnce(groups: seq<seq<string>>, others: seq<seq<string>>, words: seq<string>,
                                      rest: seq<string>, otherRest: seq<string>)
    requires Packed(groups, words, rest) && Packed(others, words, otherRest)
    requires |groups| == |others| || (|groups| < |others| && rest == [])
    ensures groups == others && rest == otherRest
  {
    if groups != [] {
      var group, other := groups[0], others[0];
      NoLongerLine(group, other, words);
      NoLongerLine(other, group, words);
      assert group == other;
      PackedOnce(groups[1..], others[1..], words[|group|..], rest, otherRest);
      assert groups == [group] + groups[1..] && others == [other] + others[1..];
    }
  }
}
