/** The words of a text, its visible characters, and the change of case of both. */
module Words {
  import opened Text

  // ---------------------------------------------------------------------
  // Splitting at blanks
  // ---------------------------------------------------------------------

  predicate NoBlanks(s: string) {
    forall i :: 0 <= i < |s| ==> !IsWhite(s[i])
  }

  predicate IsWord(s: string) {
    s != "" && NoBlanks(s)
  }

  predicate AreWords(ws: seq<string>) {
    forall i :: 0 <= i < |ws| ==> IsWord(ws[i])
  }

  /** The length of the longest prefix without blanks. */
  function WordLength(s: string): (n: nat)
    ensures n <= |s| && NoBlanks(s[..n])
    ensures n < |s| ==> IsWhite(s[n])
  {
    if s == "" || IsWhite(s[0]) then 0
    else
      var n := WordLength(s[1..]);
      assert s[..n + 1] == [s[0]] + s[1..][..n];
      n + 1
  }

  /** `split_whitespace`. */
  function SplitWords(s: string): (words: seq<string>)
    ensures AreWords(words)
  {
    if s == "" then []
    else if IsWhite(s[0]) then SplitWords(s[1..])
    else [s[..WordLength(s)]] + SplitWords(s[WordLength(s)..])
  }

  /** Words with a gap before each and one after the last. */
  function Woven(gaps: seq<string>, words: seq<string>): string
    requires |gaps| == |words| + 1
  {
    if words == [] then gaps[0] else gaps[0] + (words[0] + Woven(gaps[1..], words[1..]))
  }

  /** Gaps are blanks, and there is one between any two words. */
  predicate Separates(gaps: seq<string>) {
    && (forall i :: 0 <= i < |gaps| ==> AllWhite(gaps[i]))
    && (forall i :: 0 < i < |gaps| - 1 ==> gaps[i] != "")
  }

  lemma {:induction false} SplitSkips(gap: string, s: string)
    requires AllWhite(gap)
    ensures SplitWords(gap + s) == SplitWords(s)
  {
    if gap == "" {
      assert gap + s == s;
    } else {
      assert (gap + s)[1..] == gap[1..] + s;
      SplitSkips(gap[1..], s);
    }
  }

  lemma {:induction false} WordLengthIs(word: string, rest: string)
    requires NoBlanks(word) && (rest == "" || IsWhite(rest[0]))
    ensures WordLength(word + rest) == |word|
  {
    if word == "" {
      assert word + rest == rest;
    } else {
      assert (word + rest)[1..] == word[1..] + rest;
      WordLengthIs(word[1..], rest);
    }
  }

  lemma SplitFirst(word: string, rest: string)
    requires IsWord(word) && (rest == "" || IsWhite(rest[0]))
    ensures SplitWords(word + rest) == [word] + SplitWords(rest)
  {
    WordLengthIs(word, rest);
    assert (word + rest)[..|word|] == word && (word + rest)[|word|..] == rest;
  }

  lemma SeparatesRest(gaps: seq<string>)
    requires gaps != [] && Separates(gaps)
    ensures Separates(gaps[1..])
  {
    var rest := gaps[1..];
    forall i | 0 < i < |rest| - 1 ensures rest[i] != "" { assert rest[i] == gaps[i + 1]; }
  }

  /** Any words in any gaps are split into those words. */
  lemma {:induction false} WovenSplits(gaps: seq<string>, words: seq<string>)
    requires |gaps| == |words| + 1 && AreWords(words) && Separates(gaps)
    ensures SplitWords(Woven(gaps, words)) == words
  {
    if words == [] {
      SplitSkips(gaps[0], "");
      assert gaps[0] + "" == gaps[0];
    } else {
      var rest := Woven(gaps[1..], words[1..]);
      SeparatesRest(gaps);
      WovenSplits(gaps[1..], words[1..]);
      SplitSkips(gaps[0], words[0] + rest);
      assert rest == "" || IsWhite(rest[0]) by { if |words| > 1 { assert gaps[1] != ""; } }
      SplitFirst(words[0], rest);
      assert words == [words[0]] + words[1..];
    }
  }

  /** A text is its words in gaps. */
  lemma {:induction false} SplitIsWoven(s: string) returns (gaps: seq<string>)
    ensures |gaps| == |SplitWords(s)| + 1 && Separates(gaps) && Woven(gaps, SplitWords(s)) == s
  {
    if s == "" {
      gaps := [""];
    } else if IsWhite(s[0]) {
      var rest := SplitIsWoven(s[1..]);
      gaps := [[s[0]] + rest[0]] + rest[1..];
      WidenFirst(s[0], rest, SplitWords(s));
    } else {
      var n := WordLength(s);
      var word, after := s[..n], s[n..];
      var rest := SplitIsWoven(after);
      gaps := [""] + rest;
      FirstGap(rest, SplitWords(after));
      assert gaps[1..] == rest && SplitWords(s)[1..] == SplitWords(after);
      assert "" + (word + after) == s;
    }
  }

  lemma WidenFirst(c: char, gaps: seq<string>, words: seq<string>)
    requires |gaps| == |words| + 1 && Separates(gaps) && IsWhite(c)
    ensures var wider := [[c] + gaps[0]] + gaps[1..];
            Separates(wider) && Woven(wider, words) == [c] + Woven(gaps, words)
  {
    var wider := [[c] + gaps[0]] + gaps[1..];
    assert wider[1..] == gaps[1..];
    if words != [] {
      Reassociate([c], gaps[0], words[0] + Woven(gaps[1..], words[1..]));
    }
  }

  /** What follows a word begins with a gap. */
  lemma FirstGap(gaps: seq<string>, words: seq<string>)
    requires |gaps| == |words| + 1 && Separates(gaps) && AreWords(words)
    requires Woven(gaps, words) == "" || IsWhite(Woven(gaps, words)[0])
    ensures Separates([""] + gaps)
  {
    if words != [] {
      assert IsWord(words[0]);
      assert gaps[0] != "";
    }
  }

  // ---------------------------------------------------------------------
  // Ink
  // ---------------------------------------------------------------------

  /** The visible characters of a text. */
  function Ink(s: string): string {
    if s == "" then "" else (if IsWhite(s[0]) then "" else [s[0]]) + Ink(s[1..])
  }

  function InkAll(ss: seq<string>): string {
    if ss == [] then "" else InkAll(ss[..|ss| - 1]) + Ink(ss[|ss| - 1])
  }

  lemma {:induction false} InkAppend(a: string, b: string)
    ensures Ink(a + b) == Ink(a) + Ink(b)
  {
    if a == "" {
      assert a + b == b;
    } else {
      assert (a + b)[1..] == a[1..] + b;
      InkAppend(a[1..], b);
    }
  }

  lemma {:induction false} InkOfBlanks(s: string)
    requires AllWhite(s)
    ensures Ink(s) == ""
  {
    if s != "" { InkOfBlanks(s[1..]); }
  }

  lemma {:induction false} InkOfWord(s: string)
    requires NoBlanks(s)
    ensures Ink(s) == s
  {
    if s != "" { InkOfWord(s[1..]); }
  }

  lemma {:induction false} InkAllAppend(xs: seq<string>, ys: seq<string>)
    ensures InkAll(xs + ys) == InkAll(xs) + InkAll(ys)
  {
    if ys == [] {
      assert xs + ys == xs;
    } else {
      var n := |ys| - 1;
      assert (xs + ys)[..|xs + ys| - 1] == xs + ys[..n];
      InkAllAppend(xs, ys[..n]);
      Reassociate(InkAll(xs), InkAll(ys[..n]), Ink(ys[n]));
    }
  }

  lemma InkAllOne(s: string)
    ensures InkAll([s]) == Ink(s)
  {
    assert [s][..0] == [];
  }

  /** The words hold the visible characters of the text, all of them, in order. */
  lemma {:induction false} SplitKeepsInk(s: string)
    ensures InkAll(SplitWords(s)) == Ink(s)
  {
    if s != "" {
      if IsWhite(s[0]) {
        SplitKeepsInk(s[1..]);
      } else {
        var n := WordLength(s);
        SplitKeepsInk(s[n..]);
        InkAllAppend([s[..n]], SplitWords(s[n..]));
        InkAllOne(s[..n]);
        InkAppend(s[..n], s[n..]);
        assert s[..n] + s[n..] == s;
      }
    }
  }

  // ---------------------------------------------------------------------
  // Upper case
  // ---------------------------------------------------------------------

  /** Upper case of one character, possibly several characters. */
  type CharCasing = char -> string

  function Raised(s: string, up: CharCasing): string {
    if s == "" then "" else up(s[0]) + Raised(s[1..], up)
  }

  function RaisedAll(words: seq<string>, up: CharCasing): seq<string> {
    seq(|words|, i requires 0 <= i < |words| => Raised(words[i], up))
  }

  /** A visible character stays visible. */
  ghost predicate KeepsVisible(up: CharCasing) {
    forall c: char :: !IsWhite(c) ==> IsWord(up(c))
  }

  lemma {:induction false} RaisedAppend(a: string, b: string, up: CharCasing)
    ensures Raised(a + b, up) == Raised(a, up) + Raised(b, up)
  {
    if a == "" {
      assert a + b == b;
    } else {
      assert (a + b)[1..] == a[1..] + b;
      RaisedAppend(a[1..], b, up);
      Reassociate(up(a[0]), Raised(a[1..], up), Raised(b, up));
    }
  }

  lemma {:induction false} RaisedIsWord(w: string, up: CharCasing)
    requires KeepsVisible(up) && NoBlanks(w)
    ensures NoBlanks(Raised(w, up)) && (w != "" ==> Raised(w, up) != "")
  {
    if w != "" {
      assert IsWord(up(w[0]));
      RaisedIsWord(w[1..], up);
    }
  }

  lemma RaisedAreWords(words: seq<string>, up: CharCasing)
    requires KeepsVisible(up) && AreWords(words)
    ensures AreWords(RaisedAll(words, up))
  {
    forall i | 0 <= i < |words| ensures IsWord(RaisedAll(words, up)[i]) { RaisedIsWord(words[i], up); }
  }

  /** Upper-casing the words is upper-casing the visible text. */
  lemma {:induction false} RaisedKeepsInk(words: seq<string>, up: CharCasing)
    requires KeepsVisible(up) && AreWords(words)
    ensures InkAll(RaisedAll(words, up)) == Raised(InkAll(words), up)
  {
    if words != [] {
      var init, last := words[..|words| - 1], words[|words| - 1];
      assert RaisedAll(words, up)[..|words| - 1] == RaisedAll(init, up);
      RaisedKeepsInk(init, up);
      InkOfWord(last);
      RaisedIsWord(last, up);
      InkOfWord(Raised(last, up));
      RaisedAppend(InkAll(init), last, up);
    }
  }
}
