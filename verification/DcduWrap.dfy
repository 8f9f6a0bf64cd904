/**
  Word wrap for the display of the A320 data-link unit: four lines of 24
  characters, filled greedily; words wider than a line are cut into pieces.
*/
module DcduWrap {
  import opened Text
  import opened Words
  import opened Layouts

  const LINES: nat := 4

  // ---------------------------------------------------------------------
  // Pieces of wide words
  // ---------------------------------------------------------------------

  /** A wide word is cut into full lines and what is left. */
  function PiecesOf(word: string): (pieces: seq<string>)
    ensures pieces != []
  {
    if |word| <= WIDTH then [word] else [word[..WIDTH]] + PiecesOf(word[WIDTH..])
  }

  function Pieces(words: seq<string>): seq<string> {
    if words == [] then [] else Pieces(words[..|words| - 1]) + PiecesOf(words[|words| - 1])
  }

  lemma {:induction false} PiecesOfAre(word: string)
    requires IsWord(word)
    ensures AreWords(PiecesOf(word)) && Short(PiecesOf(word)) && InkAll(PiecesOf(word)) == Ink(word)
  {
    if |word| <= WIDTH {
      InkAllOne(word);
    } else {
      var head, tail := word[..WIDTH], word[WIDTH..];
      PiecesOfAre(tail);
      InkAllOne(head);
      InkAllAppend([head], PiecesOf(tail));
      InkAppend(head, tail);
      assert head + tail == word;
    }
  }

  /** The pieces fit a line each and hold the text of the words. */
  lemma {:induction false} PiecesAre(words: seq<string>)
    requires AreWords(words)
    ensures AreWords(Pieces(words)) && Short(Pieces(words)) && InkAll(Pieces(words)) == InkAll(words)
  {
    if words != [] {
      var init, last := words[..|words| - 1], words[|words| - 1];
      PiecesAre(init);
      PiecesOfAre(last);
      InkAllAppend(Pieces(init), PiecesOf(last));
    }
  }

  /** Words that fit a line are left whole. */
  lemma {:induction false} ShortStayWhole(words: seq<string>)
    requires Short(words)
    ensures Pieces(words) == words
  {
    if words != [] { ShortStayWhole(words[..|words| - 1]); }
  }

  lemma {:induction false} PiecesPrefix(words: seq<string>, i: nat)
    requires i <= |words|
    ensures Pieces(words[..i]) <= Pieces(words)
  {
    if i < |words| {
      var init := words[..|words| - 1];
      PiecesPrefix(init, i);
      assert init[..i] == words[..i];
    } else {
      assert words[..i] == words;
    }
  }

  /** Where the pieces of word `i` are. */
  lemma PiecesAt(words: seq<string>, i: nat)
    requires i < |words|
    ensures var p := |Pieces(words[..i])|;
            && p <= |Pieces(words)| && PiecesOf(words[i]) <= Pieces(words)[p..]
            && |Pieces(words[..i + 1])| == p + |PiecesOf(words[i])|
  {
    PiecesPrefix(words, i + 1);
    assert words[..i + 1][..i] == words[..i];
    var now := Pieces(words[..i]) + PiecesOf(words[i]);
    assert now == Pieces(words[..i + 1]);
    assert now[|Pieces(words[..i])|..] == PiecesOf(words[i]);
  }

  // ---------------------------------------------------------------------
  // The page
  // ---------------------------------------------------------------------

  function Spaces(n: nat): string {
    seq(n, _ => ' ')
  }

  /** `{:<24}`: pad on the right, never cut. */
  function Pad(s: string): string {
    s + (if |s| < WIDTH then Spaces(WIDTH - |s|) else "")
  }

  function LineOr(lines: seq<string>, i: nat): string {
    if i < |lines| then lines[i] else ""
  }

  function Page(lines: seq<string>): seq<string> {
    [Pad(LineOr(lines, 0)), Pad(LineOr(lines, 1)), Pad(LineOr(lines, 2)), Pad(LineOr(lines, 3))]
  }

  lemma PageAt(lines: seq<string>, i: nat)
    requires i < LINES
    ensures Page(lines)[i] == Pad(LineOr(lines, i))
  {
    if i == 0 {} else if i == 1 {} else if i == 2 {} else { assert i == 3; }
  }

  /** The page shows groups of words, a line each. */
  predicate ShowsGroups(page: seq<string>, groups: seq<seq<string>>) {
    && |groups| <= LINES && |page| == LINES
    && (forall i: nat :: i < LINES ==> page[i] == Pad(if i < |groups| then Line(groups[i]) else ""))
    && (forall i: nat :: i < LINES ==> |page[i]| == WIDTH)
  }

  /** Full lines, as many as there are words or room for, with `rest` left over. */
  ghost predicate FilledWith(page: seq<string>, groups: seq<seq<string>>, words: seq<string>, rest: seq<string>) {
    && ShowsGroups(page, groups) && Packed(groups, words, rest) && (rest == [] || |groups| == LINES)
    && KeepsMost(words, |words| - |rest|, LINES)
  }

  /** The page shows full lines of the words, as many as possible, and no layout could show more words. */
  ghost predicate ShowsMost(page: seq<string>, words: seq<string>) {
    exists groups, rest :: FilledWith(page, groups, words, rest)
  }

  lemma PackedShowsMost(page: seq<string>, groups: seq<seq<string>>, words: seq<string>, rest: seq<string>)
    requires ShowsGroups(page, groups) && Packed(groups, words, rest) && (rest == [] || |groups| == LINES)
    ensures ShowsMost(page, words)
  {
    PackedKeepsMost(groups, words, rest, LINES);
    assert FilledWith(page, groups, words, rest);
  }

  /** There is one such page only. */
  lemma OnePageShowsMost(page: seq<string>, other: seq<string>, words: seq<string>)
    requires ShowsMost(page, words) && ShowsMost(other, words)
    ensures page == other
  {
    var groups, rest :| FilledWith(page, groups, words, rest);
    var others, otherRest :| FilledWith(other, others, words, otherRest);
    if |groups| <= |others| {
      PackedOnce(groups, others, words, rest, otherRest);
    } else {
      PackedOnce(others, groups, words, otherRest, rest);
    }
    SamePages(page, other, groups);
  }

  lemma SamePages(page: seq<string>, other: seq<string>, groups: seq<seq<string>>)
    requires ShowsGroups(page, groups) && ShowsGroups(other, groups)
    ensures page == other
  {
    forall i: nat | i < LINES ensures page[i] == other[i] {}
  }

  lemma InkOfPad(s: string)
    ensures Ink(Pad(s)) == Ink(s)
  {
    var pad := if |s| < WIDTH then Spaces(WIDTH - |s|) else "";
    InkAppend(s, pad);
    InkOfBlanks(pad);
  }

  lemma {:induction false} InkOfLine(ws: seq<string>)
    ensures Ink(Line(ws)) == InkAll(ws)
  {
    if |ws| == 1 {
      InkAllOne(ws[0]);
      assert ws == [ws[0]];
    } else if ws != [] {
      var init, last := ws[..|ws| - 1], ws[|ws| - 1];
      InkOfLine(init);
      InkAppend(Line(init) + " ", last);
      InkAppend(Line(init), " ");
      InkOfBlanks(" ");
    }
  }

  function InkOfGroups(groups: seq<seq<string>>): string {
    if groups == [] then "" else InkAll(groups[0]) + InkOfGroups(groups[1..])
  }

  lemma {:induction false} GroupsInk(groups: seq<seq<string>>)
    ensures InkOfGroups(groups) == InkAll(Concat(groups))
  {
    if groups != [] {
      GroupsInk(groups[1..]);
      InkAllAppend(groups[0], Concat(groups[1..]));
    }
  }

  /** The lines of the page from `n` on hold the text of the groups from `n` on. */
  lemma {:induction false} InkOfPage(page: seq<string>, groups: seq<seq<string>>, n: nat)
    requires n <= LINES && ShowsGroups(page, groups)
    ensures InkAll(page[n..]) == InkOfGroups(if n <= |groups| then groups[n..] else [])
    decreases LINES - n
  {
    if n < LINES {
      InkOfPage(page, groups, n + 1);
      InkAllFrom(page, n);
      var shown := if n < |groups| then Line(groups[n]) else "";
      assert page[n] == Pad(shown);
      InkOfPad(shown);
      if n < |groups| {
        InkOfLine(groups[n]);
        assert groups[n..][1..] == groups[n + 1..];
      }
    }
  }

  lemma InkAllFrom(page: seq<string>, n: nat)
    requires n < |page|
    ensures InkAll(page[n..]) == Ink(page[n]) + InkAll(page[n + 1..])
  {
    assert page[n..] == [page[n]] + page[n + 1..];
    InkAllAppend([page[n]], page[n + 1..]);
    InkAllOne(page[n]);
  }

  lemma {:induction false} WordsHaveInk(words: seq<string>)
    requires AreWords(words)
    ensures InkAll(words) == "" <==> words == []
  {
    if words != [] { InkOfWord(words[|words| - 1]); }
  }

  /** A page that shows most shows a prefix of the text, and all of it exactly if the words can be laid out. */
  lemma MostInk(page: seq<string>, words: seq<string>)
    requires AreWords(words) && ShowsMost(page, words)
    ensures |page| == LINES && forall i: nat :: i < LINES ==> |page[i]| == WIDTH
    ensures InkAll(page) <= InkAll(words)
    ensures InkAll(page) == InkAll(words) <==> Fits(words, LINES)
  {
    var groups, rest :| FilledWith(page, groups, words, rest);
    PackedIsConcat(groups, words, rest);
    var shown := Concat(groups);
    InkOfPage(page, groups, 0);
    assert page[0..] == page && groups[0..] == groups;
    GroupsInk(groups);
    InkAllAppend(shown, rest);
    RestHasInk(shown, rest);
  }

  lemma RestHasInk(shown: seq<string>, rest: seq<string>)
    requires AreWords(shown + rest)
    ensures InkAll(rest) == "" <==> rest == []
  {
    forall i | 0 <= i < |rest| ensures IsWord(rest[i]) { assert rest[i] == (shown + rest)[|shown| + i]; }
    WordsHaveInk(rest);
  }

  // ---------------------------------------------------------------------
  // The wrap
  // ---------------------------------------------------------------------

  predicate AreLines(lines: seq<string>, groups: seq<seq<string>>) {
    |lines| == |groups| && forall i :: 0 <= i < |lines| ==> lines[i] == Line(groups[i]) && |lines[i]| <= WIDTH
  }

  /** What has become of the first `i` words: full lines, and the line being filled. */
  ghost predicate Layout(words: seq<string>, i: nat, lines: seq<string>, current: string,
                         groups: seq<seq<string>>, start: nat) {
    && start <= i <= |words| && |lines| <= LINES
    && AreLines(lines, groups) && Packed(groups, words, words[start..])
    && current == Line(words[start..i]) && |current| <= WIDTH
  }

  lemma LineEndsVisibly(ws: seq<string>)
    requires ws != [] && AreWords(ws)
    ensures TrimEnd(Line(ws)) == Line(ws) && Line(ws) != ""
  {
    var last := ws[|ws| - 1];
    if |ws| == 1 {
      EndsVisibly("", last);
      assert "" + last == last;
    } else {
      EndsVisibly(Line(ws[..|ws| - 1]) + " ", last);
    }
  }

  lemma EndsVisibly(s: string, word: string)
    requires IsWord(word)
    ensures TrimEnd(s + word) == s + word
  {}

  /** No line under way means that all words taken are on full lines. */
  lemma EmptyCurrent(words: seq<string>, start: nat, i: nat)
    requires AreWords(words) && start <= i <= |words|
    ensures Line(words[start..i]) == "" <==> start == i
    ensures TrimEnd(Line(words[start..i])) == Line(words[start..i])
  {
    if start < i { LineEndsVisibly(words[start..i]); }
  }

  /** The words are laid out like this, whatever the groups. */
  ghost predicate Laid(words: seq<string>, i: nat, lines: seq<string>, current: string) {
    exists groups, start: nat :: Layout(words, i, lines, current, groups, start)
  }

  lemma LaidFirst(words: seq<string>)
    ensures Laid(words, 0, [], "")
  {
    assert words[0..] == words;
    assert Layout(words, 0, [], "", [], 0);
  }

  /** A word starts a line. */
  lemma LaidStart(words: seq<string>, i: nat, next: nat, lines: seq<string>)
    requires AreWords(words) && i < |words| && next == i + 1
    requires |words[i]| <= WIDTH && Laid(words, i, lines, "")
    ensures Laid(words, next, lines, words[i])
  {
    var groups, start: nat :| Layout(words, i, lines, "", groups, start);
    EmptyCurrent(words, start, i);
    LineOfOne(words, i);
    assert Layout(words, next, lines, words[i], groups, start);
  }

  /** A word joins the line under way. */
  lemma LaidExtend(words: seq<string>, i: nat, next: nat, lines: seq<string>, current: string)
    requires AreWords(words) && i < |words| && next == i + 1 && current != "" && Laid(words, i, lines, current)
    requires |current| + 1 + |words[i]| <= WIDTH
    ensures Laid(words, next, lines, current + " " + words[i])
  {
    var groups, start: nat :| Layout(words, i, lines, current, groups, start);
    EmptyCurrent(words, start, i);
    LineGrows(words, start, i);
    assert Layout(words, next, lines, current + " " + words[i], groups, start);
  }

  /** The next word has no room: the line under way is flushed. */
  lemma LaidFlush(words: seq<string>, i: nat, lines: seq<string>, current: string)
    requires AreWords(words) && i < |words| && |lines| < LINES && current != "" && Laid(words, i, lines, current)
    requires |current| + 1 + |words[i]| > WIDTH
    ensures Laid(words, i, lines + [TrimEnd(current)], "")
  {
    var groups, start: nat :| Layout(words, i, lines, current, groups, start);
    EmptyCurrent(words, start, i);
    LayoutFlush(words, i, lines, current, groups, start);
  }

  lemma LayoutFlush(words: seq<string>, i: nat, lines: seq<string>, current: string,
                    groups: seq<seq<string>>, start: nat)
    requires start < i < |words| && |lines| < LINES && Layout(words, i, lines, current, groups, start)
    requires |current| + 1 + |words[i]| > WIDTH
    ensures Laid(words, i, lines + [current], "")
  {
    var rest, group := words[start..], words[start..i];
    FlushedIsFull(words, start, i);
    PackedSnoc(groups, words, rest, group);
    var all := groups + [group];
    assert AreLines(lines + [current], all);
    assert words[i..i] == [];
    assert Layout(words, i, lines + [current], "", all, i);
  }

  lemma FlushedIsFull(words: seq<string>, start: nat, i: nat)
    requires start < i < |words|
    requires |Line(words[start..i])| <= WIDTH < |Line(words[start..i])| + 1 + |words[i]|
    ensures var group, rest := words[start..i], words[start..];
            FullLine(group, rest) && |group| <= |rest| && rest[|group|..] == words[i..]
  {
    var group, rest := words[start..i], words[start..];
    assert rest[..|group|] == group && rest[|group|] == words[i];
  }

  /** A word as wide as a line, with more to come, is a line of its own. */
  lemma LaidHead(words: seq<string>, i: nat, lines: seq<string>)
    requires AreWords(words) && i + 1 < |words| && |lines| < LINES && |words[i]| == WIDTH && Laid(words, i, lines, "")
    ensures Laid(words, i + 1, lines + [words[i]], "")
  {
    LaidStart(words, i, i + 1, lines);
    LaidFlush(words, i + 1, lines, words[i]);
    EmptyCurrent(words, i, i + 1);
    LineOfOne(words, i);
  }

  lemma AreShown(lines: seq<string>, groups: seq<seq<string>>)
    requires |lines| <= LINES && AreLines(lines, groups)
    ensures ShowsGroups(Page(lines), groups)
  {
    forall i: nat | i < LINES
      ensures Page(lines)[i] == Pad(if i < |groups| then Line(groups[i]) else "") && |Page(lines)[i]| == WIDTH
    {
      PageAt(lines, i);
    }
  }

  /** Four full lines and words left over: no layout could have kept them. */
  lemma LaidFull(words: seq<string>, i: nat, lines: seq<string>, current: string)
    requires AreWords(words) && |lines| == LINES && Laid(words, i, lines, current)
    requires current != "" || i < |words|
    ensures ShowsMost(Page(lines), words)
  {
    var groups, start: nat :| Layout(words, i, lines, current, groups, start);
    AreShown(lines, groups);
    PackedShowsMost(Page(lines), groups, words, words[start..]);
  }

  function Flushed(lines: seq<string>, current: string): seq<string> {
    if |lines| < LINES && current != "" then lines + [TrimEnd(current)] else lines
  }

  /** Room for the last line: everything is shown. */
  lemma LaidEnds(words: seq<string>, lines: seq<string>, current: string)
    requires AreWords(words) && |lines| < LINES && Laid(words, |words|, lines, current)
    ensures ShowsMost(Page(Flushed(lines, current)), words)
  {
    var groups, start: nat :| Layout(words, |words|, lines, current, groups, start);
    EmptyCurrent(words, start, |words|);
    if current == "" {
      AreShown(lines, groups);
      PackedShowsMost(Page(lines), groups, words, words[start..]);
    } else {
      LayoutEnds(words, lines, current, groups, start);
    }
  }

  lemma LayoutEnds(words: seq<string>, lines: seq<string>, current: string, groups: seq<seq<string>>, start: nat)
    requires |lines| < LINES && Layout(words, |words|, lines, current, groups, start) && TrimEnd(current) == current
    requires start < |words|
    ensures ShowsMost(Page(lines + [TrimEnd(current)]), words)
  {
    var rest := words[start..];
    assert words[start..|words|] == rest && rest[|rest|..] == [];
    PackedSnoc(groups, words, rest, rest);
    var all := groups + [rest];
    AreShown(lines + [current], all);
    PackedShowsMost(Page(lines + [current]), all, words, []);
  }

  /** Only the first four lines are shown. */
  lemma FifthIsNotShown(lines: seq<string>, line: string)
    requires |lines| == LINES
    ensures Page(lines + [line]) == Page(lines)
  {
    assert forall i: nat :: i < LINES ==> LineOr(lines + [line], i) == LineOr(lines, i);
  }

  /**
    The inner loop: a word wider than a line ends the line under way and is
    cut into full lines, until its rest fits or the page is full. `p` counts
    the pieces before the word, `q` those before its rest.
  */
  method CutLongWord(lines0: seq<string>, current0: string, word0: string, ghost pieces: seq<string>, ghost p: nat)
    returns (lines: seq<string>, current: string, word: string, ghost q: nat)
    requires |lines0| < LINES && AreWords(pieces) && Laid(pieces, p, lines0, current0)
    requires p <= |pieces| && PiecesOf(word0) <= pieces[p..]
    ensures |lines| >= LINES ==> ShowsMost(Page(lines), pieces)
    ensures |lines| < LINES ==> Laid(pieces, q, lines, current)
    ensures |lines| < LINES ==> q < |pieces| && pieces[q] == word && |word| <= WIDTH
    ensures |lines| < LINES ==> q + 1 == p + |PiecesOf(word0)|
  {
    lines, current, word, q := lines0, current0, word0, p;
    while |word| > WIDTH
      invariant |lines| < LINES && Laid(pieces, q, lines, current)
      invariant q <= |pieces| && PiecesOf(word) <= pieces[q..] && q + |PiecesOf(word)| == p + |PiecesOf(word0)|
      decreases |word|
    {
      var head := word[..WIDTH];
      NextPiece(word, pieces, q);
      if current != "" {
        LaidFlush(pieces, q, lines, current);
        lines := lines + [TrimEnd(current)];
        current := "";
      }
      if |lines| < LINES {
        LaidHead(pieces, q, lines);
        if |lines| + 1 == LINES { LaidFull(pieces, q + 1, lines + [head], ""); }
      } else {
        LaidFull(pieces, q, lines, "");
        FifthIsNotShown(lines, head);
      }
      lines := lines + [head];
      word, q := word[WIDTH..], q + 1;
      if |lines| >= LINES {
        return;
      }
    }
  }

  lemma NextPiece(word: string, pieces: seq<string>, q: nat)
    requires q <= |pieces| && |word| > WIDTH && PiecesOf(word) <= pieces[q..]
    ensures q + 1 < |pieces| && pieces[q] == word[..WIDTH]
    ensures PiecesOf(word[WIDTH..]) <= pieces[q + 1..]
  {
    var all := PiecesOf(word);
    assert pieces[q..][0] == all[0] && all[1..] == PiecesOf(word[WIDTH..]);
    assert pieces[q..][..|all|] == all;
    assert pieces[q + 1..][..|all| - 1] == all[1..];
  }

  /** A word or the rest of one joins the line under way, or flushes it and starts the next. */
  method JoinLine(lines0: seq<string>, current0: string, word: string, ghost pieces: seq<string>, ghost q: nat)
    returns (lines: seq<string>, current: string, ghost q': nat)
    requires |lines0| < LINES && AreWords(pieces) && Laid(pieces, q, lines0, current0)
    requires q < |pieces| && pieces[q] == word && |word| <= WIDTH
    ensures |lines| >= LINES ==> ShowsMost(Page(lines), pieces)
    ensures |lines| < LINES ==> Laid(pieces, q', lines, current) && q' == q + 1
  {
    lines, current, q' := lines0, current0, q + 1;
    var candidate := if current == "" then |word| else |current| + 1 + |word|;
    assert IsWord(pieces[q]);
    if candidate > WIDTH {
      LaidFlush(pieces, q, lines, current);
      lines := lines + [TrimEnd(current)];
      LaidStart(pieces, q, q', lines);
      current := word;
      if |lines| >= LINES { LaidFull(pieces, q', lines, current); }
    } else {
      if current != "" {
        LaidExtend(pieces, q, q', lines, current);
        current := current + " ";
      } else {
        LaidStart(pieces, q, q', lines);
        assert current + word == word;
      }
      current := current + word;
    }
  }

  /** The outer loop's body: one word goes on the line under way or starts the next. */
  method PlaceWord(lines0: seq<string>, current0: string, word0: string, ghost pieces: seq<string>, ghost p: nat)
    returns (lines: seq<string>, current: string, ghost q: nat)
    requires |lines0| < LINES && AreWords(pieces) && Laid(pieces, p, lines0, current0)
    requires p <= |pieces| && PiecesOf(word0) <= pieces[p..]
    ensures |lines| >= LINES ==> ShowsMost(Page(lines), pieces)
    ensures |lines| < LINES ==> Laid(pieces, q, lines, current) && q == p + |PiecesOf(word0)|
  {
    var word: string;
    lines, current, word, q := CutLongWord(lines0, current0, word0, pieces, p);
    if |lines| < LINES {
      lines, current, q := JoinLine(lines, current, word, pieces, q);
    }
  }

  /** The first `i` words are placed: the page is full, or they are laid out. */
  ghost predicate Placed(words: seq<string>, i: nat, p: nat, lines: seq<string>, current: string) {
    && i <= |words| && (|lines| < LINES ==> p == |Pieces(words[..i])|)
    && if |lines| >= LINES then ShowsMost(Page(lines), Pieces(words)) else Laid(Pieces(words), p, lines, current)
  }

  /** The words of the text in upper case, wide ones in pieces. */
  function Shown(text: string, up: CharCasing): seq<string> {
    Pieces(RaisedAll(SplitWords(text), up))
  }

  lemma ShownAreWords(text: string, up: CharCasing)
    requires KeepsVisible(up)
    ensures AreWords(Shown(text, up)) && Short(Shown(text, up))
  {
    RaisedAreWords(SplitWords(text), up);
    PiecesAre(RaisedAll(SplitWords(text), up));
  }

  /** The words and pieces hold the visible text of the input. */
  lemma TextOfShown(text: string, up: CharCasing)
    requires KeepsVisible(up)
    ensures InkAll(Shown(text, up)) == Raised(Ink(text), up)
  {
    var raw := SplitWords(text);
    RaisedAreWords(raw, up);
    PiecesAre(RaisedAll(raw, up));
    RaisedKeepsInk(raw, up);
    SplitKeepsInk(text);
  }

  lemma ShownInk(page: seq<string>, text: string, up: CharCasing)
    requires KeepsVisible(up) && ShowsMost(page, Shown(text, up))
    ensures |page| == LINES && forall i: nat :: i < LINES ==> |page[i]| == WIDTH
    ensures InkAll(page) <= Raised(Ink(text), up)
    ensures InkAll(page) == Raised(Ink(text), up) <==> Fits(Shown(text, up), LINES)
  {
    ShownAreWords(text, up);
    MostInk(page, Shown(text, up));
    TextOfShown(text, up);
  }

  /** All words are placed or the page is full, and the last line is flushed if there is room. */
  lemma WrapEnds(text: string, up: CharCasing, i: nat, p: nat, lines: seq<string>, current: string)
    requires KeepsVisible(up) && Placed(RaisedAll(SplitWords(text), up), i, p, lines, current)
    requires |lines| < LINES ==> i == |SplitWords(text)|
    ensures var page := Page(Flushed(lines, current));
            && ShowsMost(page, Shown(text, up))
            && (forall k: nat :: k < LINES ==> |page[k]| == WIDTH)
            && InkAll(page) <= Raised(Ink(text), up)
            && (InkAll(page) == Raised(Ink(text), up) <==> Fits(Shown(text, up), LINES))
  {
    var words := RaisedAll(SplitWords(text), up);
    ShownAreWords(text, up);
    if |lines| < LINES {
      assert words[..i] == words;
      LaidEnds(Shown(text, up), lines, current);
    }
    ShownInk(Page(Flushed(lines, current)), text, up);
  }

  /**
    Always four lines of exactly 24 characters: groups of the words of the
    text, separated by single blanks, wide words in pieces. The visible text is
    a prefix of the input's in upper case, and all of it if and only if the
    words and pieces can be laid out on four lines at all.
  */
  method DcduWrap(text: string, up: CharCasing) returns (page: seq<string>)
    requires KeepsVisible(up)
    ensures |page| == 4 && forall i :: 0 <= i < 4 ==> |page[i]| == 24
    ensures ShowsMost(page, Shown(text, up))
    ensures InkAll(page) <= Raised(Ink(text), up)
    ensures InkAll(page) == Raised(Ink(text), up) <==> Fits(Shown(text, up), LINES)
  {
    var raw := SplitWords(text);
    ghost var words := RaisedAll(raw, up);
    ShownAreWords(text, up);
    NothingPlaced(words);
    var lines: seq<string> := [];
    var current := "";
    ghost var p := 0;
    var i := 0;
    while i < |raw| && |lines| < LINES
      invariant i <= |raw| && Placed(words, i, p, lines, current)
    {
      PiecesAt(words, i);
      lines, current, p := PlaceWord(lines, current, Raised(raw[i], up), Pieces(words), p);
      i := i + 1;
    }
    WrapEnds(text, up, i, p, lines, current);
    if |lines| < LINES && current != "" {
      lines := lines + [TrimEnd(current)];
    }
    page := Page(lines);
  }

  lemma NothingPlaced(words: seq<string>)
    ensures Placed(words, 0, 0, [], "")
  {
    assert words[..0] == [];
    LaidFirst(Pieces(words));
  }
}
