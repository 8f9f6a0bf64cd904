/**
  Message templates: filling the placeholders of a template, and getting the
  values back from a rendered text by looking for the static parts.
*/
module Templates {
  import opened Common
  import opened Text

  // ---------------------------------------------------------------------
  // Splitting and rendering
  // ---------------------------------------------------------------------

  /** The first placeholder of a text: none, one that is never closed, or one between `pre` and `rest`. */
  datatype Hole = NoHole | Unclosed(pre: string) | Hole(pre: string, rest: string)

  function NextHole(t: string): (h: Hole)
    ensures h.Hole? ==> |h.rest| < |t|
  {
    match FindChar(t, '[')
    case None => NoHole
    case Some(start) =>
      match FindChar(t[start..], ']')
      case None => Unclosed(t[..start])
      case Some(end) => Hole(t[..start], t[start..][end + 1..])
  }

  /** The static parts; an opening bracket without a closing one ends the template. */
  function SplitTemplate(t: string): (segs: seq<string>)
    ensures segs != []
  {
    match NextHole(t)
    case NoHole => [t]
    case Unclosed(pre) => [pre]
    case Hole(pre, rest) => [pre] + SplitTemplate(rest)
  }

  method Split(template: string) returns (segments: seq<string>)
    ensures segments == SplitTemplate(template)
  {
    segments := [];
    var remaining := template;
    while true
      invariant segments + SplitTemplate(remaining) == SplitTemplate(template)
      decreases |remaining|
    {
      var hole := NextHole(remaining);
      if hole.NoHole? {
        segments := segments + [remaining];
        break;
      }
      ghost var more := if hole.Unclosed? then [] else SplitTemplate(hole.rest);
      assert SplitTemplate(remaining) == [hole.pre] + more;
      Regroup(segments, hole.pre, more);
      segments := segments + [hole.pre];
      if hole.Unclosed? {
        break;
      }
      remaining := hole.rest;
    }
  }

  /** Replace the first bracketed placeholder, if there is one. */
  function RenderOne(text: string, value: string): string {
    match NextHole(text)
    case Hole(pre, rest) => pre + (value + rest)
    case _ => text
  }

  function Rendered(text: string, values: seq<string>): string
    decreases |values|
  {
    if values == [] then text else Rendered(RenderOne(text, values[0]), values[1..])
  }

  method Render(template: string, values: seq<string>) returns (text: string)
    ensures text == Rendered(template, values)
  {
    text := template;
    for i := 0 to |values|
      invariant Rendered(text, values[i..]) == Rendered(template, values)
    {
      assert values[i..][1..] == values[i + 1..];
      var hole := NextHole(text);
      if hole.Hole? {
        text := hole.pre + (values[i] + hole.rest);
      }
    }
  }

  /** A template with static parts `segs` and placeholder names `names` between them. */
  function Build(segs: seq<string>, names: seq<string>): string
    requires |segs| == |names| + 1
  {
    if names == [] then segs[0]
    else segs[0] + ("[" + names[0] + "]" + Build(segs[1..], names[1..]))
  }

  /** The template with its first placeholders filled; surplus values are ignored. */
  function Filled(segs: seq<string>, names: seq<string>, values: seq<string>): string
    requires |segs| == |names| + 1
  {
    if names == [] then segs[0]
    else if values == [] then Build(segs, names)
    else segs[0] + (values[0] + Filled(segs[1..], names[1..], values[1..]))
  }

  predicate WellBracketed(segs: seq<string>, names: seq<string>) {
    && |segs| == |names| + 1
    && (forall i :: 0 <= i < |segs| ==> '[' !in segs[i])
    && (forall i :: 0 <= i < |names| ==> ']' !in names[i])
  }

  lemma Placeholder(pre: string, name: string, rest: string)
    requires '[' !in pre && ']' !in name
    ensures NextHole(pre + ("[" + name + "]" + rest)) == Hole(pre, rest)
  {
    var open := "[" + name;
    var t := pre + (open + "]" + rest);
    FindCharIs(pre, '[', name + "]" + rest);
    assert t == pre + ['['] + (name + "]" + rest);
    assert t[..|pre|] == pre;
    FindCharIs(open, ']', rest);
    assert t[|pre|..] == open + [']'] + rest;
    assert t[|pre|..][|open| + 1..] == rest;
  }

  lemma SplitHole(text: string, pre: string, rest: string)
    requires NextHole(text) == Hole(pre, rest)
    ensures SplitTemplate(text) == [pre] + SplitTemplate(rest)
  {}

  lemma SplitPlain(text: string)
    requires '[' !in text
    ensures SplitTemplate(text) == [text]
  {}

  /** Splitting a well-bracketed template gives its static parts. */
  lemma {:induction false} SplitBuild(segs: seq<string>, names: seq<string>)
    requires WellBracketed(segs, names)
    ensures SplitTemplate(Build(segs, names)) == segs
  {
    if names == [] {
      assert segs == [segs[0]];
      SplitPlain(segs[0]);
    } else {
      var rest := Build(segs[1..], names[1..]);
      SplitBuild(segs[1..], names[1..]);
      assert NextHole(Build(segs, names)) == Hole(segs[0], rest) by { Placeholder(segs[0], names[0], rest); }
      SplitHole(Build(segs, names), segs[0], rest);
      assert segs == [segs[0]] + segs[1..];
    }
  }

  /** The same with an opening bracket at the end that is never closed. */
  function BuildOpen(segs: seq<string>, names: seq<string>, open: string): string
    requires |segs| == |names| + 1
  {
    if names == [] then segs[0] + ("[" + open)
    else segs[0] + ("[" + names[0] + "]" + BuildOpen(segs[1..], names[1..], open))
  }

  /** A bracket that is never closed ends the static parts, and what follows it is no part at all. */
  lemma {:induction false} SplitUnclosed(segs: seq<string>, names: seq<string>, open: string)
    requires WellBracketed(segs, names) && ']' !in open
    ensures SplitTemplate(BuildOpen(segs, names, open)) == segs
  {
    if names == [] {
      OpenHole(segs[0], open);
      assert segs == [segs[0]];
    } else {
      var t, rest := BuildOpen(segs, names, open), BuildOpen(segs[1..], names[1..], open);
      SplitUnclosed(segs[1..], names[1..], open);
      assert NextHole(t) == Hole(segs[0], rest) by { Placeholder(segs[0], names[0], rest); }
      SplitHole(t, segs[0], rest);
      assert segs == [segs[0]] + segs[1..];
    }
  }

  lemma OpenHole(pre: string, open: string)
    requires '[' !in pre && ']' !in open
    ensures NextHole(pre + ("[" + open)) == Unclosed(pre)
    ensures SplitTemplate(pre + ("[" + open)) == [pre]
  {
    var t := pre + ("[" + open);
    assert t == pre + ['['] + open;
    FindCharIs(pre, '[', open);
    assert t[..|pre|] == pre && t[|pre|..] == "[" + open;
    assert NextHole(t) == Unclosed(pre);
  }

  lemma {:induction false} NothingToFill(text: string, values: seq<string>)
    requires '[' !in text
    ensures Rendered(text, values) == text
  {
    if values != [] {
      NothingToFill(text, values[1..]);
    }
  }

  /** A bracket that is never closed takes no value. */
  lemma {:induction false} NothingToFillOpen(pre: string, open: string, values: seq<string>)
    requires '[' !in pre && ']' !in open
    ensures Rendered(pre + ("[" + open), values) == pre + ("[" + open)
  {
    if values != [] {
      OpenHole(pre, open);
      NothingToFillOpen(pre, open, values[1..]);
    }
  }

  /** Every value but the one filled in last is free of opening brackets. */
  predicate Fillable(names: seq<string>, values: seq<string>) {
    forall i :: 0 <= i < |names| && i < |values| - 1 ==> '[' !in values[i]
  }

  lemma {:induction false} RenderBuildAfter(pre: string, segs: seq<string>, names: seq<string>, values: seq<string>)
    requires WellBracketed(segs, names) && '[' !in pre && Fillable(names, values)
    ensures Rendered(pre + Build(segs, names), values) == pre + Filled(segs, names, values)
    decreases |names|
  {
    if names == [] {
      NothingToFill(pre + segs[0], values);
    } else if values != [] {
      var rest := Build(segs[1..], names[1..]);
      var pre' := pre + segs[0];
      Reassociate(pre, segs[0], "[" + names[0] + "]" + rest);
      Placeholder(pre', names[0], rest);
      Reassociate(pre', values[0], rest);
      assert RenderOne(pre + Build(segs, names), values[0]) == (pre' + values[0]) + rest;
      if |values| > 1 {
        FillableRest(names, values);
        RenderBuildAfter(pre' + values[0], segs[1..], names[1..], values[1..]);
      } else {
        assert Filled(segs[1..], names[1..], values[1..]) == rest;
      }
      var filled := Filled(segs[1..], names[1..], values[1..]);
      Reassociate(pre', values[0], filled);
      Reassociate(pre, segs[0], values[0] + filled);
    }
  }

  lemma FillableRest(names: seq<string>, values: seq<string>)
    requires names != [] && values != [] && Fillable(names, values)
    ensures Fillable(names[1..], values[1..])
  {
    var rest := values[1..];
    forall i | 0 <= i < |names| - 1 && i < |rest| - 1 ensures '[' !in rest[i] {
      assert rest[i] == values[i + 1];
    }
  }

  /**
    The in-place loop interleaves the static parts with the values, whatever
    the number of values: missing ones leave their brackets, surplus ones
    change nothing. The value filled in last may hold brackets.
  */
  lemma {:induction false} RenderFills(segs: seq<string>, names: seq<string>, values: seq<string>)
    requires WellBracketed(segs, names) && Fillable(names, values)
    ensures Rendered(Build(segs, names), values) == Filled(segs, names, values)
  {
    RenderBuildAfter("", segs, names, values);
    assert "" + Build(segs, names) == Build(segs, names);
    assert "" + Filled(segs, names, values) == Filled(segs, names, values);
  }

  // ---------------------------------------------------------------------
  // Extracting
  // ---------------------------------------------------------------------

  /** The value in front of one separator, and the text after it if the separator was found. */
  function TakeValue(remaining: string, sep: string): (string, Option<string>) {
    if sep == "" then (Trim(remaining), Some(""))
    else
      match Find(remaining, Trim(sep))
      case None => (Trim(remaining), None)
      case Some(pos) => (Trim(remaining[..pos]), Some(TrimStart(remaining[pos + |Trim(sep)|..])))
  }

  /** Values in front of the separators `seps`, one by one. */
  function ExtractFrom(remaining: string, seps: seq<string>): seq<string>
    decreases |seps|
  {
    if seps == [] then []
    else
      var taken := TakeValue(remaining, seps[0]);
      [taken.0] + (if taken.1.Some? then ExtractFrom(taken.1.value, seps[1..]) else [])
  }

  function Extract(body: string, segs: seq<string>): seq<string> {
    if segs == [] then []
    else if segs[0] == "" then ExtractFrom(body, segs[1..])
    else
      match StripPrefix(body, TrimEnd(segs[0]))
      case None => []
      case Some(rest) => ExtractFrom(TrimStart(rest), segs[1..])
  }

  method ExtractValuesBetweenSegments(body: string, segments: seq<string>) returns (values: seq<string>)
    ensures values == Extract(body, segments)
  {
    values := [];
    var remaining := body;
    for i := 0 to |segments|
      invariant i == 0 ==> values == [] && remaining == body
      invariant i > 0 ==> values + ExtractFrom(remaining, segments[i..]) == Extract(body, segments)
    {
      var seg := segments[i];
      if i == 0 {
        if seg != "" {
          var rest := StripPrefix(remaining, TrimEnd(seg));
          if rest.None? {
            return;
          }
          remaining := TrimStart(rest.value);
        }
      } else {
        var taken := TakeValue(remaining, seg);
        ghost var later := segments[i + 1..];
        ExtractCons(remaining, seg, later);
        assert segments[i..] == [seg] + later;
        Regroup(values, taken.0, if taken.1.Some? then ExtractFrom(taken.1.value, later) else []);
        values := values + [taken.0];
        if taken.1.None? {
          return;
        }
        remaining := taken.1.value;
      }
    }
  }

  lemma Regroup(values: seq<string>, value: string, more: seq<string>)
    ensures values + ([value] + more) == (values + [value]) + more
  {}

  function LowerAscii(c: char): char {
    if 'A' <= c <= 'Z' then ((c as int) + 32) as char else c
  }

  predicate EqIgnoreAsciiCase(a: string, b: string) {
    |a| == |b| && forall i :: 0 <= i < |a| ==> LowerAscii(a[i]) == LowerAscii(b[i])
  }

  /** The values of a match, before they are converted to typed arguments. */
  function TryMatch(body: string, template: string, args: nat): Option<seq<string>> {
    if args == 0 then
      if EqIgnoreAsciiCase(body, template) then Some([]) else None
    else
      var values := Extract(body, SplitTemplate(template));
      if |values| != args || "" in values then None else Some(values)
  }

  // ---------------------------------------------------------------------
  // Which texts match
  // ---------------------------------------------------------------------

  /** A text that does not begin with a blank. */
  predicate Visibly(s: string) {
    s == "" || !IsWhite(s[0])
  }

  /**
    The value stands at the beginning of the text, in front of the first
    occurrence of the separator's visible part, with any blanks around both.
    An empty separator ends the text.
  */
  predicate ReadsOne(text: string, lead: string, value: string, trail: string, sep: string, gap: string,
                     rest: string) {
    && AllWhite(lead) && AllWhite(trail) && AllWhite(gap) && Trimmed(value)
    && if sep == "" then text == lead + (value + trail) && rest == ""
       else && text == lead + (value + (trail + (Trim(sep) + (gap + rest)))) && Visibly(rest)
            && forall p: nat :: p < |lead| + |value| + |trail| ==> !OccursAt(text, Trim(sep), p)
  }

  /** The text is the value in blanks, and the separator does not occur in it. */
  ghost predicate ReadsLast(text: string, value: string, sep: string) {
    && sep != "" && Trimmed(value) && (forall p: nat :: !OccursAt(text, Trim(sep), p))
    && exists lead, trail :: AllWhite(lead) && AllWhite(trail) && text == lead + (value + trail)
  }

  /**
    The values stand one after the other in front of their separators; the
    last separator need not be there, and text behind it is not looked at.
  */
  ghost predicate Reads(text: string, values: seq<string>, seps: seq<string>)
    requires |values| == |seps|
    decreases |seps|
  {
    seps != [] ==>
      || (|seps| == 1 && ReadsLast(text, values[0], seps[0]))
      || exists lead, trail, gap, rest ::
           ReadsOne(text, lead, values[0], trail, seps[0], gap, rest) && Reads(rest, values[1..], seps[1..])
  }

  lemma TakenIsRead(text: string, sep: string) returns (lead: string, trail: string, gap: string)
    requires TakeValue(text, sep).1.Some?
    ensures ReadsOne(text, lead, TakeValue(text, sep).0, trail, sep, gap, TakeValue(text, sep).1.value)
  {
    gap := "";
    if sep == "" {
      lead, trail := TrimParts(text);
    } else {
      var needle := Trim(sep);
      var pos := Find(text, needle).value;
      var before, after := text[..pos], text[pos + |needle|..];
      lead, trail := TrimParts(before);
      gap := TrimStartIs(after);
      Pieces(text, lead, Trim(before), trail, needle, gap, TrimStart(after), pos);
    }
  }

  lemma Pieces(text: string, lead: string, value: string, trail: string, needle: string, gap: string, rest: string,
               pos: nat)
    requires OccursAt(text, needle, pos)
    requires text[..pos] == lead + (value + trail) && text[pos + |needle|..] == gap + rest
    ensures text == lead + (value + (trail + (needle + (gap + rest)))) && pos == |lead| + |value| + |trail|
  {
    assert text == text[..pos] + (needle + text[pos + |needle|..]);
  }

  lemma ReadIsTaken(text: string, lead: string, value: string, trail: string, sep: string, gap: string, rest: string)
    requires ReadsOne(text, lead, value, trail, sep, gap, rest)
    ensures TakeValue(text, sep) == (value, Some(rest))
  {
    TrimPadded(lead, value, trail);
    if sep != "" {
      var before, needle, after := lead + (value + trail), Trim(sep), gap + rest;
      Before(lead, value, trail, needle + after);
      FoundFirst(text, before, needle, after);
      TrimStartPadded(gap, rest);
    }
  }

  lemma Before(lead: string, value: string, trail: string, after: string)
    ensures lead + (value + (trail + after)) == (lead + (value + trail)) + after
  {}

  lemma FoundFirst(text: string, before: string, needle: string, after: string)
    requires text == before + (needle + after) && forall p: nat :: p < |before| ==> !OccursAt(text, needle, p)
    ensures Find(text, needle) == Some(|before|)
    ensures text[..|before|] == before && text[|before| + |needle|..] == after
  {
    assert text[|before|..|before| + |needle|] == needle;
    FindIs(text, needle, |before|);
  }

  lemma LastIsTaken(text: string, value: string, sep: string)
    requires sep != ""
    ensures TakeValue(text, sep) == (value, None) <==> ReadsLast(text, value, sep)
  {
    if ReadsLast(text, value, sep) {
      var lead, trail :| AllWhite(lead) && AllWhite(trail) && text == lead + (value + trail);
      TrimPadded(lead, value, trail);
    }
    if TakeValue(text, sep) == (value, None) {
      var lead, trail := TrimParts(text);
    }
  }

  /** Extraction finds a value for every separator exactly if the text reads like that. */
  lemma {:induction false} ExtractIff(text: string, values: seq<string>, seps: seq<string>)
    requires |values| == |seps|
    ensures ExtractFrom(text, seps) == values <==> Reads(text, values, seps)
    decreases |seps|
  {
    if seps != [] {
      var sep, seps', value, values' := seps[0], seps[1..], values[0], values[1..];
      ExtractedRest(text, values, seps);
      var taken := TakeValue(text, sep);
      if taken.1.Some? { ExtractIff(taken.1.value, values', seps'); }
      if ExtractFrom(text, seps) == values {
        if taken.1.Some? {
          var lead, trail, gap := TakenIsRead(text, sep);
          assert ReadsOne(text, lead, value, trail, sep, gap, taken.1.value);
        } else {
          LastIsTaken(text, value, sep);
        }
      }
      if Reads(text, values, seps) { ReadsIsTaken(text, values, seps); }
    }
  }

  lemma {:induction false} ReadsIsTaken(text: string, values: seq<string>, seps: seq<string>)
    requires |values| == |seps| > 0 && Reads(text, values, seps)
    ensures var taken := TakeValue(text, seps[0]);
            && taken.0 == values[0]
            && (taken.1.Some? ==> Reads(taken.1.value, values[1..], seps[1..]))
            && (taken.1.None? ==> |seps| == 1)
  {
    if |seps| == 1 && ReadsLast(text, values[0], seps[0]) {
      LastIsTaken(text, values[0], seps[0]);
    } else {
      var lead, trail, gap, rest :| ReadsOne(text, lead, values[0], trail, seps[0], gap, rest)
                                    && Reads(rest, values[1..], seps[1..]);
      ReadIsTaken(text, lead, values[0], trail, seps[0], gap, rest);
    }
  }

  lemma ExtractedRest(text: string, values: seq<string>, seps: seq<string>)
    requires |values| == |seps| > 0
    ensures var taken := TakeValue(text, seps[0]);
            ExtractFrom(text, seps) == values <==>
              && taken.0 == values[0]
              && (taken.1.Some? ==> ExtractFrom(taken.1.value, seps[1..]) == values[1..])
              && (taken.1.None? ==> |seps| == 1)
  {
    var taken := TakeValue(text, seps[0]);
    var more := if taken.1.Some? then ExtractFrom(taken.1.value, seps[1..]) else [];
    assert values == [values[0]] + values[1..];
    assert ([taken.0] + more)[1..] == more;
  }

  /** The text begins with the visible end of the first static part, and `rest` is what follows it, blanks aside. */
  predicate BeginsWith(text: string, first: string, gap: string, rest: string) {
    if first == "" then text == rest
    else text == TrimEnd(first) + (gap + rest) && AllWhite(gap) && Visibly(rest)
  }

  /** Which texts match a template with placeholders, and with which values. */
  lemma {:induction false} MatchIff(body: string, segs: seq<string>, names: seq<string>, values: seq<string>)
    requires WellBracketed(segs, names) && |values| == |names| > 0
    ensures TryMatch(body, Build(segs, names), |names|) == Some(values) <==>
            "" !in values
            && exists gap, rest :: BeginsWith(body, segs[0], gap, rest) && Reads(rest, values, segs[1..])
  {
    SplitBuild(segs, names);
    var first, seps := segs[0], segs[1..];
    if Extract(body, segs) == values {
      var gap, rest := ExtractBegins(body, segs);
      ExtractIff(rest, values, seps);
      assert BeginsWith(body, first, gap, rest) && Reads(rest, values, seps);
    }
    if gap, rest :| BeginsWith(body, first, gap, rest) && Reads(rest, values, seps) {
      ExtractIff(rest, values, seps);
      BeginsExtract(body, segs, gap, rest);
    }
  }

  lemma ExtractBegins(body: string, segs: seq<string>) returns (gap: string, rest: string)
    requires segs != [] && Extract(body, segs) != []
    ensures BeginsWith(body, segs[0], gap, rest) && Extract(body, segs) == ExtractFrom(rest, segs[1..])
  {
    gap, rest := "", body;
    if segs[0] != "" {
      var after := StripPrefix(body, TrimEnd(segs[0])).value;
      gap := TrimStartIs(after);
      rest := TrimStart(after);
      assert body == TrimEnd(segs[0]) + after;
    }
  }

  lemma BeginsExtract(body: string, segs: seq<string>, gap: string, rest: string)
    requires segs != [] && BeginsWith(body, segs[0], gap, rest)
    ensures Extract(body, segs) == ExtractFrom(rest, segs[1..])
  {
    if segs[0] != "" {
      var prefix := TrimEnd(segs[0]);
      assert body[|prefix|..] == gap + rest && body[..|prefix|] == prefix;
      TrimStartPadded(gap, rest);
    }
  }

  /** A template without placeholders matches the texts that differ from it in the case of ASCII letters only. */
  lemma LiteralMatchIff(body: string, template: string)
    ensures TryMatch(body, template, 0) == (if AsciiUpper(body) == AsciiUpper(template) then Some([]) else None)
  {
    if |body| == |template| {
      forall i | 0 <= i < |body|
        ensures LowerAscii(body[i]) == LowerAscii(template[i]) <==> AsciiUpper(body)[i] == AsciiUpper(template)[i]
      {}
    }
  }

  /** A match does not need the last static part: a text that ends with the last value still matches. */
  lemma {:induction false} LastPartMayBeMissing(first: string, name: string, last: string, value: string)
    requires WellBracketed([first, last], [name]) && first != "" && last != ""
    requires value != "" && Trimmed(value) && forall p: nat :: !OccursAt(value, Trim(last), p)
    ensures TryMatch(TrimEnd(first) + value, Build([first, last], [name]), 1) == Some([value])
  {
    assert AllWhite("") && value == "" + (value + "");
    assert ReadsLast(value, value, last);
    assert Reads(value, [value], [last]);
    OneValueMatches(first, name, last, value, value);
  }

  /** Nor does it look at what follows the last static part. */
  lemma {:induction false} LastPartMayBeFollowed(first: string, name: string, last: string, value: string,
                                                 more: string)
    requires WellBracketed([first, last], [name]) && first != "" && last != "" && Visibly(more)
    requires value != "" && Trimmed(value)
    requires var text := value + (Trim(last) + more); forall p: nat :: p < |value| ==> !OccursAt(text, Trim(last), p)
    ensures TryMatch(TrimEnd(first) + (value + (Trim(last) + more)), Build([first, last], [name]), 1) == Some([value])
  {
    var text := value + (Trim(last) + more);
    BareReading(text, value, last, more);
    OneValueMatches(first, name, last, value, text);
  }

  lemma {:induction false} OneValueMatches(first: string, name: string, last: string, value: string, text: string)
    requires WellBracketed([first, last], [name]) && first != "" && value != ""
    requires Visibly(text) && Reads(text, [value], [last])
    ensures TryMatch(TrimEnd(first) + text, Build([first, last], [name]), 1) == Some([value])
  {
    assert [first, last][1..] == [last];
    assert BeginsWith(TrimEnd(first) + text, first, "", text) by { assert text == "" + text; }
    MatchIff(TrimEnd(first) + text, [first, last], [name], [value]);
  }

  lemma BareReading(text: string, value: string, last: string, more: string)
    requires last != "" && Visibly(more) && Trimmed(value) && text == value + (Trim(last) + more)
    requires forall p: nat :: p < |value| ==> !OccursAt(text, Trim(last), p)
    ensures Reads(text, [value], [last])
  {
    assert "" + more == more && "" + (Trim(last) + more) == Trim(last) + more && "" + text == text;
    assert ReadsOne(text, "", value, "", last, "", more);
    assert [value][1..] == [] && [last][1..] == [];
    assert Reads(more, [value][1..], [last][1..]);
  }

  // ---------------------------------------------------------------------
  // When rendering can be undone
  // ---------------------------------------------------------------------

  /** The visible part of `sep` does not start inside `value`. */
  predicate NotEarly(value: string, sep: string) {
    forall p: nat :: p < |value| ==> !OccursAt(value + sep, Trim(sep), p)
  }

  predicate Recoverable(values: seq<string>, seps: seq<string>)
    requires |values| == |seps|
  {
    forall i :: 0 <= i < |values| ==>
      values[i] != "" && Trimmed(values[i]) && (seps[i] != "" ==> NotEarly(values[i], seps[i]))
  }

  /** What follows the first static part in a rendered text. */
  function Tail(values: seq<string>, seps: seq<string>): string
    requires |values| == |seps|
  {
    if values == [] then "" else values[0] + (seps[0] + Tail(values[1..], seps[1..]))
  }

  lemma {:induction false} FilledIsTail(segs: seq<string>, names: seq<string>, values: seq<string>)
    requires |segs| == |names| + 1 && |values| == |names|
    ensures Filled(segs, names, values) == segs[0] + Tail(values, segs[1..])
  {
    if names != [] {
      FilledIsTail(segs[1..], names[1..], values[1..]);
      assert segs[1..][1..] == segs[1..][1..];
    }
  }

  /** Between two placeholders something visible must stand; after the last one nothing or something visible. */
  predicate VisibleSeps(seps: seq<string>) {
    forall i :: 0 <= i < |seps| ==> Trim(seps[i]) != "" || (seps[i] == "" && i == |seps| - 1)
  }

  /** Occurrences that start inside the value do not see what follows the separator. */
  lemma OccursLocally(value: string, sep: string, rest: string, needle: string, p: nat)
    requires p < |value| && |needle| <= |sep|
    ensures OccursAt(value + (sep + rest), needle, p) <==> OccursAt(value + sep, needle, p)
  {
    Reassociate(value, sep, rest);
    assert ((value + sep) + rest)[p..p + |needle|] == (value + sep)[p..p + |needle|];
  }

  /** No occurrence of a visible needle starts on a blank. */
  lemma NotOnBlank(s: string, needle: string, p: nat)
    requires needle != "" && !IsWhite(needle[0]) && p < |s| && IsWhite(s[p])
    ensures !OccursAt(s, needle, p)
  {
    assert s[p] != needle[0];
  }

  lemma NeedleIsThere(value: string, lead: string, needle: string, after: string)
    ensures var s := value + (lead + (needle + after));
            && OccursAt(s, needle, |value| + |lead|)
            && s[..|value| + |lead|] == value + lead
            && s[|value| + |lead| + |needle|..] == after
            && forall p :: |value| <= p < |value| + |lead| ==> s[p] == lead[p - |value|]
  {
  }

  /** Where the search for a needle stops that stands after a value and blanks. */
  lemma FindAfter(value: string, lead: string, needle: string, after: string)
    requires needle != "" && !IsWhite(needle[0]) && AllWhite(lead)
    ensures var s := value + (lead + (needle + after));
            if forall p: nat :: p < |value| ==> !OccursAt(s, needle, p)
            then Find(s, needle) == Some(|value| + |lead|)
            else Find(s, needle).Some? && Find(s, needle).value < |value|
  {
    var s := value + (lead + (needle + after));
    NeedleIsThere(value, lead, needle, after);
    forall p: nat | |value| <= p < |value| + |lead| ensures !OccursAt(s, needle, p) {
      NotOnBlank(s, needle, p);
    }
    if forall p: nat :: p < |value| ==> !OccursAt(s, needle, p) {
      FindIs(s, needle, |value| + |lead|);
    }
  }

  lemma SeparatorApart(value: string, sep: string, rest: string, lead: string, trail: string)
    requires sep == lead + (Trim(sep) + trail)
    ensures value + (sep + rest) == value + (lead + (Trim(sep) + (trail + rest)))
  {
    assert sep + rest == lead + (Trim(sep) + (trail + rest));
  }

  lemma EarlyIsLocal(value: string, sep: string, rest: string)
    ensures NotEarly(value, sep) <==>
            forall p: nat :: p < |value| ==> !OccursAt(value + (sep + rest), Trim(sep), p)
  {
    TrimShorter(sep);
    forall p: nat | p < |value|
      ensures OccursAt(value + (sep + rest), Trim(sep), p) <==> OccursAt(value + sep, Trim(sep), p)
    {
      OccursLocally(value, sep, rest, Trim(sep), p);
    }
  }

  lemma TakeAt(s: string, sep: string, pos: nat, value: string, lead: string, trail: string, rest: string)
    requires sep != "" && Find(s, Trim(sep)) == Some(pos)
    requires Trimmed(value) && AllWhite(lead) && AllWhite(trail)
    requires s[..pos] == value + lead && s[pos + |Trim(sep)|..] == trail + rest
    ensures TakeValue(s, sep) == (value, Some(TrimStart(rest)))
  {
    TrimAfter(value, lead);
    TrimStartPadded(trail, rest);
  }

  lemma TakeVisible(value: string, sep: string, rest: string)
    requires Trimmed(value) && Trim(sep) != "" && NotEarly(value, sep)
    ensures TakeValue(value + (sep + rest), sep) == (value, Some(TrimStart(rest)))
  {
    var lead, trail := TrimParts(sep);
    var s := value + (sep + rest);
    EarlyIsLocal(value, sep, rest);
    SeparatorApart(value, sep, rest, lead, trail);
    TakeFound(s, value, sep, lead, Trim(sep), trail, rest);
  }

  lemma TakeFound(s: string, value: string, sep: string, lead: string, needle: string, trail: string, rest: string)
    requires sep != "" && needle == Trim(sep) && needle != "" && !IsWhite(needle[0])
    requires Trimmed(value) && AllWhite(lead) && AllWhite(trail)
    requires s == value + (lead + (needle + (trail + rest)))
    requires forall p: nat :: p < |value| ==> !OccursAt(s, needle, p)
    ensures TakeValue(s, sep) == (value, Some(TrimStart(rest)))
  {
    FoundAt(s, value, lead, needle, trail + rest);
    TakeAt(s, sep, |value| + |lead|, value, lead, trail, rest);
  }

  lemma FoundAt(s: string, value: string, lead: string, needle: string, after: string)
    requires s == value + (lead + (needle + after)) && needle != "" && !IsWhite(needle[0]) && AllWhite(lead)
    requires forall p: nat :: p < |value| ==> !OccursAt(s, needle, p)
    ensures Find(s, needle) == Some(|value| + |lead|)
    ensures s[..|value| + |lead|] == value + lead && s[|value| + |lead| + |needle|..] == after
  {
    FindAfter(value, lead, needle, after);
    NeedleIsThere(value, lead, needle, after);
  }

  /** A value that contains the start of its separator is cut short. */
  lemma TakeEarly(value: string, sep: string, rest: string)
    requires Trim(sep) != "" && !NotEarly(value, sep)
    ensures |TakeValue(value + (sep + rest), sep).0| < |value|
  {
    var lead, trail := TrimParts(sep);
    EarlyIsLocal(value, sep, rest);
    SeparatorApart(value, sep, rest, lead, trail);
    FindAfter(value, lead, Trim(sep), trail + rest);
    var s := value + (sep + rest);
    TrimShorter(s[..Find(s, Trim(sep)).value]);
  }

  lemma TakeLast(value: string)
    requires Trimmed(value)
    ensures TakeValue(value, "") == (value, Some(""))
  {
    TrimAfter(value, "");
    assert value + "" == value;
  }

  lemma ExtractCons(remaining: string, sep: string, seps: seq<string>)
    ensures ExtractFrom(remaining, [sep] + seps)
         == var taken := TakeValue(remaining, sep);
            [taken.0] + (if taken.1.Some? then ExtractFrom(taken.1.value, seps) else [])
  {
    assert ([sep] + seps)[1..] == seps;
  }

  lemma TailStarts(values: seq<string>, seps: seq<string>)
    requires |values| == |seps|
    requires values != [] ==> values[0] != "" && !IsWhite(values[0][0])
    ensures values != [] ==> Tail(values, seps) != "" && Tail(values, seps)[0] == values[0][0]
    ensures TrimStart(Tail(values, seps)) == Tail(values, seps)
  {
  }

  /** Extraction undoes interleaving when the values are recoverable. */
  lemma {:induction false} ExtractTail(values: seq<string>, seps: seq<string>)
    requires |values| == |seps| && VisibleSeps(seps) && Recoverable(values, seps)
    ensures ExtractFrom(Tail(values, seps), seps) == values
  {
    if values != [] {
      var value, sep, values', seps' := values[0], seps[0], values[1..], seps[1..];
      var rest := Tail(values', seps');
      ExtractTail(values', seps');
      TailStarts(values', seps');
      assert values == [value] + values' && seps == [sep] + seps';
      ExtractCons(value + (sep + rest), sep, seps');
      TakeNext(value, sep, rest);
    }
  }

  /** Taking the next value leaves what comes after the separator. */
  lemma TakeNext(value: string, sep: string, rest: string)
    requires Trimmed(value) && TrimStart(rest) == rest
    requires (sep == "" && rest == "") || (Trim(sep) != "" && NotEarly(value, sep))
    ensures TakeValue(value + (sep + rest), sep) == (value, Some(rest))
  {
    if sep == "" {
      assert value + (sep + rest) == value;
      TakeLast(value);
    } else {
      TakeVisible(value, sep, rest);
    }
  }

  lemma {:induction false} ExtractedAreTrimmed(remaining: string, seps: seq<string>)
    ensures forall i :: 0 <= i < |ExtractFrom(remaining, seps)| ==> Trimmed(ExtractFrom(remaining, seps)[i])
    ensures |ExtractFrom(remaining, seps)| <= |seps|
    decreases |seps|
  {
    if seps != [] {
      TakenIsTrimmed(remaining, seps[0]);
      var taken := TakeValue(remaining, seps[0]);
      if taken.1.Some? {
        ExtractedAreTrimmed(taken.1.value, seps[1..]);
      }
    }
  }

  lemma TakenIsTrimmed(remaining: string, sep: string)
    ensures Trimmed(TakeValue(remaining, sep).0)
  {
    TrimIsTrimmed(remaining);
    if sep != "" && Find(remaining, Trim(sep)).Some? {
      TrimIsTrimmed(remaining[..Find(remaining, Trim(sep)).value]);
    }
  }

  predicate Presentable(values: seq<string>) {
    forall i :: 0 <= i < |values| ==> values[i] != "" && Trimmed(values[i])
  }

  lemma VisibleRest(sep: string, seps: seq<string>)
    requires VisibleSeps([sep] + seps)
    ensures VisibleSeps(seps)
  {
    forall i | 0 <= i < |seps| ensures Trim(seps[i]) != "" || (seps[i] == "" && i == |seps| - 1) {
      assert ([sep] + seps)[i + 1] == seps[i];
    }
  }

  lemma PresentableRest(value: string, values: seq<string>)
    requires Presentable([value] + values)
    ensures value != "" && Trimmed(value) && Presentable(values)
  {
    assert ([value] + values)[0] == value;
    forall i | 0 <= i < |values| ensures values[i] != "" && Trimmed(values[i]) {
      assert ([value] + values)[i + 1] == values[i];
    }
  }

  lemma RecoverableCons(value: string, sep: string, values: seq<string>, seps: seq<string>)
    requires |values| == |seps| && Recoverable(values, seps)
    requires value != "" && Trimmed(value) && (sep != "" ==> NotEarly(value, sep))
    ensures Recoverable([value] + values, [sep] + seps)
  {
  }

  lemma {:induction false} FirstIsNotEarly(value: string, sep: string, rest: string, values: seq<string>,
                                           seps: seq<string>)
    requires Trim(sep) != "" && ExtractFrom(value + (sep + rest), [sep] + seps) == [value] + values
    ensures NotEarly(value, sep)
  {
    ExtractCons(value + (sep + rest), sep, seps);
    assert ([value] + values)[0] == value;
    if !NotEarly(value, sep) {
      TakeEarly(value, sep, rest);
    }
  }

  /** Values that extraction gives back are recoverable. */
  lemma {:induction false} RecoveredIsRecoverable(values: seq<string>, seps: seq<string>)
    requires |values| == |seps| && VisibleSeps(seps) && Presentable(values)
    requires ExtractFrom(Tail(values, seps), seps) == values
    ensures Recoverable(values, seps)
  {
    if values != [] {
      var value, sep, values', seps' := values[0], seps[0], values[1..], seps[1..];
      assert values == [value] + values' && seps == [sep] + seps';
      RecoveredNext(value, sep, values', seps');
      if sep != "" { RecoveredIsRecoverable(values', seps'); }
      RecoverableCons(value, sep, values', seps');
    }
  }

  lemma RecoveredNext(value: string, sep: string, values: seq<string>, seps: seq<string>)
    requires |values| == |seps| && VisibleSeps([sep] + seps) && Presentable([value] + values)
    requires var rest := Tail(values, seps); ExtractFrom(value + (sep + rest), [sep] + seps) == [value] + values
    ensures VisibleSeps(seps) && Presentable(values) && value != "" && Trimmed(value)
    ensures if sep == "" then seps == [] else NotEarly(value, sep) && ExtractFrom(Tail(values, seps), seps) == values
  {
    VisibleRest(sep, seps);
    PresentableRest(value, values);
    assert ([sep] + seps)[0] == sep;
    if sep != "" {
      TailStarts(values, seps);
      RestIsRecovered(value, sep, Tail(values, seps), values, seps);
    }
  }

  lemma RestIsRecovered(value: string, sep: string, rest: string, values: seq<string>, seps: seq<string>)
    requires Trim(sep) != "" && Trimmed(value) && TrimStart(rest) == rest
    requires ExtractFrom(value + (sep + rest), [sep] + seps) == [value] + values
    ensures NotEarly(value, sep) && ExtractFrom(rest, seps) == values
  {
    FirstIsNotEarly(value, sep, rest, values, seps);
    TakeVisible(value, sep, rest);
    ExtractCons(value + (sep + rest), sep, seps);
    SameTail(value, ExtractFrom(rest, seps), values);
  }

  lemma SameTail(x: string, a: seq<string>, b: seq<string>)
    requires [x] + a == [x] + b
    ensures a == b
  {
    assert ([x] + a)[1..] == a && ([x] + b)[1..] == b;
  }

  /** An invisible separator between placeholders always yields an empty value. */
  lemma {:induction false} InvisibleNeverMatches(remaining: string, seps: seq<string>)
    requires !VisibleSeps(seps)
    ensures |ExtractFrom(remaining, seps)| != |seps| || "" in ExtractFrom(remaining, seps)
    decreases |seps|
  {
    var sep, seps' := seps[0], seps[1..];
    assert seps == [sep] + seps';
    ExtractCons(remaining, sep, seps');
    var taken := TakeValue(remaining, sep);
    if sep == "" && |seps| > 1 {
      EmptyRemains(seps');
      assert ExtractFrom(remaining, seps)[1] == ExtractFrom("", seps')[0];
    } else if sep != "" && Trim(sep) == "" {
      FindIs(remaining, "", 0);
      assert remaining[..0] == "";
      assert ExtractFrom(remaining, seps)[0] == "";
    } else {
      var i :| 0 <= i < |seps| && Trim(seps[i]) == "" && (seps[i] != "" || i < |seps| - 1);
      assert !VisibleSeps(seps') by { assert seps'[i - 1] == seps[i]; }
      if taken.1.Some? {
        InvisibleNeverMatches(taken.1.value, seps');
      }
    }
  }

  /** Once the text is used up the next value is empty. */
  lemma EmptyRemains(seps: seq<string>)
    requires seps != []
    ensures ExtractFrom("", seps) != [] && ExtractFrom("", seps)[0] == ""
  {
    assert Trim("") == "";
    if seps[0] != "" && Find("", Trim(seps[0])).Some? {
      assert ""[..Find("", Trim(seps[0])).value] == "";
    }
  }

  lemma {:induction false} ExtractBody(seg0: string, tail: string, seps: seq<string>)
    requires tail != "" && !IsWhite(tail[0])
    ensures Extract(seg0 + tail, [seg0] + seps) == ExtractFrom(tail, seps)
  {
    assert ([seg0] + seps)[1..] == seps;
    if seg0 == "" {
      assert seg0 + tail == tail;
    } else {
      var cut := TrimEnd(seg0);
      var trail := TrimEndIs(seg0);
      assert (seg0 + tail)[..|cut|] == cut;
      assert (seg0 + tail)[|cut|..] == trail + tail;
      TrimStartPadded(trail, tail);
    }
  }

  /** Whatever a match returns is presentable. */
  lemma MatchedArePresentable(body: string, template: string, args: nat)
    requires args > 0 && TryMatch(body, template, args).Some?
    ensures Presentable(TryMatch(body, template, args).value)
  {
    var segs := SplitTemplate(template);
    if segs[0] == "" {
      ExtractedAreTrimmed(body, segs[1..]);
    } else if StripPrefix(body, TrimEnd(segs[0])).Some? {
      ExtractedAreTrimmed(TrimStart(StripPrefix(body, TrimEnd(segs[0])).value), segs[1..]);
    }
  }

  lemma {:induction false} MatchRendered(segs: seq<string>, names: seq<string>, values: seq<string>)
    requires WellBracketed(segs, names) && |values| == |names| > 0 && Fillable(names, values)
    requires values[0] != "" && !IsWhite(values[0][0])
    ensures var template := Build(segs, names);
            var got := ExtractFrom(Tail(values, segs[1..]), segs[1..]);
            TryMatch(Rendered(template, values), template, |values|)
            == if |got| != |values| || "" in got then None else Some(got)
  {
    RenderFills(segs, names, values);
    FilledIsTail(segs, names, values);
    SplitBuild(segs, names);
    assert segs == [segs[0]] + segs[1..];
    TailStarts(values, segs[1..]);
    ExtractBody(segs[0], Tail(values, segs[1..]), segs[1..]);
  }

  lemma {:induction false} RecoveredIff(values: seq<string>, seps: seq<string>)
    requires |values| == |seps| && Presentable(values)
    ensures ExtractFrom(Tail(values, seps), seps) == values <==> VisibleSeps(seps) && Recoverable(values, seps)
  {
    if VisibleSeps(seps) {
      if Recoverable(values, seps) { ExtractTail(values, seps); }
      if ExtractFrom(Tail(values, seps), seps) == values { RecoveredIsRecoverable(values, seps); }
    } else {
      InvisibleNeverMatches(Tail(values, seps), seps);
      assert "" !in values;
    }
  }

  /**
    Matching undoes rendering, exactly when it can. For every well-bracketed
    template with at least one placeholder and values that can be filled in, the match
    of the rendered text returns the values if and only if every separator is
    visible and every value is non-empty, has no blanks at its ends, and does
    not contain the start of the separator that follows it.
  */
  lemma {:induction false} RenderThenMatchIff(segs: seq<string>, names: seq<string>, values: seq<string>)
    requires WellBracketed(segs, names) && |values| == |names| > 0 && Fillable(names, values)
    ensures var template := Build(segs, names);
            TryMatch(Rendered(template, values), template, |values|) == Some(values)
            <==> VisibleSeps(segs[1..]) && Recoverable(values, segs[1..])
  {
    var template := Build(segs, names);
    if TryMatch(Rendered(template, values), template, |values|) == Some(values) {
      MatchedArePresentable(Rendered(template, values), template, |values|);
    }
    if Presentable(values) {
      MatchRendered(segs, names, values);
      RecoveredIff(values, segs[1..]);
      assert "" !in values;
    }
  }

  /** A template with an invisible separator matches no text at all. */
  lemma InvisibleTemplateNeverMatches(body: string, template: string)
    requires var segs := SplitTemplate(template); |segs| > 1 && !VisibleSeps(segs[1..])
    ensures TryMatch(body, template, |SplitTemplate(template)| - 1) == None
  {
    var segs := SplitTemplate(template);
    if segs[0] == "" {
      InvisibleNeverMatches(body, segs[1..]);
    } else if StripPrefix(body, TrimEnd(segs[0])).Some? {
      InvisibleNeverMatches(TrimStart(StripPrefix(body, TrimEnd(segs[0])).value), segs[1..]);
    }
  }

  // ---------------------------------------------------------------------
  // When the rendered text is trimmed first
  // ---------------------------------------------------------------------

  /** Trimming the text leaves this first static part in front, or takes it away whole. */
  predicate OpensVisibly(s: string) {
    AllWhite(s) || !IsWhite(s[0])
  }

  /** The separators of a text whose trailing blanks are gone. */
  function CutLast(seps: seq<string>): seq<string>
    requires seps != []
  {
    seps[|seps| - 1 := TrimEnd(seps[|seps| - 1])]
  }

  lemma TrimOfTrimEnd(s: string)
    ensures Trim(TrimEnd(s)) == Trim(s)
  {
    var lead, trail := TrimParts(s);
    var core := Trim(s);
    if core == "" {
      assert s == lead + trail;
      AllWhiteVanishes(s);
    } else {
      Reassociate(lead, core, trail);
      TrimEndPadded(lead + core, trail);
      TrimPadded(lead, core, "");
      assert core + "" == core;
    }
  }

  lemma {:induction false} AllWhiteVanishes(s: string)
    requires AllWhite(s)
    ensures TrimEnd(s) == "" && TrimStart(s) == ""
  {
    if s != "" {
      AllWhiteVanishes(s[1..]);
      AllWhiteEndVanishes(s);
    }
  }

  lemma {:induction false} AllWhiteEndVanishes(s: string)
    requires AllWhite(s)
    ensures TrimEnd(s) == ""
  {
    if s != "" { AllWhiteEndVanishes(s[..|s| - 1]); }
  }

  lemma {:induction false} CutRest(seps: seq<string>)
    requires |seps| > 1
    ensures CutLast(seps)[0] == seps[0] && CutLast(seps)[1..] == CutLast(seps[1..])
  {
  }

  /** The tail of a rendered text, without the blanks at its end. */
  lemma {:induction false} TailWithoutEnd(values: seq<string>, seps: seq<string>) returns (right: string)
    requires |values| == |seps| > 0
    ensures Tail(values, seps) == Tail(values, CutLast(seps)) + right && AllWhite(right)
  {
    if |seps| == 1 {
      right := TrimEndIs(seps[0]);
      assert Tail(values[1..], seps[1..]) == "" && Tail(values[1..], CutLast(seps)[1..]) == "";
      assert seps[0] + "" == seps[0] && TrimEnd(seps[0]) + "" == TrimEnd(seps[0]);
      Reassociate(values[0], TrimEnd(seps[0]), right);
    } else {
      right := TailWithoutEnd(values[1..], seps[1..]);
      CutRest(seps);
      var core := Tail(values[1..], CutLast(seps[1..]));
      Reassociate(seps[0], core, right);
      Reassociate(values[0], seps[0] + core, right);
    }
  }

  lemma {:induction false} CutTailEnds(values: seq<string>, seps: seq<string>)
    requires |values| == |seps| > 0 && Presentable(values)
    ensures var core := Tail(values, CutLast(seps)); core != "" && !IsWhite(core[|core| - 1])
  {
    if |seps| == 1 {
      var end := TrimEndIs(seps[0]);
      assert Tail(values[1..], CutLast(seps)[1..]) == "";
      assert TrimEnd(seps[0]) + "" == TrimEnd(seps[0]);
    } else {
      CutRest(seps);
      assert values == [values[0]] + values[1..];
      PresentableRest(values[0], values[1..]);
      CutTailEnds(values[1..], seps[1..]);
    }
  }

  lemma SepCutTakesTheSame(remaining: string, sep: string)
    requires Trim(sep) != "" || sep == ""
    ensures TakeValue(remaining, TrimEnd(sep)) == TakeValue(remaining, sep)
  {
    TrimOfTrimEnd(sep);
    assert Trim("") == "";
    SameNeedle(remaining, sep, TrimEnd(sep));
  }

  lemma SameNeedle(remaining: string, a: string, b: string)
    requires Trim(a) == Trim(b) && (a == "" <==> b == "")
    ensures TakeValue(remaining, a) == TakeValue(remaining, b)
  {}

  lemma {:induction false} CutExtractsTheSame(remaining: string, seps: seq<string>)
    requires seps != [] && VisibleSeps(seps)
    ensures ExtractFrom(remaining, CutLast(seps)) == ExtractFrom(remaining, seps)
    decreases |seps|
  {
    if |seps| == 1 {
      SepCutTakesTheSame(remaining, seps[0]);
    } else {
      CutRest(seps);
      assert seps == [seps[0]] + seps[1..];
      VisibleRest(seps[0], seps[1..]);
      var taken := TakeValue(remaining, seps[0]);
      if taken.1.Some? { CutExtractsTheSame(taken.1.value, seps[1..]); }
    }
  }

  lemma NotEarlyCut(value: string, sep: string)
    ensures NotEarly(value, TrimEnd(sep)) <==> NotEarly(value, sep)
  {
    var cut := TrimEnd(sep);
    var trail := TrimEndIs(sep);
    TrimOfTrimEnd(sep);
    TrimShorter(cut);
    forall p: nat | p < |value|
      ensures OccursAt(value + sep, Trim(sep), p) <==> OccursAt(value + cut, Trim(sep), p)
    {
      OccursLocally(value, cut, trail, Trim(sep), p);
    }
  }

  lemma CutKeepsConditions(values: seq<string>, seps: seq<string>)
    requires |values| == |seps| > 0 && VisibleSeps(seps)
    ensures VisibleSeps(CutLast(seps))
    ensures Recoverable(values, CutLast(seps)) <==> Recoverable(values, seps)
  {
    var n := |seps| - 1;
    TrimOfTrimEnd(seps[n]);
    NotEarlyCut(values[n], seps[n]);
    assert Trim("") == "";
    var cut := CutLast(seps);
    forall i | 0 <= i < n ensures cut[i] == seps[i] { }
    assert cut[n] == TrimEnd(seps[n]);
    assert seps[n] == "" ==> cut[n] == "";
    assert cut[n] == "" ==> seps[n] == "";
  }

  /** The text a match of the trimmed rendering starts from. */
  lemma TrimmedRendering(seg0: string, values: seq<string>, seps: seq<string>)
    requires |values| == |seps| > 0 && Presentable(values) && OpensVisibly(seg0)
    ensures Trim(seg0 + Tail(values, seps)) == (if AllWhite(seg0) then "" else seg0) + Tail(values, CutLast(seps))
  {
    var core := Tail(values, CutLast(seps));
    var right := TailWithoutEnd(values, seps);
    CutTailEnds(values, seps);
    TailStarts(values, CutLast(seps));
    TrimAround(seg0, core, right);
  }

  lemma TrimAround(seg0: string, core: string, right: string)
    requires core != "" && Trimmed(core) && AllWhite(right) && OpensVisibly(seg0)
    ensures Trim(seg0 + (core + right)) == (if AllWhite(seg0) then "" else seg0) + core
  {
    if AllWhite(seg0) {
      TrimPadded(seg0, core, right);
      assert "" + core == core;
    } else {
      Reassociate(seg0, core, right);
      assert Trimmed(seg0 + core);
      TrimAfter(seg0 + core, right);
    }
  }

  lemma {:induction false} ExtractTrimmed(seg0: string, tail: string, seps: seq<string>)
    requires tail != "" && !IsWhite(tail[0])
    ensures Extract((if AllWhite(seg0) then "" else seg0) + tail, [seg0] + seps) == ExtractFrom(tail, seps)
  {
    if AllWhite(seg0) {
      assert "" + tail == tail && ([seg0] + seps)[1..] == seps;
      AllWhiteVanishes(seg0);
      assert tail[|""|..] == tail;
    } else {
      ExtractBody(seg0, tail, seps);
    }
  }

  /** What the match of the trimmed text extracts. */
  lemma {:induction false} MatchTrimmed(segs: seq<string>, names: seq<string>, values: seq<string>)
    requires WellBracketed(segs, names) && |values| == |names| > 0 && Fillable(names, values)
    requires Presentable(values) && OpensVisibly(segs[0]) && VisibleSeps(segs[1..])
    ensures var template := Build(segs, names);
            var cut := CutLast(segs[1..]);
            var got := ExtractFrom(Tail(values, cut), cut);
            TryMatch(Trim(Rendered(template, values)), template, |values|)
            == if |got| != |values| || "" in got then None else Some(got)
  {
    var seps := segs[1..];
    RenderFills(segs, names, values);
    FilledIsTail(segs, names, values);
    SplitBuild(segs, names);
    assert segs == [segs[0]] + seps;
    TrimmedRendering(segs[0], values, seps);
    TailStarts(values, CutLast(seps));
    ExtractTrimmed(segs[0], Tail(values, CutLast(seps)), seps);
    CutExtractsTheSame(Tail(values, CutLast(seps)), seps);
  }

  /** A first static part that begins with a blank before something visible never matches a trimmed text. */
  lemma HiddenStartNeverMatches(body: string, template: string, args: nat)
    requires Trimmed(body) && args > 0 && !OpensVisibly(SplitTemplate(template)[0])
    ensures TryMatch(body, template, args) == None
  {
    var seg0 := SplitTemplate(template)[0];
    HiddenStartStays(seg0);
    PrefixStarts(TrimEnd(seg0), body);
  }

  lemma HiddenStartStays(s: string)
    requires !OpensVisibly(s)
    ensures TrimEnd(s) != "" && IsWhite(TrimEnd(s)[0])
  {
    var k: nat :| k < |s| && !IsWhite(s[k]);
    TrimEndKeeps(s, k);
    var trail := TrimEndIs(s);
    assert TrimEnd(s)[0] == s[0];
  }

  lemma PrefixStarts(a: string, b: string)
    requires a != ""
    ensures a <= b ==> b != "" && b[0] == a[0]
  {}

  /** When choosing on the trimmed text can give the values of a rendering back. */
  predicate Undoable(segs: seq<string>, values: seq<string>)
    requires |segs| == |values| + 1
  {
    if values == [] then Trimmed(segs[0])
    else OpensVisibly(segs[0]) && VisibleSeps(segs[1..]) && Recoverable(values, segs[1..])
  }

  lemma TrimOfTrimmed(s: string)
    ensures |Trim(s)| == |s| <==> Trimmed(s)
    ensures Trimmed(s) ==> Trim(s) == s
  {
    if Trimmed(s) {
      TrimAfter(s, "");
      assert s + "" == s;
    }
    if |Trim(s)| == |s| {
      var lead, trail := TrimParts(s);
      assert s == Trim(s);
    }
  }

  /**
    Matching the trimmed text undoes rendering, exactly when it can: for
    templates with and without placeholders.
  */
  lemma {:induction false} RenderTrimMatchIff(segs: seq<string>, names: seq<string>, values: seq<string>)
    requires WellBracketed(segs, names) && |values| == |names| && Fillable(names, values)
    ensures var template := Build(segs, names);
            TryMatch(Trim(Rendered(template, values)), template, |values|) == Some(values) <==> Undoable(segs, values)
  {
    var template := Build(segs, names);
    var body := Trim(Rendered(template, values));
    if values == [] {
      TrimOfTrimmed(segs[0]);
    } else {
      SplitBuild(segs, names);
      TrimIsTrimmed(Rendered(template, values));
      if TryMatch(body, template, |values|) == Some(values) {
        MatchedArePresentable(body, template, |values|);
        assert VisibleSeps(segs[1..]) by {
          if !VisibleSeps(segs[1..]) { InvisibleTemplateNeverMatches(body, template); }
        }
        assert OpensVisibly(segs[0]) by {
          if !OpensVisibly(segs[0]) { HiddenStartNeverMatches(body, template, |values|); }
        }
      }
      if Presentable(values) && VisibleSeps(segs[1..]) && OpensVisibly(segs[0]) {
        MatchTrimmed(segs, names, values);
        CutKeepsConditions(values, segs[1..]);
        RecoveredIff(values, CutLast(segs[1..]));
        assert "" !in values;
      }
    }
  }

  // ---------------------------------------------------------------------
  // Choosing a definition
  // ---------------------------------------------------------------------

  datatype Direction = Uplink | Downlink

  datatype Definition = Definition(id: string, direction: Direction, template: string, args: nat)

  function VisibleLength(segs: seq<string>): nat {
    if segs == [] then 0 else |Trim(segs[0])| + VisibleLength(segs[1..])
  }

  function Specificity(template: string): nat {
    VisibleLength(SplitTemplate(template))
  }

  /** The specificity counts the visible length of every static part. */
  lemma SpecificityCounts(pre: string, name: string, rest: string)
    requires '[' !in pre
    ensures Specificity(pre) == |Trim(pre)|
    ensures ']' !in name ==> Specificity(pre + ("[" + name + "]" + rest)) == |Trim(pre)| + Specificity(rest)
  {
    SplitPlain(pre);
    assert VisibleLength([pre][1..]) == 0;
    if ']' !in name {
      var t := pre + ("[" + name + "]" + rest);
      Placeholder(pre, name, rest);
      SplitHole(t, pre, rest);
      assert SplitTemplate(t)[1..] == SplitTemplate(rest);
    }
  }

  /** How well a definition matches: its specificity, or not at all. */
  function Score(d: Definition, body: string, direction: Direction): Option<nat> {
    if d.direction == direction && TryMatch(body, d.template, d.args).Some? then Some(Specificity(d.template)) else None
  }

  function Scores(registry: seq<Definition>, body: string, direction: Direction): seq<Option<nat>> {
    seq(|registry|, i requires 0 <= i < |registry| => Score(registry[i], body, direction))
  }

  /** `k` is the first of the greatest scores among the first `n`. */
  predicate FirstMax(scores: seq<Option<nat>>, n: int, k: int) {
    && 0 <= k < n <= |scores|
    && scores[k].Some?
    && (forall j :: 0 <= j < n && scores[j].Some? ==> scores[j].value <= scores[k].value)
    && (forall j :: 0 <= j < k && scores[j].Some? ==> scores[j].value < scores[k].value)
  }

  predicate NoScore(scores: seq<Option<nat>>, n: int) {
    0 <= n <= |scores| && forall j :: 0 <= j < n ==> scores[j].None?
  }

  /** What one more score does to the best so far (`-1` for none). */
  lemma NextMax(scores: seq<Option<nat>>, n: int, k: int)
    requires 0 <= n < |scores|
    requires if k == -1 then NoScore(scores, n) else FirstMax(scores, n, k)
    ensures if scores[n].Some? && (k == -1 || scores[n].value > scores[k].value) then FirstMax(scores, n + 1, n)
            else if k == -1 then NoScore(scores, n + 1)
            else FirstMax(scores, n + 1, k)
  {
  }

  /** `k` is the first of the most specific definitions that match. */
  predicate FirstBest(registry: seq<Definition>, body: string, direction: Direction, k: int) {
    FirstMax(Scores(registry, body, direction), |registry|, k)
  }

  /** The registry loop: the first best definition, or free text. */
  method MatchBodyToElement(text: string, direction: Direction, registry: seq<Definition>)
    returns (id: string, values: seq<string>)
    ensures forall k :: FirstBest(registry, Trim(text), direction, k) ==>
      id == registry[k].id && Some(values) == TryMatch(Trim(text), registry[k].template, registry[k].args)
    ensures NoScore(Scores(registry, Trim(text), direction), |registry|) ==>
      id == (match direction case Downlink => "DM67" case Uplink => "UM169") && values == [Trim(text)]
    ensures NoScore(Scores(registry, Trim(text), direction), |registry|)
            || exists k :: FirstBest(registry, Trim(text), direction, k)
  {
    var body := Trim(text);
    var best: Option<(Definition, seq<string>, nat)> := None;
    ghost var at := -1;
    ghost var scores := Scores(registry, body, direction);
    for i := 0 to |registry|
      invariant best.None? <==> at == -1
      invariant if at == -1 then NoScore(scores, i) else FirstMax(scores, i, at)
      invariant at != -1 ==>
        best.value == (registry[at], TryMatch(body, registry[at].template, registry[at].args).value,
                       Specificity(registry[at].template))
    {
      NextMax(scores, i, at);
      var d := registry[i];
      if d.direction == direction {
        var matched := TryMatch(body, d.template, d.args);
        if matched.Some? {
          var specificity := Specificity(d.template);
          if best.None? || specificity > best.value.2 {
            best := Some((d, matched.value, specificity));
            at := i;
          }
        }
      }
    }
    if best.Some? {
      assert FirstBest(registry, body, direction, at);
      return best.value.0.id, best.value.1;
    }
    return (match direction case Downlink => "DM67" case Uplink => "UM169"), [body];
  }

  predicate Matches(d: Definition, body: string, direction: Direction) {
    d.direction == direction && TryMatch(body, d.template, d.args).Some?
  }

  /** A definition the choice prefers to number `k`: more specific, or as specific and earlier. */
  predicate Outranks(registry: seq<Definition>, j: nat, k: nat)
    requires j < |registry| && k < |registry|
  {
    var a, b := Specificity(registry[j].template), Specificity(registry[k].template);
    a > b || (a == b && j < k)
  }

  predicate NoRival(registry: seq<Definition>, body: string, direction: Direction, k: nat)
    requires k < |registry|
  {
    forall j: nat :: j < |registry| && j != k && Matches(registry[j], body, direction) ==> !Outranks(registry, j, k)
  }

  lemma FirstBestIff(registry: seq<Definition>, body: string, direction: Direction, k: nat)
    requires k < |registry|
    ensures FirstBest(registry, body, direction, k)
            <==> Matches(registry[k], body, direction) && NoRival(registry, body, direction, k)
  {
    var scores := Scores(registry, body, direction);
    assert forall j :: 0 <= j < |registry| ==> scores[j] == Score(registry[j], body, direction);
    if FirstBest(registry, body, direction, k) {
      forall j: nat | j < |registry| && j != k && Matches(registry[j], body, direction)
        ensures !Outranks(registry, j, k)
      {
        assert scores[j].Some?;
      }
    }
  }

  /** Choosing on a text gives number `k` of the registry with these values. */
  predicate Chooses(registry: seq<Definition>, text: string, direction: Direction, k: nat, values: seq<string>)
    requires k < |registry|
  {
    var body := Trim(text);
    && FirstBest(registry, body, direction, k)
    && TryMatch(body, registry[k].template, registry[k].args) == Some(values)
  }

  /**
    When choosing over a whole registry undoes rendering: for every registry
    and every definition of it, the text rendered from the definition leads
    back to it and to the values if and only if matching the trimmed text can
    give the values back and no definition that outranks it matches as well.
  */
  lemma {:induction false} ChooseUndoesRenderIff(registry: seq<Definition>, k: nat, segs: seq<string>,
                                                 names: seq<string>, values: seq<string>)
    requires WellBracketed(segs, names) && |values| == |names| && Fillable(names, values)
    requires k < |registry| && registry[k].template == Build(segs, names) && registry[k].args == |names|
    ensures var text := Rendered(registry[k].template, values);
            var direction := registry[k].direction;
            Chooses(registry, text, direction, k, values)
            <==> Undoable(segs, values) && NoRival(registry, Trim(text), direction, k)
  {
    RenderTrimMatchIff(segs, names, values);
    FirstBestIff(registry, Trim(Rendered(registry[k].template, values)), registry[k].direction, k);
  }

  /** Of two definitions with the same template the later one is never chosen, whatever the text. */
  lemma LaterTwinIsNeverChosen(registry: seq<Definition>, body: string, direction: Direction, i: nat, j: nat)
    requires i < j < |registry|
    requires registry[i].direction == registry[j].direction
    requires registry[i].template == registry[j].template && registry[i].args == registry[j].args
    ensures !FirstBest(registry, body, direction, j)
  {
    FirstBestIff(registry, body, direction, j);
    assert Outranks(registry, i, j);
  }
}
