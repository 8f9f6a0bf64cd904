/**
  The Hoppie poll response: message blocks in braces, found by counting
  braces. `lower` is the lower-casing applied to the type word; any function
  will do. Text is modelled as characters, the program scans its bytes.
*/
module HoppiePoll {
  import opened Common
  import opened Text

  datatype MessageType = Cpdlc | Telex | Other(name: string)

  datatype HoppieMessage = HoppieMessage(from: string, msgType: MessageType, packet: string)

  function TypeFrom(word: string, lower: Casing): MessageType {
    var w := lower(word);
    if w == "cpdlc" then Cpdlc else if w == "telex" then Telex else Other(w)
  }

  function TypeText(t: MessageType): string {
    match t
    case Cpdlc => "cpdlc"
    case Telex => "telex"
    case Other(name) => name
  }

  // ---------------------------------------------------------------------
  // Parsing
  // ---------------------------------------------------------------------

  /** Brace depth after one more character. */
  function Deeper(depth: int, c: char): int {
    if c == '{' then depth + 1 else if c == '}' then depth - 1 else depth
  }

  /** Where the depth, `depth` before the text, first reaches zero. */
  function Closing(s: string, depth: int): (r: Option<nat>)
    ensures r.Some? ==> r.value < |s| && s[r.value] == '}'
    requires depth > 0
  {
    if s == [] then None
    else if Deeper(depth, s[0]) == 0 then Some(0)
    else
      match Closing(s[1..], Deeper(depth, s[0]))
      case Some(p) => Some(p + 1)
      case None => None
  }

  function SkipBlanks(s: string): (r: string)
    ensures |r| <= |s|
  {
    if s != [] && (s[0] == ' ' || s[0] == '\n') then SkipBlanks(s[1..]) else s
  }

  function ParseBlock(block: string, lower: Casing): Option<HoppieMessage> {
    match SplitOnce(block, ' ')
    case None => None
    case Some((from, rest)) =>
      match SplitOnce(rest, ' ')
      case None => None
      case Some((word, raw)) => Some(HoppieMessage(from, TypeFrom(word, lower), Unwrapped(Trim(raw))))
  }

  /** Without the surrounding braces, if there are both. */
  function Unwrapped(raw: string): string {
    if |raw| >= 2 && raw[0] == '{' && raw[|raw| - 1] == '}' then raw[1..|raw| - 1] else raw
  }

  function ParsedBlock(block: string, lower: Casing): seq<HoppieMessage> {
    match ParseBlock(Trim(block), lower)
    case Some(m) => [m]
    case None => []
  }

  /** The inside of the first block and what follows it, if a complete block comes next. */
  function NextBlock(s: string): (r: Option<(string, string)>)
    ensures r.Some? ==> |r.value.1| < |s|
  {
    var t := SkipBlanks(s);
    if t == [] || t[0] != '{' then None
    else
      match Closing(t[1..], 1)
      case None => None
      case Some(end) => Some((t[1..][..end], t[1..][end + 1..]))
  }

  /** The messages of a text; it stops at the first thing that is not a complete block. */
  function ParseBlocks(s: string, lower: Casing): seq<HoppieMessage>
    decreases |s|
  {
    match NextBlock(s)
    case None => []
    case Some((inside, rest)) => ParsedBlock(inside, lower) + ParseBlocks(rest, lower)
  }

  function ParsePoll(body: string, lower: Casing): Result<seq<HoppieMessage>> {
    var b := Trim(body);
    if b == "ok" || b == "ok {}" then Ok([])
    else if !("ok" <= b) then Err("unexpected Hoppie response")
    else Ok(ParseBlocks(Trim(b[2..]), lower))
  }

  /** The scanning loop of the program. */
  method FindClosing(s: string) returns (r: Option<nat>)
    ensures r == Closing(s, 1)
  {
    var depth := 1;
    var i := 0;
    while i < |s|
      invariant 0 <= i <= |s| && depth > 0
      invariant Closing(s, 1) == match Closing(s[i..], depth) case Some(p) => Some(p + i) case None => None
    {
      assert s[i..][1..] == s[i + 1..];
      if s[i] == '{' {
        depth := depth + 1;
      } else if s[i] == '}' {
        depth := depth - 1;
        if depth == 0 {
          return Some(i);
        }
      }
      i := i + 1;
    }
    r := None;
  }

  method SkipLeadingBlanks(s: string) returns (r: string)
    ensures r == SkipBlanks(s)
  {
    r := s;
    while r != [] && (r[0] == ' ' || r[0] == '\n')
      invariant SkipBlanks(r) == SkipBlanks(s)
      decreases |r|
    {
      r := r[1..];
    }
  }

  method TakeBlock(remaining: string) returns (r: Option<(string, string)>)
    ensures r == NextBlock(remaining)
  {
    var trimmed := SkipLeadingBlanks(remaining);
    if trimmed == [] {
      return None;
    }
    if trimmed[0] != '{' {
      return None;
    }
    var inner := trimmed[1..];
    var end := FindClosing(inner);
    if end.None? {
      return None;
    }
    r := Some((inner[..end.value], inner[end.value + 1..]));
  }

  /** The block loop of the program. */
  method ParseContent(content: string, lower: Casing) returns (messages: seq<HoppieMessage>)
    ensures messages == ParseBlocks(content, lower)
  {
    messages := [];
    var remaining := content;
    while remaining != []
      invariant messages + ParseBlocks(remaining, lower) == ParseBlocks(content, lower)
      decreases |remaining|
    {
      var block := TakeBlock(remaining);
      if block.None? {
        return;
      }
      var inside, rest := block.value.0, block.value.1;
      assert ParseBlocks(remaining, lower) == ParsedBlock(inside, lower) + ParseBlocks(rest, lower);
      Regroup(messages, ParsedBlock(inside, lower), ParseBlocks(rest, lower));
      messages := messages + ParsedBlock(inside, lower);
      remaining := rest;
    }
  }

  lemma Regroup(a: seq<HoppieMessage>, b: seq<HoppieMessage>, c: seq<HoppieMessage>)
    ensures a + (b + c) == (a + b) + c
  {}

  method ParsePollResponse(body: string, lower: Casing) returns (r: Result<seq<HoppieMessage>>)
    ensures r == ParsePoll(body, lower)
  {
    var b := Trim(body);
    if b == "ok" || b == "ok {}" {
      return Ok([]);
    }
    if !("ok" <= b) {
      return Err("unexpected Hoppie response");
    }
    var messages := ParseContent(Trim(b[2..]), lower);
    r := Ok(messages);
  }

  // ---------------------------------------------------------------------
  // Printing, and the round trip
  // ---------------------------------------------------------------------

  function Inside(m: HoppieMessage): string {
    Glue(m.from, ' ', Glue(TypeText(m.msgType), ' ', "{" + m.packet + "}"))
  }

  /** `blanks` stand before the blocks; there are as many as messages. */
  function PrintBlocks(ms: seq<HoppieMessage>, blanks: seq<string>): string
    requires |ms| == |blanks|
  {
    if ms == [] then "" else blanks[0] + BlockThen(ms[0], PrintBlocks(ms[1..], blanks[1..]))
  }

  function BlockThen(m: HoppieMessage, rest: string): (s: string)
    ensures |s| == |Inside(m)| + 2 + |rest| && s[0] == '{'
    ensures s[|s| - 1] == if rest == "" then '}' else rest[|rest| - 1]
  {
    "{" + (Inside(m) + ("}" + rest))
  }

  predicate Blank(s: string) {
    forall i :: 0 <= i < |s| ==> s[i] == ' ' || s[i] == '\n'
  }

  predicate NoBraces(s: string) {
    '{' !in s && '}' !in s
  }

  /** Every closing brace matches an earlier one, `depth` of them before the text. */
  predicate Balanced(s: string, depth: nat) {
    if s == [] then depth == 0
    else if s[0] == '{' then Balanced(s[1..], depth + 1)
    else if s[0] == '}' then depth > 0 && Balanced(s[1..], depth - 1)
    else Balanced(s[1..], depth)
  }

  /** Lower-casing leaves the type word as it is, and a word with a meaning of its own names no other type. */
  predicate Readable(t: MessageType, lower: Casing) {
    match t
    case Cpdlc => lower("cpdlc") == "cpdlc"
    case Telex => lower("telex") == "telex"
    case Other(name) => lower(name) == name && name != "cpdlc" && name != "telex"
  }

  /** A type is read back from its word exactly if it is readable. */
  lemma TypeRoundTripIff(t: MessageType, lower: Casing)
    ensures TypeFrom(TypeText(t), lower) == t <==> Readable(t, lower)
  {}

  predicate Sendable(m: HoppieMessage, lower: Casing) {
    && m.from != "" && !IsWhite(m.from[0]) && ' ' !in m.from && NoBraces(m.from)
    && ' ' !in TypeText(m.msgType) && NoBraces(TypeText(m.msgType)) && Readable(m.msgType, lower)
    && Balanced(m.packet, 0)
  }

  lemma {:induction false} BalancedAppend(s: string, t: string, k: nat, n: nat)
    requires Balanced(s, k)
    ensures Balanced(s + t, k + n) == Balanced(t, n)
  {
    if s == [] {
      assert s + t == t;
    } else {
      assert (s + t)[1..] == s[1..] + t;
      var k' := if s[0] == '{' then k + 1 else if s[0] == '}' then k - 1 else k;
      BalancedAppend(s[1..], t, k', n);
    }
  }

  lemma {:induction false} PlainIsBalanced(s: string)
    requires NoBraces(s)
    ensures Balanced(s, 0)
  {
    if s != [] {
      assert s[0] in s;
      PlainIsBalanced(s[1..]);
    }
  }

  function Later(at: Option<nat>, n: nat): Option<nat> {
    match at
    case Some(p) => Some(p + n)
    case None => None
  }

  /** A text that closes all that it opens, and `k` more, is passed over. */
  lemma {:induction false} ClosingSkips(s: string, t: string, all: string, k: nat, depth: int)
    requires all == s + t && Balanced(s, k) && depth > 0
    ensures Closing(all, depth + k) == Later(Closing(t, depth), |s|)
  {
    if s == [] {
      assert all == t;
    } else {
      assert all[0] == s[0] && all[1..] == s[1..] + t;
      ClosingSkips(s[1..], t, all[1..], Deeper(k, s[0]), depth);
    }
  }

  lemma WrappedIsBalanced(packet: string)
    requires Balanced(packet, 0)
    ensures Balanced("{" + packet + "}", 0)
  {
    var s := "{" + packet + "}";
    assert s[1..] == packet + "}";
    BalancedAppend(packet, "}", 0, 1);
    assert "}"[1..] == "";
  }

  lemma GlueIsBalanced(a: string, b: string)
    requires Balanced(a, 0) && Balanced(b, 0)
    ensures Balanced(Glue(a, ' ', b), 0)
  {
    BalancedAppend(a, " " + b, 0, 0);
    assert (" " + b)[1..] == b;
    assert Glue(a, ' ', b) == a + (" " + b);
  }

  lemma InsideIsBalanced(m: HoppieMessage, lower: Casing)
    requires Sendable(m, lower)
    ensures Balanced(Inside(m), 0)
  {
    WrappedIsBalanced(m.packet);
    PlainIsBalanced(TypeText(m.msgType));
    PlainIsBalanced(m.from);
    GlueIsBalanced(TypeText(m.msgType), "{" + m.packet + "}");
    GlueIsBalanced(m.from, Glue(TypeText(m.msgType), ' ', "{" + m.packet + "}"));
  }

  lemma TrimmedStays(s: string)
    requires s != [] && !IsWhite(s[0]) && !IsWhite(s[|s| - 1])
    ensures Trim(s) == s
  {
  }

  function Wrapped(packet: string): string {
    "{" + packet + "}"
  }

  lemma InsideIsTrimmed(m: HoppieMessage, lower: Casing)
    requires Sendable(m, lower)
    ensures Trim(Inside(m)) == Inside(m)
  {
    var inside := Inside(m);
    var tail := Glue(TypeText(m.msgType), ' ', Wrapped(m.packet));
    assert inside[0] == m.from[0];
    assert tail[|tail| - 1] == '}';
    assert inside[|inside| - 1] == '}';
    TrimmedStays(inside);
  }

  lemma WrappedIsUnwrapped(packet: string)
    ensures Unwrapped(Trim(Wrapped(packet))) == packet
  {
    var wrapped := Wrapped(packet);
    assert wrapped[|wrapped| - 1] == '}';
    TrimmedStays(wrapped);
    assert wrapped[1..|wrapped| - 1] == packet;
  }

  lemma BlockRoundTrip(m: HoppieMessage, lower: Casing)
    requires Sendable(m, lower)
    ensures ParsedBlock(Inside(m), lower) == [m]
  {
    InsideIsTrimmed(m, lower);
    WrappedIsUnwrapped(m.packet);
    SplitOnceIs(m.from, ' ', Glue(TypeText(m.msgType), ' ', Wrapped(m.packet)));
    SplitOnceIs(TypeText(m.msgType), ' ', Wrapped(m.packet));
    TypeRoundTripIff(m.msgType, lower);
  }

  lemma {:induction false} BlanksAreSkipped(blanks: string, s: string)
    requires Blank(blanks) && (s == [] || (s[0] != ' ' && s[0] != '\n'))
    ensures SkipBlanks(blanks + s) == s
  {
    if blanks == [] {
      assert blanks + s == s;
    } else {
      assert (blanks + s)[1..] == blanks[1..] + s;
      BlanksAreSkipped(blanks[1..], s);
    }
  }

  lemma NextBlockIs(blanks: string, m: HoppieMessage, rest: string, lower: Casing)
    requires Sendable(m, lower) && Blank(blanks)
    ensures NextBlock(blanks + BlockThen(m, rest)) == Some((Inside(m), rest))
  {
    InsideIsBalanced(m, lower);
    BalancedBlock(blanks, Inside(m), rest);
  }

  lemma BalancedBlock(blanks: string, inside: string, rest: string)
    requires Blank(blanks) && Balanced(inside, 0)
    ensures NextBlock(blanks + ("{" + (inside + ("}" + rest)))) == Some((inside, rest))
  {
    var after := inside + ("}" + rest);
    BlanksAreSkipped(blanks, "{" + after);
    assert Closing(after, 1) == Some(|inside|) by {
      ClosingSkips(inside, "}" + rest, after, 0, 1);
      assert Closing("}" + rest, 1) == Some(0);
    }
    CutInside(inside, rest);
    NextBlockAt(blanks + ("{" + after), after, |inside|);
  }

  lemma NextBlockAt(s: string, after: string, end: nat)
    requires SkipBlanks(s) == "{" + after && Closing(after, 1) == Some(end)
    ensures NextBlock(s) == Some((after[..end], after[end + 1..]))
  {
    assert ("{" + after)[1..] == after;
  }

  lemma CutInside(inside: string, rest: string)
    ensures (inside + ("}" + rest))[..|inside|] == inside
    ensures (inside + ("}" + rest))[|inside| + 1..] == rest
  {}

  lemma {:induction false} OneBlock(blanks: string, m: HoppieMessage, rest: string, lower: Casing)
    requires Sendable(m, lower) && Blank(blanks)
    ensures ParseBlocks(blanks + BlockThen(m, rest), lower) == [m] + ParseBlocks(rest, lower)
  {
    NextBlockIs(blanks, m, rest, lower);
    BlockRoundTrip(m, lower);
  }

  predicate AllSendable(ms: seq<HoppieMessage>, blanks: seq<string>, lower: Casing) {
    |ms| == |blanks| && forall i :: 0 <= i < |ms| ==> Sendable(ms[i], lower) && Blank(blanks[i])
  }

  lemma {:induction false} BlocksRoundTrip(ms: seq<HoppieMessage>, blanks: seq<string>, lower: Casing)
    requires AllSendable(ms, blanks, lower)
    ensures ParseBlocks(PrintBlocks(ms, blanks), lower) == ms
  {
    if ms != [] {
      OneBlock(blanks[0], ms[0], PrintBlocks(ms[1..], blanks[1..]), lower);
      BlocksRoundTrip(ms[1..], blanks[1..], lower);
      assert ms == [ms[0]] + ms[1..];
    }
  }

  function Print(ms: seq<HoppieMessage>, blanks: seq<string>): string
    requires |ms| == |blanks|
  {
    "ok " + PrintBlocks(ms, blanks)
  }

  lemma {:induction false} PrintBlocksEnds(ms: seq<HoppieMessage>, blanks: seq<string>)
    requires |ms| == |blanks| > 0
    ensures var s := PrintBlocks(ms, blanks); |s| > 4 && s[|s| - 1] == '}'
  {
    var rest := PrintBlocks(ms[1..], blanks[1..]);
    if |ms| > 1 {
      PrintBlocksEnds(ms[1..], blanks[1..]);
    }
    var block := BlockThen(ms[0], rest);
    assert PrintBlocks(ms, blanks)[|PrintBlocks(ms, blanks)| - 1] == block[|block| - 1];
  }

  /**
    The parser inverts printing, for every list of messages with plain sender
    and type words and brace-balanced packets, and any blanks between blocks.
  */
  lemma PollRoundTrip(ms: seq<HoppieMessage>, blanks: seq<string>, lower: Casing)
    requires AllSendable(ms, blanks, lower)
    ensures ParsePoll(Print(ms, blanks), lower) == Ok(ms)
  {
    var s := PrintBlocks(ms, blanks);
    var body := "ok " + s;
    if ms == [] {
      TrimAfter("ok", " ");
      assert body == "ok" + " ";
    } else {
      PrintBlocksEnds(ms, blanks);
      assert body[|body| - 1] == s[|s| - 1];
      BodyTrims(s);
      ContentRoundTrip(" ", ms, blanks, lower);
    }
  }

  lemma BodyTrims(s: string)
    requires |s| > 4 && s[|s| - 1] == '}'
    ensures var b := Trim("ok " + s);
            b != "ok" && b != "ok {}" && "ok" <= b && b[2..] == " " + s
  {
    var body := "ok " + s;
    assert body[0] == 'o' && body[|body| - 1] == '}';
    TrimmedStays(body);
    assert body[..2] == "ok";
    assert |body| > 5;
  }

  lemma BlockThenTrimmed(m: HoppieMessage, rest: string)
    requires rest == "" || rest[|rest| - 1] == '}'
    ensures Trim(BlockThen(m, rest)) == BlockThen(m, rest)
  {
    TrimmedStays(BlockThen(m, rest));
  }

  lemma TrimPadBefore(pad: string, core: string)
    requires AllWhite(pad) && Trim(core) == core
    ensures Trim(pad + core) == core
  {
    TrimStartPadded(pad, core);
  }

  /** Trimming the content only takes away blanks before the first block. */
  lemma TrimContent(pad: string, blanks: string, m: HoppieMessage, rest: string)
    requires Blank(blanks) && AllWhite(pad)
    requires rest == "" || rest[|rest| - 1] == '}'
    ensures Trim(pad + (blanks + BlockThen(m, rest))) == BlockThen(m, rest)
  {
    Reassociate(pad, blanks, BlockThen(m, rest));
    BlockThenTrimmed(m, rest);
    TrimPadBefore(pad + blanks, BlockThen(m, rest));
  }

  lemma {:induction false} BareBlock(m: HoppieMessage, rest: string, lower: Casing)
    requires Sendable(m, lower)
    ensures ParseBlocks(BlockThen(m, rest), lower) == [m] + ParseBlocks(rest, lower)
  {
    OneBlock("", m, rest, lower);
    assert "" + BlockThen(m, rest) == BlockThen(m, rest);
  }

  lemma RestEnds(ms: seq<HoppieMessage>, blanks: seq<string>)
    requires |ms| == |blanks|
    ensures var rest := PrintBlocks(ms, blanks); rest == "" || rest[|rest| - 1] == '}'
  {
    if ms != [] { PrintBlocksEnds(ms, blanks); }
  }

  lemma {:induction false} ContentRoundTrip(pad: string, ms: seq<HoppieMessage>, blanks: seq<string>, lower: Casing)
    requires AllSendable(ms, blanks, lower) && ms != [] && AllWhite(pad)
    ensures ParseBlocks(Trim(pad + PrintBlocks(ms, blanks)), lower) == ms
  {
    var m, ms', blanks' := ms[0], ms[1..], blanks[1..];
    var rest := PrintBlocks(ms', blanks');
    RestEnds(ms', blanks');
    TrimContent(pad, blanks[0], m, rest);
    BareBlock(m, rest, lower);
    BlocksRoundTrip(ms', blanks', lower);
    assert ms == [m] + ms';
  }

  // ---------------------------------------------------------------------
  // Any content
  // ---------------------------------------------------------------------

  lemma {:induction false} ClosedIsBalanced(s: string, depth: int)
    requires depth > 0 && Closing(s, depth).Some?
    ensures Balanced(s[..Closing(s, depth).value], depth - 1)
  {
    var end := Closing(s, depth).value;
    if Deeper(depth, s[0]) != 0 {
      ClosedIsBalanced(s[1..], Deeper(depth, s[0]));
      assert s[..end][1..] == s[1..][..end - 1];
    }
  }

  lemma {:induction false} SkippedAreBlank(s: string) returns (blanks: string)
    ensures Blank(blanks) && s == blanks + SkipBlanks(s)
  {
    blanks := "";
    if s != [] && (s[0] == ' ' || s[0] == '\n') {
      var more := SkippedAreBlank(s[1..]);
      blanks := [s[0]] + more;
    }
  }

  predicate IsBlock(s: string, blanks: string, inside: string, rest: string) {
    Blank(blanks) && Balanced(inside, 0) && s == blanks + ("{" + (inside + ("}" + rest)))
  }

  /** The next block of any text stands between its first brace, after blanks only, and the brace that closes it. */
  lemma {:induction false} NextBlockIff(s: string, inside: string, rest: string)
    ensures NextBlock(s) == Some((inside, rest)) <==> exists blanks :: IsBlock(s, blanks, inside, rest)
  {
    if NextBlock(s) == Some((inside, rest)) {
      var blanks := SkippedAreBlank(s);
      var t := SkipBlanks(s);
      ClosedIsBalanced(t[1..], 1);
      var end := Closing(t[1..], 1).value;
      assert t[1..] == inside + ("}" + rest);
      assert t == "{" + t[1..];
      assert IsBlock(s, blanks, inside, rest);
    }
    if blanks :| IsBlock(s, blanks, inside, rest) { BalancedBlock(blanks, inside, rest); }
  }

  /** Blocks with blanks before each, and something that is not a block behind them. */
  function Blocks(insides: seq<string>, blanks: seq<string>, end: string): string
    requires |insides| == |blanks|
  {
    if insides == [] then end
    else blanks[0] + ("{" + (insides[0] + ("}" + Blocks(insides[1..], blanks[1..], end))))
  }

  predicate AreBlocks(insides: seq<string>, blanks: seq<string>, end: string) {
    && |insides| == |blanks| && NextBlock(end).None?
    && forall i :: 0 <= i < |insides| ==> Balanced(insides[i], 0) && Blank(blanks[i])
  }

  function ReadAll(insides: seq<string>, lower: Casing): seq<HoppieMessage> {
    if insides == [] then [] else ParsedBlock(insides[0], lower) + ReadAll(insides[1..], lower)
  }

  /** The parser reads every block up to the first thing that is none, and keeps what it read. */
  lemma {:induction false} BlocksAreRead(insides: seq<string>, blanks: seq<string>, end: string, lower: Casing)
    requires AreBlocks(insides, blanks, end)
    ensures ParseBlocks(Blocks(insides, blanks, end), lower) == ReadAll(insides, lower)
  {
    if insides != [] {
      BlocksAreRead(insides[1..], blanks[1..], end, lower);
      BalancedBlock(blanks[0], insides[0], Blocks(insides[1..], blanks[1..], end));
    }
  }

  /** Any text is blocks and something behind them. */
  lemma {:induction false} AnyTextIsBlocks(s: string) returns (insides: seq<string>, blanks: seq<string>, end: string)
    ensures AreBlocks(insides, blanks, end) && Blocks(insides, blanks, end) == s
    decreases |s|
  {
    if NextBlock(s).None? {
      insides, blanks, end := [], [], s;
    } else {
      var (inside, rest) := NextBlock(s).value;
      NextBlockIff(s, inside, rest);
      var pad :| IsBlock(s, pad, inside, rest);
      var insides', blanks', end' := AnyTextIsBlocks(rest);
      insides, blanks, end := [inside] + insides', [pad] + blanks', end';
    }
  }

  /** The block consists of two words and a packet, which may stand in braces. */
  ghost predicate Spells(block: string, m: HoppieMessage, word: string, raw: string, lower: Casing) {
    && ' ' !in m.from && ' ' !in word && Trim(block) == Glue(m.from, ' ', Glue(word, ' ', raw))
    && m.msgType == TypeFrom(word, lower)
    && (Trim(raw) == Wrapped(m.packet) || (m.packet == Trim(raw) && forall p :: m.packet != Wrapped(p)))
  }

  /** A block gives a message exactly if it spells one, and nothing otherwise. */
  lemma BlockSpells(block: string, m: HoppieMessage, lower: Casing)
    ensures ParsedBlock(block, lower) == [m] <==> exists word, raw :: Spells(block, m, word, raw, lower)
    ensures ParsedBlock(block, lower) == [] || exists n :: ParsedBlock(block, lower) == [n]
  {
    var b := Trim(block);
    SplitOnceGlues(b, ' ');
    if SplitOnce(b, ' ').Some? {
      var rest := SplitOnce(b, ' ').value.1;
      SplitOnceGlues(rest, ' ');
      if SplitOnce(rest, ' ').Some? {
        var word, raw := SplitOnce(rest, ' ').value.0, SplitOnce(rest, ' ').value.1;
        UnwrappedIs(Trim(raw), m.packet);
        assert ParsedBlock(block, lower) == [m] ==> Spells(block, m, word, raw, lower);
      }
    }
    if word, raw :| Spells(block, m, word, raw, lower) {
      SplitOnceIs(m.from, ' ', Glue(word, ' ', raw));
      SplitOnceIs(word, ' ', raw);
      UnwrappedIs(Trim(raw), m.packet);
    }
  }

  lemma UnwrappedIs(raw: string, packet: string)
    ensures Unwrapped(raw) == packet <==>
            raw == Wrapped(packet) || (packet == raw && forall p :: packet != Wrapped(p))
  {
    if |raw| >= 2 && raw[0] == '{' && raw[|raw| - 1] == '}' {
      assert raw == Wrapped(raw[1..|raw| - 1]);
    }
    if raw == Wrapped(packet) { assert raw[|raw| - 1] == '}' && raw[1..|raw| - 1] == packet; }
    forall p | raw == Wrapped(p) ensures |raw| >= 2 && raw[0] == '{' && raw[|raw| - 1] == '}' {}
  }

  /** An answer fails to parse exactly if it does not begin with `ok`, blanks aside. */
  lemma PollFailsIff(body: string, lower: Casing)
    ensures ParsePoll(body, lower).Err? <==> forall s :: Trim(body) != "ok" + s
  {
    var b := Trim(body);
    if "ok" <= b { assert b == "ok" + b[2..]; }
  }

  /** Otherwise it gives the messages of the blocks behind `ok`, also where there are none. */
  lemma PollReads(body: string, s: string, lower: Casing)
    requires Trim(body) == "ok" + s
    ensures ParsePoll(body, lower) == Ok(ParseBlocks(Trim(s), lower))
  {
    var b := Trim(body);
    assert b[2..] == s;
    if b == "ok {}" {
      assert s == " {}" && Trim(s) == "{}" by { TrimPadBefore(" ", "{}"); }
      BlocksAreRead([""], [""], "", lower);
      assert Blocks([""], [""], "") == "{}";
    }
  }
}
