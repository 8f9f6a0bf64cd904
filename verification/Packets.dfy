/** Hoppie `/data2/` packets and NATS subjects: printers and bounded-split parsers. */
module Packets {
  import opened Common
  import opened Text

  // ---------------------------------------------------------------------
  // Hoppie CPDLC packets
  // ---------------------------------------------------------------------

  datatype Packet = Packet(min: string, mrn: Option<string>, responseAttr: string, body: string)

  const PREFIX := "/data2/"

  function MrnText(mrn: Option<string>): string {
    if mrn.Some? then mrn.value else ""
  }

  function Fields(p: Packet): string {
    Glue(p.min, '/', Glue(MrnText(p.mrn), '/', Glue(p.responseAttr, '/', p.body)))
  }

  function Format(p: Packet): string {
    PREFIX + Fields(p)
  }

  function Parse(text: string): Option<Packet> {
    match StripPrefix(Trim(text), PREFIX)
    case None => None
    case Some(data) =>
      var parts := SplitN(data, '/', 4);
      if |parts| < 3 then None
      else Some(Packet(parts[0],
                       if parts[1] != "" then Some(parts[1]) else None,
                       parts[2],
                       if |parts| > 3 then parts[3] else ""))
  }

  /** The fields a packet can carry through the wire format. */
  predicate Printable(p: Packet) {
    && '/' !in p.min && '/' !in MrnText(p.mrn) && '/' !in p.responseAttr
    && p.mrn != Some("")
    && (p.body != "" ==> !IsWhite(p.body[|p.body| - 1]))
  }

  lemma LastOfFields(p: Packet)
    ensures Fields(p) != []
    ensures Fields(p)[|Fields(p)| - 1] == if p.body == "" then '/' else p.body[|p.body| - 1]
  {
    var inner := Glue(p.responseAttr, '/', p.body);
    var middle := Glue(MrnText(p.mrn), '/', inner);
    assert middle[|middle| - 1] == inner[|inner| - 1];
    assert Fields(p)[|Fields(p)| - 1] == middle[|middle| - 1];
  }

  /** A printed packet loses something to trimming if and only if its body ends in blanks. */
  lemma TrimFormat(p: Packet)
    ensures |Trim(Format(p))| <= |Format(p)|
    ensures PREFIX <= Trim(Format(p))
    ensures Trim(Format(p)) == Format(p) <==> (p.body != "" ==> !IsWhite(p.body[|p.body| - 1]))
    ensures |Trim(Format(p))| == |Format(p)| <==> Trim(Format(p)) == Format(p)
  {
    LastOfFields(p);
    var text := Format(p);
    assert text[0] == PREFIX[0] == '/';
    assert TrimStart(text) == text;
    assert text[|text| - 1] == Fields(p)[|Fields(p)| - 1];
    assert text[6] == PREFIX[6] == '/';
    TrimEndKeeps(text, 6);
    var trail := TrimEndIs(text);
    assert PREFIX == text[..7];
  }

  lemma SplitFields(p: Packet)
    requires '/' !in p.min && '/' !in MrnText(p.mrn) && '/' !in p.responseAttr
    ensures SplitN(Fields(p), '/', 4) == [p.min, MrnText(p.mrn), p.responseAttr, p.body]
  {
    var inner := Glue(p.responseAttr, '/', p.body);
    SplitNFirst(p.min, '/', Glue(MrnText(p.mrn), '/', inner), 4);
    SplitNFirst(MrnText(p.mrn), '/', inner, 3);
    SplitNFirst(p.responseAttr, '/', p.body, 2);
    assert SplitN(p.body, '/', 1) == [p.body];
    assert SplitN(inner, '/', 2) == [p.responseAttr, p.body];
    assert SplitN(Glue(MrnText(p.mrn), '/', inner), '/', 3) == [MrnText(p.mrn), p.responseAttr, p.body];
  }

  /** Parsing gives a printed packet back if and only if its fields are printable. */
  lemma PacketRoundTripIff(p: Packet)
    ensures Parse(Format(p)) == Some(p) <==> Printable(p)
  {
    TrimFormat(p);
    if Printable(p) {
      SplitFields(p);
      assert Format(p)[|PREFIX|..] == Fields(p);
    }
    if Parse(Format(p)) == Some(p) {
      OnlyPrintable(p);
    }
  }

  /** What the parsed fields say about the text they were cut from. */
  lemma PartsOf(p: Packet, data: string)
    requires StripPrefix(Trim(Format(p)), PREFIX) == Some(data) && Parse(Format(p)) == Some(p)
    ensures '/' !in p.min && '/' !in MrnText(p.mrn) && p.mrn != Some("")
    ensures |SplitN(data, '/', 4)| == 4 ==> '/' !in p.responseAttr && |data| == |Fields(p)|
    ensures |SplitN(data, '/', 4)| == 3 ==> '/' !in p.responseAttr && p.body == ""
    ensures 3 <= |SplitN(data, '/', 4)| <= 4
  {
    var parts := SplitN(data, '/', 4);
    SplitNParts(data, '/', 4);
    assert parts[0] == p.min && parts[1] == MrnText(p.mrn) && parts[2] == p.responseAttr;
    if |parts| == 4 {
      assert parts == [p.min, MrnText(p.mrn), p.responseAttr, p.body];
      SplitNJoins(data, '/', 4);
      JoinFour(p.min, MrnText(p.mrn), p.responseAttr, p.body, '/');
    }
  }

  lemma OnlyPrintable(p: Packet)
    requires Parse(Format(p)) == Some(p)
    ensures Printable(p)
  {
    TrimFormat(p);
    var data := Trim(Format(p))[|PREFIX|..];
    PartsOf(p, data);
  }

  /** The text of a packet, with or without its last field, blanks around it aside. */
  ghost predicate Spells(text: string, p: Packet) {
    && '/' !in p.min && '/' !in MrnText(p.mrn) && '/' !in p.responseAttr && p.mrn != Some("")
    && (Trim(text) == "/data2/" + (p.min + "/" + (MrnText(p.mrn) + "/" + (p.responseAttr + "/" + p.body)))
        || (p.body == "" && Trim(text) == "/data2/" + (p.min + "/" + (MrnText(p.mrn) + "/" + p.responseAttr))))
  }

  /** A text is parsed to a packet exactly if it spells it. */
  lemma ParseIff(text: string, p: Packet)
    ensures Parse(text) == Some(p) <==> Spells(text, p)
  {
    if Parse(text) == Some(p) { ParsedIsSpelled(text, p); }
    if Spells(text, p) { SpelledIsParsed(text, p); }
  }

  lemma ParsedIsSpelled(text: string, p: Packet)
    requires Parse(text) == Some(p)
    ensures Spells(text, p)
  {
    var data := Trim(text)[|PREFIX|..];
    var parts := SplitN(data, '/', 4);
    SplitNJoins(data, '/', 4);
    SplitNParts(data, '/', 4);
    assert Trim(text) == PREFIX + data;
    if |parts| == 4 {
      assert parts == [p.min, MrnText(p.mrn), p.responseAttr, p.body];
      JoinFour(p.min, MrnText(p.mrn), p.responseAttr, p.body, '/');
      assert data == p.min + "/" + (MrnText(p.mrn) + "/" + (p.responseAttr + "/" + p.body));
    } else {
      assert parts == [p.min, MrnText(p.mrn), p.responseAttr];
      JoinThree(p.min, MrnText(p.mrn), p.responseAttr, '/');
      assert data == p.min + "/" + (MrnText(p.mrn) + "/" + p.responseAttr);
    }
  }

  lemma SpelledIsParsed(text: string, p: Packet)
    requires Spells(text, p)
    ensures Parse(text) == Some(p)
  {
    var data := Trim(text)[7..];
    assert PREFIX <= Trim(text);
    if data == p.min + "/" + (MrnText(p.mrn) + "/" + (p.responseAttr + "/" + p.body)) {
      assert data == Fields(p);
      SplitFields(p);
    } else {
      assert data == Glue(p.min, '/', Glue(MrnText(p.mrn), '/', p.responseAttr));
      SplitNFirst(p.min, '/', Glue(MrnText(p.mrn), '/', p.responseAttr), 4);
      SplitNFirst(MrnText(p.mrn), '/', p.responseAttr, 3);
      SplitOnceGlues(p.responseAttr, '/');
      assert SplitN(p.responseAttr, '/', 2) == [p.responseAttr];
    }
  }

  // ---------------------------------------------------------------------
  // NATS subjects
  // ---------------------------------------------------------------------

  const ROOT := "openlink"

  const VERSION := "v1"

  function Subject(network: string, kind: string, address: string): string {
    Glue(ROOT, '.', Glue(VERSION, '.', Glue(network, '.', Glue(kind, '.', address))))
  }

  function Outbox(network: string, address: string): string {
    Subject(network, "outbox", address)
  }

  function Inbox(network: string, address: string): string {
    Subject(network, "inbox", address)
  }

  function ParseKind(subject: string, kind: string): Option<string> {
    var parts := SplitN(subject, '.', 5);
    if |parts| == 5 && parts[0] == ROOT && parts[3] == kind then Some(parts[4]) else None
  }

  function ParseOutboxSender(subject: string): Option<string> {
    ParseKind(subject, "outbox")
  }

  function ParseInboxRecipient(subject: string): Option<string> {
    ParseKind(subject, "inbox")
  }

  /** Parsing a subject looks at the three parts after the version. */
  lemma ParseLooksAt(network: string, kind: string, address: string, want: string)
    ensures var last := SplitN(Glue(network, '.', Glue(kind, '.', address)), '.', 3);
            ParseKind(Subject(network, kind, address), want)
            == if |last| == 3 && last[1] == want then Some(last[2]) else None
  {
    var tail := Glue(network, '.', Glue(kind, '.', address));
    SplitNFirst(ROOT, '.', Glue(VERSION, '.', tail), 5);
    SplitNFirst(VERSION, '.', tail, 4);
    var parts, last := SplitN(Subject(network, kind, address), '.', 5), SplitN(tail, '.', 3);
    assert parts == [ROOT] + ([VERSION] + last);
    assert |last| == 3 ==> parts[3] == last[1] && parts[4] == last[2];
  }

  lemma DotFreeParts(network: string, kind: string, address: string)
    requires '.' !in network && '.' !in kind
    ensures SplitN(Glue(network, '.', Glue(kind, '.', address)), '.', 3) == [network, kind, address]
  {
    SplitNFirst(network, '.', Glue(kind, '.', address), 3);
    SplitNFirst(kind, '.', address, 2);
  }

  /**
    A subject parses back to its address if and only if the network name holds
    no dot; the kind is any dot-free word.
  */
  lemma SubjectRoundTripIff(network: string, kind: string, address: string)
    requires '.' !in kind
    ensures ParseKind(Subject(network, kind, address), kind) == Some(address) <==> '.' !in network
  {
    ParseLooksAt(network, kind, address, kind);
    if '.' !in network {
      DotFreeParts(network, kind, address);
    }
    var rest := Glue(kind, '.', address);
    var last := SplitN(Glue(network, '.', rest), '.', 3);
    if |last| == 3 && last[1] == kind && last[2] == address {
      SplitNJoins(Glue(network, '.', rest), '.', 3);
      SplitNParts(Glue(network, '.', rest), '.', 3);
      assert last == [last[0], kind, address];
      JoinThree(last[0], kind, address, '.');
      GlueInjective(network, last[0], '.', rest, rest);
    }
  }

  /** The text is a subject of the kind: any version, a dot-free network, and everything behind the kind. */
  ghost predicate Names(subject: string, kind: string, address: string) {
    exists version, network ::
      IsSubject(subject, version, network, kind, address)
  }

  predicate IsSubject(subject: string, version: string, network: string, kind: string, address: string) {
    && '.' !in version && '.' !in network
    && subject == Glue("openlink", '.', Glue(version, '.', Glue(network, '.', Glue(kind, '.', address))))
  }

  /** A text is parsed to an address exactly if it is a subject of that kind for it. */
  lemma ParseKindIff(subject: string, kind: string, address: string)
    requires '.' !in kind
    ensures ParseKind(subject, kind) == Some(address) <==> Names(subject, kind, address)
  {
    if ParseKind(subject, kind) == Some(address) {
      var parts := SplitN(subject, '.', 5);
      SplitNJoins(subject, '.', 5);
      SplitNParts(subject, '.', 5);
      var last := parts[1..];
      assert Join(parts, '.') == Glue(parts[0], '.', Join(last, '.'));
      assert last == [parts[1], parts[2], kind, address];
      JoinFour(parts[1], parts[2], kind, address, '.');
      assert IsSubject(subject, parts[1], parts[2], kind, address);
    }
    if version, network :| IsSubject(subject, version, network, kind, address) {
      SplitNFirst("openlink", '.', Glue(version, '.', Glue(network, '.', Glue(kind, '.', address))), 5);
      SplitNFirst(version, '.', Glue(network, '.', Glue(kind, '.', address)), 4);
      DotFreeParts(network, kind, address);
    }
  }

  /** The part of a text before its first dot. */
  function FirstLabel(s: string): string {
    match SplitOnce(s, '.')
    case None => s
    case Some((head, _)) => head
  }

  /** The second label of a dotted network name. */
  function SecondLabel(network: string): Option<string> {
    match SplitOnce(network, '.')
    case None => None
    case Some((_, rest)) => Some(FirstLabel(rest))
  }

  lemma FirstOfTwo(s: string, rest: string)
    ensures SplitN(Glue(s, '.', rest), '.', 2)[0] == FirstLabel(s)
    ensures |SplitN(Glue(s, '.', rest), '.', 2)| == 2
  {
    SplitOnceGlues(s, '.');
    match SplitOnce(s, '.')
    case None => SplitNFirst(s, '.', rest, 2);
    case Some((head, tail)) =>
      GlueAssociates(head, '.', tail, '.', rest);
      SplitNFirst(head, '.', Glue(tail, '.', rest), 2);
  }

  /**
    A subject of one kind is taken for the other if and only if the second
    label of its network name happens to be that kind.
  */
  lemma WrongKindIff(network: string, kind: string, other: string, address: string)
    requires '.' !in kind && kind != other
    ensures ParseKind(Subject(network, kind, address), other).Some? <==> SecondLabel(network) == Some(other)
  {
    var rest := Glue(kind, '.', address);
    ParseLooksAt(network, kind, address, other);
    SplitOnceGlues(network, '.');
    match SplitOnce(network, '.')
    case None => DotFreeParts(network, kind, address);
    case Some((head, tail)) =>
      GlueAssociates(head, '.', tail, '.', rest);
      SplitNFirst(head, '.', Glue(tail, '.', rest), 3);
      FirstOfTwo(tail, rest);
  }

  /** For dot-free networks neither parser ever accepts the other kind, and both are inverses. */
  lemma SubjectsAreInverse(network: string, address: string)
    requires '.' !in network
    ensures IsSubject(Outbox(network, address), "v1", network, "outbox", address)
    ensures IsSubject(Inbox(network, address), "v1", network, "inbox", address)
    ensures ParseOutboxSender(Outbox(network, address)) == Some(address)
    ensures ParseInboxRecipient(Inbox(network, address)) == Some(address)
    ensures ParseOutboxSender(Inbox(network, address)) == None
    ensures ParseInboxRecipient(Outbox(network, address)) == None
  {
    SubjectRoundTripIff(network, "outbox", address);
    SubjectRoundTripIff(network, "inbox", address);
    WrongKindIff(network, "outbox", "inbox", address);
    WrongKindIff(network, "inbox", "outbox", address);
    assert SplitOnce(network, '.').None?;
    assert |"outbox"| != |"inbox"|;
  }
}
