/**
  What the controller's message log says about one message: which aircraft
  and dialogue it belongs to, whether it closes it, and the card shown for a
  dialogue. Times are in milliseconds.
*/
module DialogueRules {
  import opened Common
  import opened ResponseChoice
  import opened Sequences
  import Text

  type Min = nat

  datatype Payload = Application(ids: seq<string>) | Other

  datatype ReceivedMessage = ReceivedMessage(
    timestamp: int,
    envelope: Option<Payload>,
    from: Option<Callsign>,
    to: Option<Callsign>,
    displayText: Option<string>,
    outgoing: bool,
    min: Option<Min>,
    mrn: Option<Min>,
    responseAttr: Option<Attribute>)

  // ---------------------------------------------------------------------
  // Predicates on messages
  // ---------------------------------------------------------------------

  predicate Mentions(text: Option<string>, word: string) {
    text.Some? && Text.Find(Text.AsciiUpper(text.value), word).Some?
  }

  predicate HasAny(ids: seq<string>, wanted: seq<string>) {
    exists i :: 0 <= i < |ids| && ids[i] in wanted
  }

  const ACKS: seq<string> := ["DM100", "UM227"]

  const STANDBYS: seq<string> := ["DM2", "UM1", "UM2"]

  const CLOSINGS: seq<string> := ["DM0", "DM1", "DM3", "DM4", "DM5", "UM0", "UM3", "UM4", "UM5"]

  predicate IsLogicalAck(m: ReceivedMessage) {
    match m.envelope
    case None => Mentions(m.displayText, "LOGICAL ACKNOWLEDGMENT")
    case Some(payload) => payload.Application? && HasAny(payload.ids, ACKS)
  }

  predicate IsLogonLine(m: ReceivedMessage) {
    Mentions(m.displayText, "LOGON")
  }

  /** A row stored without an envelope whose text is a bare short response. */
  function LocalShortResponse(m: ReceivedMessage): Option<Intent> {
    if m.displayText.None? then None
    else
      var text := Text.AsciiUpper(Text.Trim(m.displayText.value));
      if text == "WILCO" then Some(Wilco)
      else if text == "UNABLE" then Some(Unable)
      else if text == "STANDBY" then Some(Standby)
      else if text == "ROGER" then Some(Roger)
      else if text == "AFFIRM" then Some(Affirm)
      else if text == "NEGATIVE" then Some(Negative)
      else None
  }

  /** At least one closing short response and no standby. */
  predicate ClosesDialogue(ids: seq<string>) {
    HasAny(ids, CLOSINGS) && !HasAny(ids, STANDBYS)
  }

  predicate IsClosing(m: ReceivedMessage) {
    match m.envelope
    case None => var r := LocalShortResponse(m); r.Some? && r.value != Standby
    case Some(payload) => payload.Application? && ClosesDialogue(payload.ids)
  }

  predicate IsStandby(m: ReceivedMessage) {
    match m.envelope
    case None => m.displayText.Some? && Text.AsciiUpper(Text.Trim(m.displayText.value)) == "STANDBY"
    case Some(payload) => payload.Application? && HasAny(payload.ids, STANDBYS)
  }

  const RETENTION_SECONDS := 60

  /** Whole seconds, truncated toward zero. */
  function WholeSeconds(millis: int): int {
    if millis >= 0 then millis / 1000 else -(-millis / 1000)
  }

  predicate IsRecentClosure(m: ReceivedMessage, now: int) {
    IsClosing(m) && WholeSeconds(now - m.timestamp) <= RETENTION_SECONDS
  }

  /** The aircraft of the message: whom it was sent to, or who sent it. */
  function DialogueCallsign(m: ReceivedMessage): Option<Callsign> {
    if m.outgoing then m.to else m.from
  }

  predicate IsCandidate(m: ReceivedMessage) {
    !IsLogicalAck(m) && !IsLogonLine(m) && m.min.Some?
  }

  predicate Contains(text: Option<string>, word: string) {
    text.Some? && exists p :: 0 <= p <= |text.value| && Text.OccursAt(Text.AsciiUpper(text.value), word, p)
  }

  /** Acknowledgements and logon lines belong to no dialogue; every other message with a MIN does. */
  lemma CandidateIff(m: ReceivedMessage)
    ensures IsCandidate(m) <==>
            && m.min.Some?
            && !Contains(m.displayText, "LOGON")
            && !(m.envelope.None? && Contains(m.displayText, "LOGICAL ACKNOWLEDGMENT"))
            && !(m.envelope.Some? && m.envelope.value.Application?
                 && ("DM100" in m.envelope.value.ids || "UM227" in m.envelope.value.ids))
  {
    MentionsIff(m.displayText, "LOGON");
    MentionsIff(m.displayText, "LOGICAL ACKNOWLEDGMENT");
  }

  lemma MentionsIff(text: Option<string>, word: string)
    ensures Mentions(text, word) <==> Contains(text, word)
  {}

  /** A closure is recent for less than 61 seconds. */
  lemma RecentIff(m: ReceivedMessage, now: int)
    ensures IsRecentClosure(m, now) <==> IsClosing(m) && now - m.timestamp < 61_000
  {}

  // ---------------------------------------------------------------------
  // Cards
  // ---------------------------------------------------------------------

  datatype Flag = NoFlag | StandbySince(at: int) | ClosedBy(intent: Intent, positive: bool) | ReceivedAt(at: int)

  datatype PendingDialogue = PendingDialogue(
    aircraft: Callsign,
    actionMin: Option<Min>,
    displayText: string,
    intents: seq<Intent>,
    isY: bool,
    timestamp: int,
    cardClass: string,
    flag: Flag,
    priority: nat)

  predicate Answers(m: ReceivedMessage, min: Min, callsign: Callsign) {
    m.min == Some(min) && !IsLogicalAck(m) && !IsLogonLine(m) && DialogueCallsign(m) == Some(callsign)
  }

  /** The first message of the aircraft with that MIN. */
  function FindByMin(messages: seq<ReceivedMessage>, min: Min, callsign: Callsign): (r: Option<ReceivedMessage>)
    ensures r.Some? ==> Answers(r.value, min, callsign)
  {
    if messages == [] then None
    else
      var earlier := FindByMin(messages[..|messages| - 1], min, callsign);
      var last := messages[|messages| - 1];
      if earlier.None? && Answers(last, min, callsign) then Some(last) else earlier
  }

  /** It is the first one. */
  lemma {:induction false} FindByMinIsFirst(messages: seq<ReceivedMessage>, min: Min, callsign: Callsign)
    ensures match FindByMin(messages, min, callsign)
            case None => forall i :: 0 <= i < |messages| ==> !Answers(messages[i], min, callsign)
            case Some(m) =>
              exists i :: 0 <= i < |messages| && messages[i] == m
                          && forall j :: 0 <= j < i ==> !Answers(messages[j], min, callsign)
  {
    if messages != [] {
      var n := |messages| - 1;
      FindByMinIsFirst(messages[..n], min, callsign);
      assert forall j :: 0 <= j < n ==> messages[..n][j] == messages[j];
    }
  }

  function AddMissing(intents: seq<Intent>, more: seq<Intent>): seq<Intent>
    decreases |more|
  {
    if more == [] then intents
    else AddMissing(if more[0] in intents then intents else intents + [more[0]], more[1..])
  }

  function ResponseIntents(m: ReceivedMessage, table: AttributeTable): seq<Intent> {
    var byAttribute := if m.responseAttr.Some? then ForAttribute(m.responseAttr.value) else [];
    if m.envelope.Some? && m.envelope.value.Application?
    then AddMissing(Choose(m.envelope.value.ids, table), byAttribute)
    else byAttribute
  }

  function FirstOf(wanted: seq<Intent>, intents: seq<Intent>): Option<Intent> {
    if wanted == [] then None
    else if wanted[0] in intents then Some(wanted[0])
    else FirstOf(wanted[1..], intents)
  }

  function ClosingIntent(m: ReceivedMessage, table: AttributeTable): Option<Intent> {
    if !IsClosing(m) then None
    else if LocalShortResponse(m).Some? then LocalShortResponse(m)
    else FirstOf([Unable, Negative, Wilco, Roger, Affirm], ResponseIntents(m, table))
  }

  predicate IsPositive(i: Intent) {
    i == Wilco || i == Roger || i == Affirm
  }

  function WithoutStandby(intents: seq<Intent>): seq<Intent> {
    Kept(intents, (i: Intent) => i != Standby)
  }

  /** The message a response would answer. */
  function ActionSource(messages: seq<ReceivedMessage>, req: ReceivedMessage, cs: Callsign, now: int):
    (r: Option<ReceivedMessage>)
    ensures r.Some? ==> r.value == req || DialogueCallsign(r.value) == Some(cs)
  {
    if IsStandby(req) || IsRecentClosure(req, now)
    then if req.mrn.Some? then FindByMin(messages, req.mrn.value, cs) else None
    else if !req.outgoing then Some(req)
    else None
  }

  function OfferedIntents(source: Option<ReceivedMessage>, standbyFromAtc: bool, table: AttributeTable): seq<Intent> {
    var own := if source.Some? then ResponseIntents(source.value, table) else [];
    var offered := if source.Some? && source.value.responseAttr == Some(Y) then [Unable, Standby]
                   else if source.Some? && own == [] then [Wilco, Unable, Standby]
                   else own;
    if standbyFromAtc then WithoutStandby(offered) else offered
  }

  function TextOr(text: Option<string>, other: string): string {
    if text.Some? then text.value else other
  }

  /** The card of the dialogue whose latest message is `req`. */
  function Card(messages: seq<ReceivedMessage>, req: ReceivedMessage, now: int,
                table: AttributeTable): PendingDialogue {
    var recent := IsRecentClosure(req, now);
    var cs := TextOr(DialogueCallsign(req), "");
    var source := ActionSource(messages, req, cs, now);
    var fromAircraft := !req.outgoing && IsStandby(req);
    var fromAtc := req.outgoing && IsStandby(req);
    var closure := if recent then ClosingIntent(req, table) else None;
    var positive := closure.Some? && IsPositive(closure.value);
    var actionMin := if source.Some? then source.value.min else None;
    var intents := OfferedIntents(source, fromAtc, table);
    var needsResponse := !recent && actionMin.Some? && intents != [];
    var ownText := TextOr(req.displayText, "Unknown request");
    var aboutSource := fromAircraft || fromAtc || recent;
    PendingDialogue(
      if aboutSource && source.Some? then TextOr(DialogueCallsign(source.value), cs) else cs,
      actionMin,
      if aboutSource && source.Some? then TextOr(source.value.displayText, ownText) else ownText,
      if needsResponse then intents else [],
      source.Some? && source.value.responseAttr == Some(Y),
      req.timestamp,
      if fromAircraft then "pending-request-item standby-aircraft"
      else if fromAtc then "pending-request-item standby-atc"
      else if recent && positive then "pending-request-item closed-positive"
      else if recent then "pending-request-item closed-negative"
      else "pending-request-item",
      if fromAircraft || fromAtc then StandbySince(req.timestamp)
      else if closure.Some? then ClosedBy(closure.value, positive)
      else if req.outgoing && !recent && !IsClosing(req) then ReceivedAt(req.timestamp)
      else NoFlag,
      if recent then 2 else if needsResponse || !req.outgoing then 0 else 1)
  }

  /**
    What a card offers: its MIN is that of a message of the same aircraft,
    buttons are shown only with such a MIN and at the highest priority, and
    the lowest priority is that of recent closures.
  */
  lemma CardOffersAnswers(messages: seq<ReceivedMessage>, req: ReceivedMessage, now: int, table: AttributeTable)
    requires req in messages && IsCandidate(req) && DialogueCallsign(req).Some?
    ensures var card := Card(messages, req, now, table);
            && (card.actionMin.Some? ==>
                  exists m :: m in messages && Answers(m, card.actionMin.value, DialogueCallsign(req).value))
            && (card.intents != [] ==> card.actionMin.Some? && card.priority == 0)
            && card.priority <= 2
            && (card.priority == 2 <==> IsRecentClosure(req, now))
            && (card.priority == 1 <==> req.outgoing && !IsRecentClosure(req, now) && card.intents == [])
            && (req.outgoing && IsStandby(req) ==> Standby !in card.intents)
  {
    var cs := DialogueCallsign(req).value;
    var source := ActionSource(messages, req, cs, now);
    if req.mrn.Some? { FindByMinIsFirst(messages, req.mrn.value, cs); }
    if source.Some? {
      assert source.value in messages;
      if source.value.min.Some? { assert Answers(source.value, source.value.min.value, cs); }
    }
    if req.outgoing && IsStandby(req) { NoStandby(source, table); }
  }

  lemma NoStandby(source: Option<ReceivedMessage>, table: AttributeTable)
    ensures Standby !in OfferedIntents(source, true, table)
  {
    var own := if source.Some? then ResponseIntents(source.value, table) else [];
    KeptIs([Unable, Standby], (i: Intent) => i != Standby);
    KeptIs([Wilco, Unable, Standby], (i: Intent) => i != Standby);
    KeptIs(own, (i: Intent) => i != Standby);
  }

  /** A card names the aircraft of its dialogue. */
  lemma CardNamesAircraft(messages: seq<ReceivedMessage>, req: ReceivedMessage, now: int, table: AttributeTable)
    requires DialogueCallsign(req).Some?
    ensures Some(Card(messages, req, now, table).aircraft) == if req.outgoing then req.to else req.from
  {}

  // ---------------------------------------------------------------------
  // Short responses
  // ---------------------------------------------------------------------

  lemma OnlyStandbyStandsBy(i: Intent)
    ensures DownlinkId(i) in STANDBYS <==> i == Standby
    ensures UplinkId(i) in STANDBYS <==> i == Standby
    ensures DownlinkId(i) in CLOSINGS <==> i != Standby
    ensures UplinkId(i) in CLOSINGS <==> i != Standby
  {
    match i { case Wilco => case Unable => case Standby => case Roger => case Affirm => case Negative => }
  }

  /** The element is the response up- or downlink. */
  predicate Carries(id: string, i: Intent) {
    id == DownlinkId(i) || id == UplinkId(i)
  }

  /** The elements that close a dialogue are the short responses but STANDBY, up- and downlink. */
  lemma ClosingIds(id: string)
    ensures id in CLOSINGS <==> exists i: Intent :: i != Standby && Carries(id, i)
    ensures id in STANDBYS <==> Carries(id, Standby) || id == "UM2"
  {
    OnlyStandbyStandsBy(Standby);
    if i: Intent :| i != Standby && Carries(id, i) { OnlyStandbyStandsBy(i); }
    if id in CLOSINGS { var i := Carried(id); }
  }

  lemma Carried(id: string) returns (i: Intent)
    requires id in CLOSINGS
    ensures i != Standby && Carries(id, i)
  {
    var k :| 0 <= k < |CLOSINGS| && CLOSINGS[k] == id;
    i := [Wilco, Unable, Roger, Affirm, Negative, Unable, Roger, Affirm, Negative][k];
  }

  /** A stored row without an envelope is a short response exactly if its text, blanks and case aside, is its label. */
  lemma LocalShortResponseIff(m: ReceivedMessage, i: Intent)
    ensures LocalShortResponse(m) == Some(i) <==>
            m.displayText.Some? && Text.AsciiUpper(Text.Trim(m.displayText.value)) == Label(i)
  {
    match i { case Wilco => case Unable => case Standby => case Roger => case Affirm => case Negative => }
  }

  /** A message with one short response as its only element. */
  predicate IsAnswer(m: ReceivedMessage, i: Intent) {
    m.envelope == Some(Application([DownlinkId(i)])) || m.envelope == Some(Application([UplinkId(i)]))
  }

  /** Answering closes the dialogue, unless the answer is STANDBY; with STANDBY in it no message closes. */
  lemma AnswerCloses(m: ReceivedMessage, i: Intent)
    ensures IsAnswer(m, i) ==> (IsClosing(m) <==> i != Standby) && (IsStandby(m) <==> i == Standby)
    ensures !(IsClosing(m) && IsStandby(m))
  {
    OnlyStandbyStandsBy(i);
    if IsAnswer(m, i) {
      var id := m.envelope.value.ids[0];
      assert (id in CLOSINGS <==> i != Standby) && (id in STANDBYS <==> i == Standby);
    }
    LocalShortResponseIff(m, Standby);
  }

  // ---------------------------------------------------------------------
  // What a card shows
  // ---------------------------------------------------------------------

  /** The message itself calls for the response: by its elements, or by its response attribute. */
  predicate CallsFor(m: ReceivedMessage, i: Intent, table: AttributeTable) {
    || (m.envelope.Some? && m.envelope.value.Application? && i in Choose(m.envelope.value.ids, table))
    || (m.responseAttr.Some? && i in ForAttribute(m.responseAttr.value))
  }

  lemma {:induction false} AddMissingIs(intents: seq<Intent>, more: seq<Intent>)
    requires Distinct(intents)
    ensures var all := AddMissing(intents, more);
            && Distinct(all) && intents <= all && forall i :: i in all <==> i in intents || i in more
    decreases |more|
  {
    if more != [] {
      AddMissingIs(if more[0] in intents then intents else intents + [more[0]], more[1..]);
      assert more == [more[0]] + more[1..];
    }
  }

  lemma ChosenAreDistinct(ids: seq<string>, table: AttributeTable)
    ensures Distinct(Choose(ids, table))
  {}

  lemma ResponseIntentsAre(m: ReceivedMessage, table: AttributeTable)
    ensures var own := ResponseIntents(m, table);
            Distinct(own) && forall i :: i in own <==> CallsFor(m, i, table)
  {
    if m.envelope.Some? && m.envelope.value.Application? {
      var ids := m.envelope.value.ids;
      ChosenAreDistinct(ids, table);
      AddMissingIs(Choose(ids, table), if m.responseAttr.Some? then ForAttribute(m.responseAttr.value) else []);
    }
  }

  /** The responses a controller may give to a message. */
  ghost predicate MayAnswer(m: ReceivedMessage, i: Intent, table: AttributeTable) {
    if m.responseAttr == Some(Y) then i == Unable || i == Standby
    else CallsFor(m, i, table)
         || ((forall j :: !CallsFor(m, j, table)) && (i == Wilco || i == Unable || i == Standby))
  }

  /** The responses offered are those, each once, without STANDBY once the controller gave it. */
  lemma OfferedAre(m: ReceivedMessage, standbyFromAtc: bool, table: AttributeTable)
    ensures var offered := OfferedIntents(Some(m), standbyFromAtc, table);
            && Distinct(offered)
            && forall i :: i in offered <==> MayAnswer(m, i, table) && !(standbyFromAtc && i == Standby)
  {
    ResponseIntentsAre(m, table);
    var all := OfferedIntents(Some(m), false, table);
    assert Distinct(all) && forall i :: i in all <==> MayAnswer(m, i, table) by {
      var own := ResponseIntents(m, table);
      if own != [] { assert own[0] in own; }
    }
    KeptIs(all, (i: Intent) => i != Standby);
    KeptDistinct(all, (i: Intent) => i != Standby);
  }

  /** The first message of the aircraft with that MIN. */
  ghost predicate IsFirst(messages: seq<ReceivedMessage>, m: ReceivedMessage, min: Min, callsign: Callsign) {
    exists i :: 0 <= i < |messages| && messages[i] == m && Answers(m, min, callsign)
                && forall j :: 0 <= j < i ==> !Answers(messages[j], min, callsign)
  }

  /**
    The message the card is to be answered to: an open request itself; for a
    STANDBY or a fresh closure the message it refers to, if that is there; none
    for what the controller sent.
  */
  ghost predicate IsAbout(messages: seq<ReceivedMessage>, req: ReceivedMessage, cs: Callsign, now: int,
                          about: Option<ReceivedMessage>) {
    if IsStandby(req) || IsRecentClosure(req, now) then
      if about.Some? then req.mrn.Some? && IsFirst(messages, about.value, req.mrn.value, cs)
      else req.mrn.None? || forall m :: m in messages ==> !Answers(m, req.mrn.value, cs)
    else about == if req.outgoing then None else Some(req)
  }

  lemma {:induction false} ActionSourceIff(messages: seq<ReceivedMessage>, req: ReceivedMessage, cs: Callsign, now: int,
                                           about: Option<ReceivedMessage>)
    ensures about == ActionSource(messages, req, cs, now) <==> IsAbout(messages, req, cs, now, about)
  {
    if (IsStandby(req) || IsRecentClosure(req, now)) && req.mrn.Some? {
      var min := req.mrn.value;
      FindByMinIsFirst(messages, min, cs);
      var found := FindByMin(messages, min, cs);
      if about.Some? && IsFirst(messages, about.value, min, cs) {
        var i :| 0 <= i < |messages| && messages[i] == about.value && Answers(about.value, min, cs)
                 && forall j :: 0 <= j < i ==> !Answers(messages[j], min, cs);
        assert found.Some?;
      }
      if found.Some? { assert found.value in messages; }
    }
  }

  /** What the card says of the request: its text, its MIN and its buttons. */
  ghost predicate ShowsRequest(card: PendingDialogue, req: ReceivedMessage, now: int, about: Option<ReceivedMessage>,
                               table: AttributeTable) {
    var own := if req.displayText.Some? then req.displayText.value else "Unknown request";
    && card.actionMin == (if about.Some? then about.value.min else None)
    && card.displayText == (if about.Some? && about.value.displayText.Some? then about.value.displayText.value else own)
    && card.isY == (about.Some? && about.value.responseAttr == Some(Y))
    && Distinct(card.intents)
    && forall i :: i in card.intents <==>
         && !IsRecentClosure(req, now) && about.Some? && about.value.min.Some?
         && MayAnswer(about.value, i, table) && !(req.outgoing && IsStandby(req) && i == Standby)
  }

  /** A card shows the request the dialogue waits for, and the responses it calls for. */
  lemma CardShowsRequest(messages: seq<ReceivedMessage>, req: ReceivedMessage, now: int, about: Option<ReceivedMessage>,
                         table: AttributeTable)
    requires DialogueCallsign(req).Some? && IsAbout(messages, req, DialogueCallsign(req).value, now, about)
    ensures ShowsRequest(Card(messages, req, now, table), req, now, about, table)
  {
    ActionSourceIff(messages, req, DialogueCallsign(req).value, now, about);
    if about.Some? { OfferedAre(about.value, req.outgoing && IsStandby(req), table); }
  }

  /** The closing message counts as a positive one. */
  ghost predicate ClosesPositively(m: ReceivedMessage, table: AttributeTable) {
    if exists i :: LocalShortResponse(m) == Some(i) then
      LocalShortResponse(m).value in {Wilco, Roger, Affirm}
    else
      && !CallsFor(m, Unable, table) && !CallsFor(m, Negative, table)
      && (CallsFor(m, Wilco, table) || CallsFor(m, Roger, table) || CallsFor(m, Affirm, table))
  }

  lemma ClosingIntentIs(m: ReceivedMessage, table: AttributeTable)
    requires IsClosing(m)
    ensures var r := ClosingIntent(m, table);
            && (r.Some? && IsPositive(r.value) <==> ClosesPositively(m, table))
            && (LocalShortResponse(m).Some? ==> r == LocalShortResponse(m))
            && (LocalShortResponse(m).None? && r.Some? ==> r.value != Standby && CallsFor(m, r.value, table))
            && (LocalShortResponse(m).None? && r.None? ==> forall i :: i != Standby ==> !CallsFor(m, i, table))
  {
    ResponseIntentsAre(m, table);
    var own := ResponseIntents(m, table);
    if LocalShortResponse(m).None? {
      FirstOfIs([Unable, Negative, Wilco, Roger, Affirm], own);
    }
  }

  lemma {:induction false} FirstOfIs(wanted: seq<Intent>, intents: seq<Intent>)
    ensures match FirstOf(wanted, intents)
            case None => forall i :: i in wanted ==> i !in intents
            case Some(r) =>
              exists k :: 0 <= k < |wanted| && wanted[k] == r && r in intents
                          && forall j :: 0 <= j < k ==> wanted[j] !in intents
  {
    if wanted != [] && wanted[0] !in intents {
      var rest := wanted[1..];
      FirstOfIs(rest, intents);
      assert wanted == [wanted[0]] + rest;
      if FirstOf(rest, intents).Some? {
        var k :| 0 <= k < |rest| && rest[k] == FirstOf(rest, intents).value && rest[k] in intents
                 && forall j :: 0 <= j < k ==> rest[j] !in intents;
        assert forall j :: 0 < j < k + 1 ==> wanted[j] == rest[j - 1];
        assert wanted[k + 1] == rest[k];
      }
    }
  }

  /** What the card says of the latest message: when it came, and whether it waits, closes or is on its way. */
  ghost predicate ShowsState(card: PendingDialogue, req: ReceivedMessage, now: int, table: AttributeTable) {
    var recent := IsRecentClosure(req, now);
    && card.timestamp == req.timestamp
    && (card.flag.StandbySince? <==> IsStandby(req))
    && (card.flag.StandbySince? ==> card.flag.at == req.timestamp)
    && (card.flag.ClosedBy? <==> recent && ClosingIntent(req, table).Some?)
    && (card.flag.ClosedBy? ==>
          ClosingIntent(req, table) == Some(card.flag.intent) && card.flag.positive == ClosesPositively(req, table))
    && (card.flag.ReceivedAt? <==> req.outgoing && !IsStandby(req) && !IsClosing(req))
    && (card.flag.ReceivedAt? ==> card.flag.at == req.timestamp)
    && (card.cardClass == "pending-request-item standby-aircraft" <==> IsStandby(req) && !req.outgoing)
    && (card.cardClass == "pending-request-item standby-atc" <==> IsStandby(req) && req.outgoing)
    && (card.cardClass == "pending-request-item closed-positive" <==> recent && ClosesPositively(req, table))
    && (card.cardClass == "pending-request-item closed-negative" <==> recent && !ClosesPositively(req, table))
    && (card.cardClass == "pending-request-item" <==> !recent && !IsStandby(req))
  }

  /** A card shows the state of its dialogue. */
  lemma CardShowsState(messages: seq<ReceivedMessage>, req: ReceivedMessage, now: int, table: AttributeTable)
    ensures ShowsState(Card(messages, req, now, table), req, now, table)
  {
    AnswerCloses(req, Standby);
    if IsClosing(req) { ClosingIntentIs(req, table); }
    ClassesDiffer();
  }

  lemma ClassesDiffer()
    ensures var a, b, c, d, e := "pending-request-item standby-aircraft", "pending-request-item standby-atc",
                                 "pending-request-item closed-positive", "pending-request-item closed-negative",
                                 "pending-request-item";
            a != b && a != c && a != d && a != e && b != c && b != d && b != e && c != d && c != e && d != e
  {
    var c, d := "pending-request-item closed-positive", "pending-request-item closed-negative";
    var a := "pending-request-item standby-aircraft";
    assert |a| == 37 && |c| == 36 && |d| == 36;
    assert c[28] == 'p' && d[28] == 'n';
  }

  /**
    A composed WILCO is shown as a negative closure: the badge looks at what
    the closing message itself calls for, and an answer calls for nothing.
  */
  lemma ComposedWilcoLooksNegative(messages: seq<ReceivedMessage>, req: ReceivedMessage, now: int,
                                   table: AttributeTable, ids: seq<string>)
    requires req.envelope == Some(Application(ids)) && "DM0" in ids && !HasAny(ids, STANDBYS)
    requires forall id :: id in ids ==> table(id) == Some(N)
    requires req.responseAttr == Some(N) && (forall i :: LocalShortResponse(req) != Some(i))
    requires WholeSeconds(now - req.timestamp) <= RETENTION_SECONDS
    ensures var card := Card(messages, req, now, table);
            card.cardClass == "pending-request-item closed-negative" && card.flag == NoFlag
  {
    assert HasAny(ids, CLOSINGS) by {
      var i :| 0 <= i < |ids| && ids[i] == "DM0";
    }
    EffectiveIsMax(ids, table);
    var attrs := Resolved(ids, table);
    assert Effective(attrs) == N;
    CardShowsState(messages, req, now, table);
    ClosingIntentIs(req, table);
  }

  // ---------------------------------------------------------------------
  // One aircraft's messages
  // ---------------------------------------------------------------------

  predicate Concerns(m: ReceivedMessage, callsign: Callsign) {
    DialogueCallsign(m) == Some(callsign)
  }

  /** The messages of one aircraft, in order. */
  function Only(messages: seq<ReceivedMessage>, callsign: Callsign): seq<ReceivedMessage> {
    Kept(messages, (m: ReceivedMessage) => Concerns(m, callsign))
  }

  /** Searching among the aircraft's own messages finds the same message. */
  lemma {:induction false} FindAmongOwn(messages: seq<ReceivedMessage>, min: Min, callsign: Callsign)
    ensures FindByMin(Only(messages, callsign), min, callsign) == FindByMin(messages, min, callsign)
  {
    if messages != [] {
      var init, last := messages[..|messages| - 1], messages[|messages| - 1];
      FindAmongOwn(init, min, callsign);
      if Concerns(last, callsign) {
        assert Only(messages, callsign)[..|Only(init, callsign)|] == Only(init, callsign);
      } else {
        assert Only(messages, callsign) == Only(init, callsign);
      }
    }
  }

  /** A card depends on the messages of its own aircraft only. */
  lemma CardAmongOwn(messages: seq<ReceivedMessage>, req: ReceivedMessage, callsign: Callsign, now: int,
                     table: AttributeTable)
    requires Concerns(req, callsign)
    ensures Card(Only(messages, callsign), req, now, table) == Card(messages, req, now, table)
  {
    if req.mrn.Some? { FindAmongOwn(messages, req.mrn.value, callsign); }
  }
}
