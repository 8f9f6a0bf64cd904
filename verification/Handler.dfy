/**
  The server's handling of one CPDLC envelope: which session update it asks
  for, and what an application message with several elements does.
*/
module Handler {
  import opened Common
  import opened Session
  import opened SessionHistory

  datatype Argument =
    | FacilityDesignation(text: string)
    | FreeText(text: string)
    | OtherArgument(text: string)

  datatype Element = Element(id: string, args: seq<Argument>)

  datatype Message =
    | LogonRequestMessage(station: Callsign)
    | LogonResponse(accepted: bool)
    | ConnectionRequestMessage
    | ConnectionResponse(accepted: bool)
    | SessionUpdate
    | LogonForward(newStation: Callsign)
    | Application(min: nat, elements: seq<Element>)

  datatype Envelope = Envelope(aircraft: Endpoint, source: Callsign, destination: Callsign, message: Message)

  /** Messages that never reach the session store. */
  predicate TouchesStore(env: Envelope) {
    match env.message
    case LogonResponse(accepted) => accepted
    case ConnectionResponse(accepted) => accepted
    case SessionUpdate => false
    case LogonForward(_) => false
    case _ => true
  }

  // ---------------------------------------------------------------------
  // Application messages
  // ---------------------------------------------------------------------

  predicate DesignatesNda(e: Element) {
    e.id == "UM160" && e.args != [] && e.args[0].FacilityDesignation?
  }

  predicate EndsService(e: Element) {
    e.id == "UM161"
  }

  function OnElement(s: SessionState, source: Callsign, e: Element): SessionState {
    if DesignatesNda(e) then OnNextDataAuthority(s, Endpoint(e.args[0].text, ""))
    else if EndsService(e) then OnTermination(s, source)
    else s
  }

  /** The element loop: each element acts on what the ones before it left. */
  function OnElements(s: SessionState, source: Callsign, es: seq<Element>): SessionState {
    if es == [] then s else OnElement(OnElements(s, source, es[..|es| - 1]), source, es[|es| - 1])
  }

  function ElementEvents(source: Callsign, e: Element): seq<Event> {
    if DesignatesNda(e) then [NextDataAuthority(Endpoint(e.args[0].text, ""))]
    else if EndsService(e) then [Termination(source)]
    else []
  }

  function ElementsEvents(source: Callsign, es: seq<Element>): seq<Event> {
    if es == [] then []
    else ElementsEvents(source, es[..|es| - 1]) + ElementEvents(source, es[|es| - 1])
  }

  predicate ReadyExchange(c: Connection) {
    c.logon && c.connection
  }

  const MIN_FIRST: nat := 1
  const MIN_LAST: nat := 63

  function CheckApplication(cur: Option<SessionState>, min: nat): Result<SessionState> {
    if cur.None? then Err("no CPDLC session for aircraft")
    else if cur.value.active.None? then Err("no active connection")
    else if !ReadyExchange(cur.value.active.value) then Err("active connection is not in Connected state")
    else if !(MIN_FIRST <= min <= MIN_LAST) then Err("invalid CPDLC MIN")
    else Ok(cur.value)
  }

  /** The update closure of the envelope, applied to the stored session. */
  function Update(env: Envelope, cur: Option<SessionState>): Result<SessionState> {
    var s := if cur.Some? then cur.value else NewSession(env.aircraft);
    match env.message
    case LogonRequestMessage(station) => Ok(OnLogonRequest(s, Endpoint(station, "")))
    case LogonResponse(_) => Ok(OnLogonAccepted(s, env.source))
    case ConnectionRequestMessage => Ok(OnConnectionRequest(s, env.source))
    case ConnectionResponse(_) => OnConnectionAccepted(s, env.destination)
    case SessionUpdate => Ok(s)
    case LogonForward(_) => Ok(s)
    case Application(min, elements) =>
      match CheckApplication(cur, min)
      case Err(e) => Err(e)
      case Ok(t) => Ok(OnElements(t, env.source, elements))
  }

  /** The session events an accepted envelope stands for. */
  function Events(env: Envelope): seq<Event> {
    match env.message
    case LogonRequestMessage(station) => [LogonRequest(Endpoint(station, ""))]
    case LogonResponse(_) => [LogonAccepted(env.source)]
    case ConnectionRequestMessage => [ConnectionRequest(env.source)]
    case ConnectionResponse(_) => [ConnectionAccepted(env.destination)]
    case SessionUpdate => []
    case LogonForward(_) => []
    case Application(_, elements) => ElementsEvents(env.source, elements)
  }

  lemma {:induction false} OnElementsIsReplay(s: SessionState, source: Callsign, es: seq<Element>)
    ensures OnElements(s, source, es) == Replay(s, ElementsEvents(source, es))
  {
    if es != [] {
      var init, e := es[..|es| - 1], es[|es| - 1];
      OnElementsIsReplay(s, source, init);
      ReplayAppend(s, ElementsEvents(source, init), ElementEvents(source, e));
      OnElementIsReplay(OnElements(s, source, init), source, e);
    }
  }

  lemma ReplayOne(s: SessionState, e: Event)
    ensures Replay(s, [e]) == Advance(s, e)
  {
    assert [e][..0] == [];
  }

  lemma OnElementIsReplay(s: SessionState, source: Callsign, e: Element)
    ensures OnElement(s, source, e) == Replay(s, ElementEvents(source, e))
  {
    if DesignatesNda(e) {
      ReplayOne(s, NextDataAuthority(Endpoint(e.args[0].text, "")));
    } else if EndsService(e) {
      ReplayOne(s, Termination(source));
    }
  }

  /**
    What is accepted: an application message exactly between a connected
    active station and the aircraft's session with a number in range; a
    connection acceptance unless the first slot of the station has no logon;
    everything else always.
  */
  lemma AcceptedIff(env: Envelope, cur: Option<SessionState>)
    requires cur.Some? ==> WellFormed(cur.value)
    ensures env.message.Application? ==>
              (Update(env, cur).Ok? <==>
                 && cur.Some? && cur.value.active.Some? && PhaseOf(cur.value.active.value) == Connected
                 && 1 <= env.message.min <= 63)
    ensures env.message.ConnectionResponse? ==>
              (Update(env, cur).Err? <==>
                 && cur.Some? && FirstSlotOf(cur.value, env.destination).Some?
                 && PhaseOf(FirstSlotOf(cur.value, env.destination).value) == LogonPending)
    ensures !env.message.Application? && !env.message.ConnectionResponse? ==> Update(env, cur).Ok?
  {
  }

  /** Every accepted envelope is a replay of its events over the stored (or a new) session. */
  lemma UpdateIsReplay(env: Envelope, cur: Option<SessionState>)
    requires Update(env, cur).Ok?
    ensures Update(env, cur).value
         == Replay(if cur.Some? then cur.value else NewSession(env.aircraft), Events(env))
  {
    var s := if cur.Some? then cur.value else NewSession(env.aircraft);
    var es := Events(env);
    match env.message
    case Application(_, elements) => OnElementsIsReplay(s, env.source, elements);
    case LogonRequestMessage(station) => ReplayOne(s, LogonRequest(Endpoint(station, "")));
    case LogonResponse(_) => ReplayOne(s, LogonAccepted(env.source));
    case ConnectionRequestMessage => ReplayOne(s, ConnectionRequest(env.source));
    case ConnectionResponse(_) => ReplayOne(s, ConnectionAccepted(env.destination));
    case SessionUpdate =>
    case LogonForward(_) =>
  }

  /** One session-management element, on the session object. */
  method HandleElement(session: CPDLCSession, source: Callsign, element: Element)
    requires session.Valid()
    modifies session.Repr()
    ensures session.Valid() && fresh(session.Repr() - old(session.Repr()))
    ensures session.Value() == OnElement(old(session.Value()), source, element)
  {
    if element.id == "UM160" {
      if element.args != [] && element.args[0].FacilityDesignation? {
        session.DesignateNextDataAuthority(Endpoint(element.args[0].text, ""));
      }
    } else if element.id == "UM161" {
      session.TerminationRequest(source);
    }
  }

  // ---------------------------------------------------------------------
  // Free text of the forwarded message
  // ---------------------------------------------------------------------

  datatype ArgType = FreeTextType | OtherType

  /** The argument types of the definition of an element, if it has one. */
  type Definitions = string -> Option<seq<ArgType>>

  /** Free text where the definition says free text is upper-cased, nothing else is touched. */
  function NormalizedArg(types: seq<ArgType>, i: nat, arg: Argument, up: Casing): Argument {
    if i < |types| && types[i] == FreeTextType && arg.FreeText? then FreeText(up(arg.text)) else arg
  }

  function NormalizedArgs(types: seq<ArgType>, n: nat, args: seq<Argument>, up: Casing): seq<Argument> {
    seq(|args|, i requires 0 <= i < |args| => if i < n then NormalizedArg(types, i, args[i], up) else args[i])
  }

  function NormalizedElement(e: Element, defs: Definitions, up: Casing): Element {
    match defs(e.id)
    case None => e
    case Some(types) => Element(e.id, NormalizedArgs(types, |types|, e.args, up))
  }

  function Normalized(es: seq<Element>, defs: Definitions, up: Casing): seq<Element> {
    seq(|es|, i requires 0 <= i < |es| => NormalizedElement(es[i], defs, up))
  }

  method NormalizeFreeText(elements: seq<Element>, defs: Definitions, up: Casing) returns (out: seq<Element>)
    ensures out == Normalized(elements, defs, up)
  {
    out := elements;
    for i := 0 to |elements|
      invariant |out| == |elements|
      invariant forall j :: 0 <= j < |out| ==>
        out[j] == if j < i then NormalizedElement(elements[j], defs, up) else elements[j]
    {
      var def := defs(elements[i].id);
      if def.Some? {
        var types, args := def.value, elements[i].args;
        assert args == NormalizedArgs(types, 0, elements[i].args, up);
        for idx := 0 to |types|
          invariant args == NormalizedArgs(types, idx, elements[i].args, up)
        {
          if types[idx] == FreeTextType && idx < |args| && args[idx].FreeText? {
            args := args[idx := FreeText(up(args[idx].text))];
          }
        }
        out := out[i := Element(elements[i].id, args)];
      }
    }
  }

  /** The definition of the element says that argument `k` is free text, and it is. */
  predicate IsFreeText(e: Element, k: nat, defs: Definitions)
    requires k < |e.args|
  {
    e.args[k].FreeText? && defs(e.id).Some? && k < |defs(e.id).value| && defs(e.id).value[k].FreeTextType?
  }

  /** The same element, with its free text in upper case. */
  predicate OnlyFreeTextRaised(e: Element, out: Element, defs: Definitions, up: Casing) {
    && out.id == e.id && |out.args| == |e.args|
    && (forall k: nat :: k < |e.args| && IsFreeText(e, k, defs) ==> out.args[k] == FreeText(up(e.args[k].text)))
    && (forall k: nat :: k < |e.args| && !IsFreeText(e, k, defs) ==> out.args[k] == e.args[k])
  }

  /** Normalising raises exactly the free text of every element. */
  lemma NormalizedIff(es: seq<Element>, out: seq<Element>, defs: Definitions, up: Casing)
    ensures out == Normalized(es, defs, up) <==>
            |out| == |es| && forall i :: 0 <= i < |es| ==> OnlyFreeTextRaised(es[i], out[i], defs, up)
  {
    if |out| == |es| {
      forall i | 0 <= i < |es|
        ensures out[i] == NormalizedElement(es[i], defs, up) <==> OnlyFreeTextRaised(es[i], out[i], defs, up)
      {
        NormalizedElementIff(es[i], out[i], defs, up);
      }
    }
  }

  lemma NormalizedElementIff(e: Element, out: Element, defs: Definitions, up: Casing)
    ensures out == NormalizedElement(e, defs, up) <==> OnlyFreeTextRaised(e, out, defs, up)
  {
    var n := NormalizedElement(e, defs, up);
    assert |n.args| == |e.args| && n.id == e.id;
    forall k: nat | k < |e.args|
      ensures n.args[k] == if IsFreeText(e, k, defs) then FreeText(up(e.args[k].text)) else e.args[k]
    {}
    if OnlyFreeTextRaised(e, out, defs, up) {
      forall k: nat | k < |e.args| ensures out.args[k] == n.args[k] {}
      assert out.args == n.args;
    }
  }

  lemma NormalizedActsTheSame(s: SessionState, source: Callsign, e: Element, defs: Definitions, up: Casing)
    ensures OnElement(s, source, NormalizedElement(e, defs, up)) == OnElement(s, source, e)
  {}

  /** The change of case never changes what a message does to the session. */
  lemma {:induction false} NormalizedKeepsUpdate(s: SessionState, source: Callsign, es: seq<Element>,
                                                 defs: Definitions, up: Casing)
    ensures OnElements(s, source, Normalized(es, defs, up)) == OnElements(s, source, es)
  {
    if es != [] {
      var init, last := es[..|es| - 1], es[|es| - 1];
      var out := Normalized(es, defs, up);
      assert out[..|out| - 1] == Normalized(init, defs, up);
      NormalizedKeepsUpdate(s, source, init, defs, up);
      NormalizedActsTheSame(OnElements(s, source, init), source, last, defs, up);
    }
  }

  /** Normalising a forwarded message again changes nothing if upper-casing twice does not. */
  lemma {:induction false} NormalizedTwice(es: seq<Element>, defs: Definitions, up: Casing)
    requires forall t :: up(up(t)) == up(t)
    ensures Normalized(Normalized(es, defs, up), defs, up) == Normalized(es, defs, up)
  {
    var once := Normalized(es, defs, up);
    forall i | 0 <= i < |es| ensures NormalizedElement(once[i], defs, up) == once[i] {
      var e := es[i];
      if defs(e.id).Some? {
        assert NormalizedElement(once[i], defs, up).args == once[i].args;
      }
    }
  }

  /**
    The closure of `handle_cpdlc_application_message`: validate, then let each
    session-management element mutate the session object.
  */
  method HandleApplication(cur: Option<SessionState>, env: Envelope, defs: Definitions, up: Casing)
    returns (r: Result<SessionState>, forwarded: Option<Message>)
    requires env.message.Application?
    ensures r == Update(env, cur)
    ensures forwarded == if r.Err? then None
                         else Some(Application(env.message.min, Normalized(env.message.elements, defs, up)))
  {
    forwarded := None;
    if cur.None? {
      r := Err("no CPDLC session for aircraft");
      return;
    }
    var elements := NormalizeFreeText(env.message.elements, defs, up);
    var session := new CPDLCSession.Load(cur.value);
    var active := session.activeConnection;
    if active == null {
      r := Err("no active connection");
      return;
    }
    if !(active.logon && active.connection) {
      r := Err("active connection is not in Connected state");
      return;
    }
    if !(MIN_FIRST <= env.message.min <= MIN_LAST) {
      r := Err("invalid CPDLC MIN");
      return;
    }
    HandleElements(session, env.source, elements);
    NormalizedKeepsUpdate(cur.value, env.source, env.message.elements, defs, up);
    r := Ok(Snapshot(session));
    forwarded := Some(Application(env.message.min, elements));
  }

  method HandleElements(session: CPDLCSession, source: Callsign, elements: seq<Element>)
    requires session.Valid()
    modifies session.Repr()
    ensures session.Valid() && fresh(session.Repr() - old(session.Repr()))
    ensures session.Value() == OnElements(old(session.Value()), source, elements)
  {
    for i := 0 to |elements|
      invariant session.Valid() && fresh(session.Repr() - old(session.Repr()))
      invariant session.Value() == OnElements(old(session.Value()), source, elements[..i])
    {
      assert elements[..i + 1][..i] == elements[..i];
      HandleElement(session, source, elements[i]);
    }
    assert elements[..|elements|] == elements;
  }

  function Snapshot(session: CPDLCSession): (s: SessionState)
    reads session, session.activeConnection, session.inactiveConnection
    ensures s == session.Value()
  {
    SessionState(session.aircraft, SlotOf(session.activeConnection), SlotOf(session.inactiveConnection),
                 session.nextDataAuthority)
  }

  function SlotOf(c: CPDLCConnection?): (slot: Option<Connection>)
    reads c
    ensures slot == CPDLCSession.Slot(c)
  {
    if c == null then None else Some(Connection(c.station, c.logon, c.connection))
  }

  /** `handle_cpdlc_meta_message`, with its closures, on the session object; `None` if the store is not touched. */
  method HandleMeta(cur: Option<SessionState>, env: Envelope) returns (r: Option<Result<SessionState>>)
    requires !env.message.Application?
    ensures r == if TouchesStore(env) then Some(Update(env, cur)) else None
  {
    var session: CPDLCSession;
    if cur.Some? {
      session := new CPDLCSession.Load(cur.value);
    } else {
      session := new CPDLCSession(env.aircraft);
    }
    match env.message {
      case LogonRequestMessage(station) =>
        session.LogonRequest(Endpoint(station, ""));
      case LogonResponse(accepted) =>
        if !accepted {
          return None;
        }
        session.LogonAccepted(env.source);
      case ConnectionRequestMessage =>
        session.ConnectionRequest(env.source);
      case ConnectionResponse(accepted) =>
        if !accepted {
          return None;
        }
        var failed := session.ConnectionAccepted(env.destination);
        if failed {
          return Some(Err("cannot connect without prior logon"));
        }
      case SessionUpdate =>
        return None;
      case LogonForward(_) =>
        return None;
    }
    r := Some(Ok(Snapshot(session)));
  }

  // ---------------------------------------------------------------------
  // What an application message does, told by its elements
  // ---------------------------------------------------------------------

  /** The occupied slots in promotion order. */
  function Slots(s: SessionState): seq<Connection> {
    (if s.active.Some? then [s.active.value] else []) +
    (if s.inactive.Some? then [s.inactive.value] else [])
  }

  function Without(cs: seq<Connection>, station: Callsign, n: nat): seq<Connection> {
    if cs == [] || n == 0 then cs
    else if cs[0].station.callsign == station then Without(cs[1..], station, n - 1)
    else [cs[0]] + Without(cs[1..], station, n)
  }

  function Occurrences(cs: seq<Connection>, station: Callsign): nat {
    if cs == [] then 0
    else (if cs[0].station.callsign == station then 1 else 0) + Occurrences(cs[1..], station)
  }

  function CountEndService(es: seq<Element>): nat {
    if es == [] then 0
    else CountEndService(es[..|es| - 1]) + (if es[|es| - 1].id == "UM161" then 1 else 0)
  }

  /** `i` is the last element that designates a facility. */
  predicate LastDesignation(es: seq<Element>, i: int) {
    0 <= i < |es| && NamesFacility(es[i]) && forall j :: i < j < |es| ==> !NamesFacility(es[j])
  }

  predicate NamesFacility(e: Element) {
    e.id == "UM160" && e.args != [] && e.args[0].FacilityDesignation?
  }

  /** Removing `n` occurrences and then one more is removing `n + 1`. */
  lemma {:induction false} WithoutOneMore(cs: seq<Connection>, station: Callsign, n: nat)
    ensures Without(Without(cs, station, n), station, 1) == Without(cs, station, n + 1)
  {
    if cs != [] {
      var head := [cs[0]];
      if n == 0 {
      } else if cs[0].station.callsign == station {
        WithoutOneMore(cs[1..], station, n - 1);
      } else {
        WithoutOneMore(cs[1..], station, n);
        assert (head + Without(cs[1..], station, n))[1..] == Without(cs[1..], station, n);
      }
    }
  }

  lemma {:induction false} WithoutCounts(cs: seq<Connection>, station: Callsign, n: nat)
    ensures Occurrences(Without(cs, station, n), station)
         == if n <= Occurrences(cs, station) then Occurrences(cs, station) - n else 0
    ensures |Without(cs, station, n)|
         == |cs| - (if n <= Occurrences(cs, station) then n else Occurrences(cs, station))
  {
    if cs != [] && n != 0 {
      if cs[0].station.callsign == station {
        WithoutCounts(cs[1..], station, n - 1);
      } else {
        WithoutCounts(cs[1..], station, n);
        assert ([cs[0]] + Without(cs[1..], station, n))[1..] == Without(cs[1..], station, n);
      }
    }
  }

  /** A termination removes the first occurrence and promotes what is left. */
  lemma TerminationRemovesFirst(s: SessionState, station: Callsign)
    requires WellFormed(s)
    ensures Slots(OnTermination(s, station)) == Without(Slots(s), station, 1)
  {
    if s.active.Some? && s.inactive.Some? {
      assert Slots(s)[1..] == [s.inactive.value];
      assert Without(Slots(s)[1..], station, 1) == if Holds(s.inactive, station) then [] else Slots(s)[1..];
    } else if s.active.Some? {
      assert Slots(s)[1..] == [];
    }
  }

  lemma {:induction false} ElementsSlots(s: SessionState, source: Callsign, es: seq<Element>)
    requires WellFormed(s)
    ensures var t := OnElements(s, source, es);
            && WellFormed(t)
            && t.aircraft == s.aircraft
            && Slots(t) == Without(Slots(s), source, CountEndService(es))
  {
    if es != [] {
      var init := es[..|es| - 1];
      ElementsSlots(s, source, init);
      if EndsService(es[|es| - 1]) {
        TerminationRemovesFirst(OnElements(s, source, init), source);
        WithoutOneMore(Slots(s), source, CountEndService(init));
      }
    }
  }

  lemma ElementNda(s: SessionState, source: Callsign, e: Element)
    ensures OnElement(s, source, e).nda == if NamesFacility(e) then Some(Endpoint(e.args[0].text, "")) else s.nda
  {}

  lemma {:induction false} NdaStays(s: SessionState, source: Callsign, es: seq<Element>)
    requires forall i :: 0 <= i < |es| ==> !NamesFacility(es[i])
    ensures OnElements(s, source, es).nda == s.nda
  {
    if es != [] {
      NdaStays(s, source, es[..|es| - 1]);
      ElementNda(OnElements(s, source, es[..|es| - 1]), source, es[|es| - 1]);
    }
  }

  lemma {:induction false} NdaIsLast(s: SessionState, source: Callsign, es: seq<Element>, i: int)
    requires LastDesignation(es, i)
    ensures OnElements(s, source, es).nda == Some(Endpoint(es[i].args[0].text, ""))
  {
    var n := |es| - 1;
    var init := es[..n];
    ElementNda(OnElements(s, source, init), source, es[n]);
    if i < n {
      assert LastDesignation(init, i);
      NdaIsLast(s, source, init, i);
    }
  }

  lemma ElementsNda(s: SessionState, source: Callsign, es: seq<Element>)
    ensures forall i :: LastDesignation(es, i) ==>
              OnElements(s, source, es).nda == Some(Endpoint(es[i].args[0].text, ""))
    ensures (forall i :: 0 <= i < |es| ==> !NamesFacility(es[i])) ==> OnElements(s, source, es).nda == s.nda
  {
    forall i | LastDesignation(es, i)
      ensures OnElements(s, source, es).nda == Some(Endpoint(es[i].args[0].text, ""))
    {
      NdaIsLast(s, source, es, i);
    }
    if forall i :: 0 <= i < |es| ==> !NamesFacility(es[i]) { NdaStays(s, source, es); }
  }

  /**
    An accepted application message. The Next Data Authority becomes the
    facility of the last UM160 carrying one and stays as it was if there is
    none; the slots keep their order and lose one occurrence of the sender per
    UM161, never anything else.
  */
  lemma ApplicationEffect(env: Envelope, cur: Option<SessionState>)
    requires env.message.Application? && Update(env, cur).Ok? && WellFormed(cur.value)
    ensures var s, t, es := cur.value, Update(env, cur).value, env.message.elements;
            && WellFormed(t)
            && t.aircraft == s.aircraft
            && Slots(t) == Without(Slots(s), env.source, CountEndService(es))
            && (forall i :: LastDesignation(es, i) ==> t.nda == Some(Endpoint(es[i].args[0].text, "")))
            && ((forall i :: 0 <= i < |es| ==> !NamesFacility(es[i])) ==> t.nda == s.nda)
  {
    ElementsSlots(cur.value, env.source, env.message.elements);
    ElementsNda(cur.value, env.source, env.message.elements);
  }

  /** Two END SERVICE elements always clear the sender; one need not. */
  lemma TwoEndServicesClearTheSender(env: Envelope, cur: Option<SessionState>)
    requires env.message.Application? && Update(env, cur).Ok? && WellFormed(cur.value)
    ensures var t := Update(env, cur).value;
            var n := CountEndService(env.message.elements);
            && (n == 1 ==> (Occupies(t, env.source) <==> Occurrences(Slots(cur.value), env.source) == 2))
            && (n >= 2 ==> !Occupies(t, env.source))
  {
    var s := cur.value;
    ApplicationEffect(env, cur);
    WithoutCounts(Slots(s), env.source, CountEndService(env.message.elements));
    OccupiesIsOccurs(s, env.source);
    OccupiesIsOccurs(Update(env, cur).value, env.source);
  }

  lemma OccupiesIsOccurs(s: SessionState, station: Callsign)
    ensures Occupies(s, station) <==> Occurrences(Slots(s), station) > 0
    ensures Occurrences(Slots(s), station) <= 2
  {
    var cs := Slots(s);
    if cs != [] {
      var tail := cs[1..];
      assert Occurrences(cs, station)
          == (if cs[0].station.callsign == station then 1 else 0) + Occurrences(tail, station);
      if tail != [] {
        assert tail[1..] == [];
        assert tail == [s.inactive.value];
      }
    }
  }

  // ---------------------------------------------------------------------
  // From logon to connection, message by message
  // ---------------------------------------------------------------------

  /** What is stored after one envelope. */
  function Served(cur: Option<SessionState>, env: Envelope): Option<SessionState> {
    if TouchesStore(env) && Update(env, cur).Ok? then Some(Update(env, cur).value) else cur
  }

  function ServedAll(cur: Option<SessionState>, envs: seq<Envelope>): Option<SessionState> {
    if envs == [] then cur else Served(ServedAll(cur, envs[..|envs| - 1]), envs[|envs| - 1])
  }

  function FromAircraft(a: Endpoint, station: Callsign, m: Message): Envelope {
    Envelope(a, a.callsign, station, m)
  }

  function FromStation(a: Endpoint, station: Callsign, m: Message): Envelope {
    Envelope(a, station, a.callsign, m)
  }

  /** The aircraft asks for a logon, the station accepts and asks to connect, the aircraft accepts. */
  function Handshake(a: Endpoint, station: Callsign): seq<Envelope> {
    [FromAircraft(a, station, LogonRequestMessage(station)), FromStation(a, station, LogonResponse(true)),
     FromStation(a, station, ConnectionRequestMessage), FromAircraft(a, station, ConnectionResponse(true))]
  }

  function FirstPhase(cur: Option<SessionState>, station: Callsign): Option<Phase> {
    if cur.Some? && FirstSlotOf(cur.value, station).Some? then Some(PhaseOf(FirstSlotOf(cur.value, station).value))
    else None
  }

  /** Whatever was stored before, the handshake takes the station from pending through logged on to connected. */
  lemma {:induction false} HandshakeConnects(cur: Option<SessionState>, a: Endpoint, station: Callsign)
    requires cur.Some? ==> WellFormed(cur.value)
    ensures var envs := Handshake(a, station);
            && FirstPhase(ServedAll(cur, envs[..1]), station).Some?
            && FirstPhase(ServedAll(cur, envs), station) == Some(Connected)
            && (FirstPhase(cur, station).None? ==>
                  && FirstPhase(ServedAll(cur, envs[..1]), station) == Some(LogonPending)
                  && FirstPhase(ServedAll(cur, envs[..2]), station) == Some(LoggedOn)
                  && FirstPhase(ServedAll(cur, envs[..3]), station) == Some(LoggedOn))
  {
    var envs := Handshake(a, station);
    ServedSnoc(cur, [], envs[0]);
    ServedSnoc(cur, envs[..1], envs[1]);
    ServedSnoc(cur, envs[..2], envs[2]);
    ServedSnoc(cur, envs[..3], envs[3]);
    assert envs[..1] == [] + [envs[0]] && envs[..2] == envs[..1] + [envs[1]];
    assert envs[..3] == envs[..2] + [envs[2]] && envs == envs[..3] + [envs[3]];
  }

  lemma ServedSnoc(cur: Option<SessionState>, envs: seq<Envelope>, env: Envelope)
    ensures ServedAll(cur, envs + [env]) == Served(ServedAll(cur, envs), env)
  {
    assert (envs + [env])[..|envs|] == envs;
  }

  /** A refusal, or an acceptance by or for somebody else, takes the station nowhere. */
  lemma OnlyItsOwnAnswerCounts(cur: Option<SessionState>, env: Envelope, station: Callsign)
    requires env.message.LogonResponse? || env.message.ConnectionResponse?
    requires var party := if env.message.LogonResponse? then env.source else env.destination;
             !env.message.accepted || party != station
    ensures FirstPhase(Served(cur, env), station) == FirstPhase(cur, station)
  {}
}
