/**
  The session read off its history alone: who sits in which slot, who is
  designated, and how far each connection has come.
*/
module Timeline {
  import opened Common
  import opened Session
  import opened SessionHistory

  // ---------------------------------------------------------------------
  // What the history says
  // ---------------------------------------------------------------------

  /** The Next Data Authority is the last one designated. */
  function Designated(es: seq<Event>): Option<Endpoint> {
    if es == [] then None
    else
      match es[|es| - 1]
      case NextDataAuthority(station) => Some(station)
      case _ => Designated(es[..|es| - 1])
  }

  predicate Among(seats: seq<Endpoint>, c: Callsign) {
    exists i :: 0 <= i < |seats| && seats[i].callsign == c
  }

  /** A newcomer sits behind the first station, whoever was there before. */
  function Seated(seats: seq<Endpoint>, station: Endpoint): seq<Endpoint> {
    if seats == [] then [station] else [seats[0], station]
  }

  /** The first seat of the station becomes free, and the others move up. */
  function Vacated(seats: seq<Endpoint>, c: Callsign): seq<Endpoint> {
    if seats == [] then []
    else if seats[0].callsign == c then seats[1..]
    else [seats[0]] + Vacated(seats[1..], c)
  }

  predicate Calls(station: Option<Endpoint>, c: Callsign) {
    station.Some? && station.value.callsign == c
  }

  /** The stations in the session, the active one first. */
  function Seats(es: seq<Event>): seq<Endpoint> {
    if es == [] then []
    else
      var init := es[..|es| - 1];
      var seats := Seats(init);
      match es[|es| - 1]
      case LogonRequest(station) => Seated(seats, station)
      case ConnectionRequest(c) =>
        if !Among(seats, c) && Calls(Designated(init), c) then Seated(seats, Endpoint(c, "")) else seats
      case Termination(c) => Vacated(seats, c)
      case _ => seats
  }

  /**
    Event `i` gives the station a fresh first connection: it enters, it asks
    again while another station is active, or it ends the first of two.
  */
  predicate Starts(es: seq<Event>, i: nat, c: Callsign)
    requires i < |es|
  {
    var before, after := Seats(es[..i]), Seats(es[..i + 1]);
    Among(after, c)
    && (!Among(before, c) || (Requests(es[i], c) && before[0].callsign != c) || es[i] == Termination(c))
  }

  predicate StartsLater(es: seq<Event>, i: nat, c: Callsign) {
    exists m :: i < m < |es| && Starts(es, m, c)
  }

  /** Event `i` logs the station on: its own acceptance, or its entry as the designated next authority. */
  predicate Logon(es: seq<Event>, i: nat, c: Callsign)
    requires i < |es|
  {
    es[i] == LogonAccepted(c) || (es[i] == ConnectionRequest(c) && Starts(es, i, c))
  }

  /** A logon since the station's first connection is what it is. */
  predicate LoggedOn(es: seq<Event>, c: Callsign) {
    exists i: nat :: i < |es| && Logon(es, i, c) && !StartsLater(es, i, c)
  }

  /** A connection acceptance after such a logon. */
  predicate ConnectedAfterLogon(es: seq<Event>, c: Callsign) {
    exists i: nat, k: nat ::
      i < k < |es| && Logon(es, i, c) && !StartsLater(es, i, c) && es[k] == ConnectionAccepted(c)
  }

  // ---------------------------------------------------------------------
  // One event
  // ---------------------------------------------------------------------

  lemma {:induction false} InPrefix(es: seq<Event>, e: Event, i: nat, c: Callsign)
    requires i < |es|
    ensures Starts(es + [e], i, c) <==> Starts(es, i, c)
    ensures Logon(es + [e], i, c) <==> Logon(es, i, c)
  {
    assert (es + [e])[..i] == es[..i] && (es + [e])[..i + 1] == es[..i + 1];
  }

  lemma {:induction false} StartsLaterSnoc(es: seq<Event>, e: Event, i: nat, c: Callsign)
    requires i < |es|
    ensures StartsLater(es + [e], i, c) <==> StartsLater(es, i, c) || Starts(es + [e], |es|, c)
  {
    var fs := es + [e];
    forall m | i < m < |es| ensures Starts(fs, m, c) <==> Starts(es, m, c) { InPrefix(es, e, m, c); }
    if StartsLater(es, i, c) {
      var m :| i < m < |es| && Starts(es, m, c);
      assert Starts(fs, m, c);
    }
  }

  /** What one more event does to being logged on. */
  lemma {:induction false} LoggedOnSnoc(es: seq<Event>, e: Event, c: Callsign)
    ensures LoggedOn(es + [e], c) <==>
              if Starts(es + [e], |es|, c) then e == ConnectionRequest(c)
              else LoggedOn(es, c) || e == LogonAccepted(c)
  {
    var fs, n := es + [e], |es|;
    forall i: nat | i < n
      ensures Logon(fs, i, c) && !StartsLater(fs, i, c) <==>
              Logon(es, i, c) && !StartsLater(es, i, c) && !Starts(fs, n, c)
    {
      InPrefix(es, e, i, c);
      StartsLaterSnoc(es, e, i, c);
    }
    assert !StartsLater(fs, n, c);
    if LoggedOn(es, c) && !Starts(fs, n, c) {
      var i: nat :| i < n && Logon(es, i, c) && !StartsLater(es, i, c);
      assert Logon(fs, i, c) && !StartsLater(fs, i, c);
    }
    if Logon(fs, n, c) { assert LoggedOn(fs, c); }
    assert Starts(fs, n, c) ==> e != LogonAccepted(c) by { AcceptanceStartsNothing(es, e, c); }
  }

  lemma {:induction false} AcceptanceStartsNothing(es: seq<Event>, e: Event, c: Callsign)
    ensures Starts(es + [e], |es|, c) ==> !e.LogonAccepted? && !e.ConnectionAccepted?
  {
    var fs := es + [e];
    assert fs[..|es|] == es && fs[..|es| + 1] == fs;
  }

  /** What one more event does to being connected. */
  lemma {:induction false} ConnectedSnoc(es: seq<Event>, e: Event, c: Callsign)
    ensures ConnectedAfterLogon(es + [e], c) <==>
              !Starts(es + [e], |es|, c)
              && (ConnectedAfterLogon(es, c) || (LoggedOn(es, c) && e == ConnectionAccepted(c)))
  {
    var fs, n := es + [e], |es|;
    forall i: nat | i < n
      ensures Logon(fs, i, c) && !StartsLater(fs, i, c) <==>
              Logon(es, i, c) && !StartsLater(es, i, c) && !Starts(fs, n, c)
    {
      InPrefix(es, e, i, c);
      StartsLaterSnoc(es, e, i, c);
    }
    if ConnectedAfterLogon(es, c) && !Starts(fs, n, c) {
      var i: nat, k: nat :|
        i < k < n && Logon(es, i, c) && !StartsLater(es, i, c) && es[k] == ConnectionAccepted(c);
      assert Logon(fs, i, c) && !StartsLater(fs, i, c) && fs[k] == ConnectionAccepted(c);
    }
    if LoggedOn(es, c) && e == ConnectionAccepted(c) && !Starts(fs, n, c) {
      var i: nat :| i < n && Logon(es, i, c) && !StartsLater(es, i, c);
      assert Logon(fs, i, c) && !StartsLater(fs, i, c) && fs[n] == ConnectionAccepted(c);
    }
    if ConnectedAfterLogon(fs, c) {
      var i: nat, k: nat :|
        i < k < |fs| && Logon(fs, i, c) && !StartsLater(fs, i, c) && fs[k] == ConnectionAccepted(c);
      assert Logon(es, i, c) && !StartsLater(es, i, c) && !Starts(fs, n, c);
    }
  }

  // ---------------------------------------------------------------------
  // The session is what its history says
  // ---------------------------------------------------------------------

  /** The stations in the slots, the active one first. */
  function Stations(s: SessionState): seq<Endpoint> {
    (if s.active.Some? then [s.active.value.station] else []) +
    (if s.inactive.Some? then [s.inactive.value.station] else [])
  }

  predicate AsFar(c: Connection, logon: bool, connection: bool) {
    c.logon == logon && c.connection == connection
  }

  /** A station's first connection is as far as the history says; a second one is fresh. */
  ghost predicate Told(s: SessionState, a: Endpoint, es: seq<Event>) {
    && s.aircraft == a
    && s.nda == Designated(es)
    && (s.inactive.Some? ==> s.active.Some?)
    && Stations(s) == Seats(es)
    && (s.active.Some? ==>
          var c := s.active.value.station.callsign; AsFar(s.active.value, LoggedOn(es, c), ConnectedAfterLogon(es, c)))
    && (s.inactive.Some? ==>
          var c := s.inactive.value.station.callsign;
          if Holds(s.active, c) then AsFar(s.inactive.value, false, false)
          else AsFar(s.inactive.value, LoggedOn(es, c), ConnectedAfterLogon(es, c)))
  }

  /** What one event does to the seats and the designation. */
  lemma {:induction false} SeatsSnoc(s: SessionState, a: Endpoint, es: seq<Event>, e: Event)
    requires Told(s, a, es)
    ensures var t := Advance(s, e);
            && t.aircraft == a && t.nda == Designated(es + [e])
            && (t.inactive.Some? ==> t.active.Some?) && Stations(t) == Seats(es + [e])
  {
    assert (es + [e])[..|es|] == es;
    AmongIsOccupies(s);
    match e
    case Termination(c) => VacatedIs(s, c);
    case _ =>
  }

  lemma AmongIsOccupies(s: SessionState)
    ensures forall c :: Among(Stations(s), c) <==> Occupies(s, c)
  {
    var seats := Stations(s);
    if s.active.Some? { assert seats[0] == s.active.value.station; }
    if s.inactive.Some? { assert seats[|seats| - 1] == s.inactive.value.station; }
  }

  lemma VacatedIs(s: SessionState, c: Callsign)
    requires s.inactive.Some? ==> s.active.Some?
    ensures Vacated(Stations(s), c) == Stations(OnTermination(s, c))
  {
    var seats := Stations(s);
    if s.active.Some? && s.inactive.Some? {
      var last := [s.inactive.value.station];
      assert seats[1..] == last && last[1..] == [];
      assert Vacated(last, c) == if Holds(s.inactive, c) then [] else last;
    } else if s.active.Some? {
      assert seats[1..] == [];
    }
  }

  /** The session as event `e` finds it, for the first connection of a station. */
  predicate StartsNow(s: SessionState, e: Event, c: Callsign) {
    Occupies(Advance(s, e), c)
    && (!Occupies(s, c) || (Requests(e, c) && !Holds(s.active, c)) || e == Termination(c))
  }

  lemma {:induction false} StartsNowIs(s: SessionState, a: Endpoint, es: seq<Event>, e: Event, c: Callsign)
    requires Told(s, a, es)
    ensures Starts(es + [e], |es|, c) <==> StartsNow(s, e, c)
  {
    var fs := es + [e];
    assert fs[..|es|] == es && fs[..|es| + 1] == fs;
    SeatsSnoc(s, a, es, e);
    AmongIsOccupies(s);
    AmongIsOccupies(Advance(s, e));
  }

  /** What one event does to a station's first connection. */
  lemma FirstAfter(s: SessionState, e: Event, c: Callsign)
    requires (s.inactive.Some? ==> s.active.Some?) && Occupies(Advance(s, e), c)
    requires TwinIsFresh(s)
    ensures var d := FirstSlotOf(Advance(s, e), c).value;
            if StartsNow(s, e, c) then AsFar(d, e == ConnectionRequest(c), false)
            else
              && Occupies(s, c)
              && var b := FirstSlotOf(s, c).value;
                 AsFar(d, b.logon || e == LogonAccepted(c), b.connection || (b.logon && e == ConnectionAccepted(c)))
    ensures TwinIsFresh(Advance(s, e))
  {}

  predicate TwinIsFresh(s: SessionState) {
    s.active.Some? && Holds(s.inactive, s.active.value.station.callsign) ==> AsFar(s.inactive.value, false, false)
  }

  lemma {:induction false} ToldNext(s: SessionState, a: Endpoint, es: seq<Event>, e: Event)
    requires Told(s, a, es)
    ensures Told(Advance(s, e), a, es + [e])
  {
    var t := Advance(s, e);
    SeatsSnoc(s, a, es, e);
    forall c | Occupies(t, c)
      ensures AsFar(FirstSlotOf(t, c).value, LoggedOn(es + [e], c), ConnectedAfterLogon(es + [e], c))
    {
      FirstAfter(s, e, c);
      StartsNowIs(s, a, es, e, c);
      LoggedOnSnoc(es, e, c);
      ConnectedSnoc(es, e, c);
    }
    if t.active.Some? { FirstAfter(s, e, t.active.value.station.callsign); }
    if t.inactive.Some? { assert Occupies(t, t.inactive.value.station.callsign); }
  }

  /** A history tells one session only. */
  lemma ToldOnce(s: SessionState, t: SessionState, a: Endpoint, es: seq<Event>)
    requires Told(s, a, es) && Told(t, a, es)
    ensures s == t
  {
    assert |Stations(s)| == |Stations(t)|;
    if s.active.Some? { assert Stations(s)[0] == Stations(t)[0]; }
    if s.inactive.Some? { assert Stations(s)[1] == Stations(t)[1]; }
  }

  /**
    The session after any history is the one session the history tells: the
    seats by the order of requests, entries and terminations, and every first
    connection logged on, or connected, exactly if the history holds a logon,
    or a connection acceptance after one, since the connection is what it is.
  */
  lemma {:induction false} SessionIsTold(a: Endpoint, es: seq<Event>, s: SessionState)
    ensures s == Replay(NewSession(a), es) <==> Told(s, a, es)
  {
    ReplayIsTold(a, es);
    if Told(s, a, es) { ToldOnce(s, Replay(NewSession(a), es), a, es); }
  }

  lemma {:induction false} ReplayIsTold(a: Endpoint, es: seq<Event>)
    ensures Told(Replay(NewSession(a), es), a, es)
  {
    if es != [] {
      var init := es[..|es| - 1];
      ReplayIsTold(a, init);
      ToldNext(Replay(NewSession(a), init), a, init, es[|es| - 1]);
      assert es == init + [es[|es| - 1]];
    }
  }
}
