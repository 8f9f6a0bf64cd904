/**
  The views of a session the server sends out, the choice of the stations it
  sends them to, and what an ATC client makes of one.
*/
module Views {
  import opened Common
  import opened Session

  datatype ConnectionView = ConnectionView(peer: Callsign, phase: Phase)

  datatype SessionView = SessionView(
    aircraft: Option<Callsign>,
    aircraftAddress: Option<Address>,
    active: Option<ConnectionView>,
    inactive: Option<ConnectionView>,
    nda: Option<Callsign>)

  function SlotView(slot: Option<Connection>, station: Callsign, peer: Callsign): Option<ConnectionView> {
    if Holds(slot, station) then Some(ConnectionView(peer, PhaseOf(slot.value))) else None
  }

  function ToStationView(s: SessionState, station: Callsign): SessionView {
    SessionView(
      Some(s.aircraft.callsign),
      Some(s.aircraft.address),
      SlotView(s.active, station, s.aircraft.callsign),
      SlotView(s.inactive, station, s.aircraft.callsign),
      if s.nda.Some? then Some(s.nda.value.callsign) else None)
  }

  /** A slot as the station in it should see it: whom it talks to and how far the connection is. */
  predicate PortraysSlot(v: Option<ConnectionView>, slot: Option<Connection>, station: Callsign, peer: Callsign) {
    && (v.Some? <==> slot.Some? && slot.value.station.callsign == station)
    && (v.Some? ==>
          && v.value.peer == peer
          && (v.value.phase == Connected <==> slot.value.connection)
          && (v.value.phase == LoggedOn <==> slot.value.logon && !slot.value.connection)
          && (v.value.phase == LogonPending <==> !slot.value.logon && !slot.value.connection))
  }

  /** The view shows the aircraft, its next authority, and each slot the station is in as that slot. */
  predicate Portrays(v: SessionView, s: SessionState, station: Callsign) {
    && v.aircraft == Some(s.aircraft.callsign) && v.aircraftAddress == Some(s.aircraft.address)
    && (v.nda.Some? <==> s.nda.Some?) && (v.nda.Some? ==> v.nda.value == s.nda.value.callsign)
    && PortraysSlot(v.active, s.active, station, s.aircraft.callsign)
    && PortraysSlot(v.inactive, s.inactive, station, s.aircraft.callsign)
  }

  /** The view sent out is the only one that portrays the session. */
  lemma ViewPortrays(v: SessionView, s: SessionState, station: Callsign)
    ensures v == ToStationView(s, station) <==> Portrays(v, s, station)
  {}

  /** A party of the triggering exchange other than the aircraft. */
  predicate TookPart(s: SessionState, source: Callsign, destination: Callsign, c: Callsign) {
    c != s.aircraft.callsign && (c == source || c == destination)
  }

  predicate IsTarget(s: SessionState, source: Callsign, destination: Callsign, c: Callsign) {
    Occupies(s, c) || TookPart(s, source, destination, c)
  }

  /** Fill the set of stations to notify, as `broadcast_session_update` does. */
  method BroadcastTargets(s: SessionState, source: Callsign, destination: Callsign) returns (targets: set<Callsign>)
    ensures forall c :: c in targets <==>
      || (s.active.Some? && c == s.active.value.station.callsign)
      || (s.inactive.Some? && c == s.inactive.value.station.callsign)
      || (c != s.aircraft.callsign && (c == source || c == destination))
  {
    targets := {};
    if s.active.Some? {
      targets := targets + {s.active.value.station.callsign};
    }
    if s.inactive.Some? {
      targets := targets + {s.inactive.value.station.callsign};
    }
    if source != s.aircraft.callsign {
      targets := targets + {source};
    }
    if destination != s.aircraft.callsign {
      targets := targets + {destination};
    }
  }

  // ---------------------------------------------------------------------
  // The client
  // ---------------------------------------------------------------------

  function KeyOf(v: SessionView): Option<Callsign> {
    if v.aircraft.Some? then v.aircraft
    else if v.active.Some? then Some(v.active.value.peer)
    else if v.inactive.Some? then Some(v.inactive.value.peer)
    else None
  }

  function Reconcile(sessions: map<Callsign, SessionView>, v: SessionView): map<Callsign, SessionView> {
    match KeyOf(v)
    case None => sessions
    case Some(key) =>
      if v.active.None? && v.inactive.None? then sessions - {key} else sessions[key := v]
  }

  /** The flight a view is about: its aircraft, or else whom it says the station talks to. */
  predicate IsOf(v: SessionView, f: Callsign) {
    || v.aircraft == Some(f)
    || (v.aircraft.None? && v.active.Some? && v.active.value.peer == f)
    || (v.aircraft.None? && v.active.None? && v.inactive.Some? && v.inactive.value.peer == f)
  }

  /** A view replaces its flight while a slot is shown and removes it otherwise; nothing else changes. */
  lemma ReconcileIs(sessions: map<Callsign, SessionView>, v: SessionView, f: Callsign)
    ensures var after := Reconcile(sessions, v);
            && (f in after <==> if IsOf(v, f) then v.active.Some? || v.inactive.Some? else f in sessions)
            && (f in after ==> after[f] == if IsOf(v, f) then v else sessions[f])
  {}

  class AtcTab {
    const isAtc: bool
    var session: Option<SessionView>
    var atcSessions: map<Callsign, SessionView>
    var selectedFlightIdx: Option<nat>

    constructor (isAtc: bool)
      ensures this.isAtc == isAtc && session.None? && atcSessions == map[] && selectedFlightIdx.None?
    {
      this.isAtc := isAtc;
      session := None;
      atcSessions := map[];
      selectedFlightIdx := None;
    }

    /** The selection of an ATC tab always points at a listed flight. */
    ghost predicate Valid()
      reads this
    {
      isAtc && selectedFlightIdx.Some? ==> selectedFlightIdx.value < |atcSessions|
    }

    method OnSessionUpdate(v: SessionView)
      modifies this
      ensures Valid()
      ensures session == Some(v)
      ensures atcSessions == if isAtc then Reconcile(old(atcSessions), v) else old(atcSessions)
      ensures selectedFlightIdx ==
        if old(selectedFlightIdx).Some? && isAtc && old(selectedFlightIdx).value >= |atcSessions| then None
        else old(selectedFlightIdx)
    {
      session := Some(v);
      if isAtc {
        var key: Option<Callsign> := v.aircraft;
        if key.None? && v.active.Some? {
          key := Some(v.active.value.peer);
        }
        if key.None? && v.inactive.Some? {
          key := Some(v.inactive.value.peer);
        }
        if key.Some? {
          if v.active.None? && v.inactive.None? {
            atcSessions := atcSessions - {key.value};
          } else {
            atcSessions := atcSessions[key.value := v];
          }
        }
        if selectedFlightIdx.Some? && selectedFlightIdx.value >= |atcSessions| {
          selectedFlightIdx := None;
        }
      }
    }
  }
}
