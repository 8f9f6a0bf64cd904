/**
  The CPDLC session of one aircraft: two connection slots (active, inactive)
  and an optional Next Data Authority.

  `SessionState` is the value that is serialised into the session store and
  the `On...` functions are the specification of the transitions. The classes
  `CPDLCConnection` and `CPDLCSession` are the objects the server mutates while
  it handles a message; each method is proved against its `On...` function.
*/
module Session {
  import opened Common

  type Address = string

  datatype Endpoint = Endpoint(callsign: Callsign, address: Address)

  datatype Connection = Connection(station: Endpoint, logon: bool, connection: bool)

  datatype SessionState = SessionState(
    aircraft: Endpoint,
    active: Option<Connection>,
    inactive: Option<Connection>,
    nda: Option<Endpoint>)

  datatype Phase = LogonPending | LoggedOn | Connected | Terminated

  // ---------------------------------------------------------------------
  // Specification of the transitions
  // ---------------------------------------------------------------------

  function NewConnection(station: Endpoint): Connection {
    Connection(station, false, false)
  }

  function NewSession(aircraft: Endpoint): SessionState {
    SessionState(aircraft, None, None, None)
  }

  predicate Holds(slot: Option<Connection>, station: Callsign) {
    slot.Some? && slot.value.station.callsign == station
  }

  /** `station` sits in one of the two slots. */
  predicate Occupies(s: SessionState, station: Callsign) {
    Holds(s.active, station) || Holds(s.inactive, station)
  }

  /** The connection a station is served by: the active one if it holds both. */
  function FirstSlotOf(s: SessionState, station: Callsign): Option<Connection> {
    if Holds(s.active, station) then s.active
    else if Holds(s.inactive, station) then s.inactive
    else None
  }

  function Place(s: SessionState, c: Connection): SessionState {
    if s.active.None? then s.(active := Some(c)) else s.(inactive := Some(c))
  }

  function OnLogonRequest(s: SessionState, station: Endpoint): SessionState {
    Place(s, NewConnection(station))
  }

  function OnLogonAccepted(s: SessionState, station: Callsign): SessionState {
    if Holds(s.active, station) then s.(active := Some(s.active.value.(logon := true)))
    else if Holds(s.inactive, station) then s.(inactive := Some(s.inactive.value.(logon := true)))
    else s
  }

  function OnConnectionRequest(s: SessionState, station: Callsign): SessionState {
    if Occupies(s, station) then s
    else if s.nda.Some? && s.nda.value.callsign == station then
      Place(s, Connection(Endpoint(station, ""), true, false))
    else s
  }

  function Connect(c: Connection): Result<Connection> {
    if c.logon then Ok(c.(connection := true)) else Err("cannot connect without prior logon")
  }

  function OnConnectionAccepted(s: SessionState, station: Callsign): Result<SessionState> {
    if Holds(s.active, station) then
      match Connect(s.active.value)
      case Ok(c) => Ok(s.(active := Some(c)))
      case Err(e) => Err(e)
    else if Holds(s.inactive, station) then
      match Connect(s.inactive.value)
      case Ok(c) => Ok(s.(inactive := Some(c)))
      case Err(e) => Err(e)
    else Ok(s)
  }

  function OnNextDataAuthority(s: SessionState, station: Endpoint): SessionState {
    s.(nda := Some(station))
  }

  function OnTermination(s: SessionState, station: Callsign): SessionState {
    if Holds(s.active, station) then s.(active := s.inactive, inactive := None)
    else if Holds(s.inactive, station) then s.(inactive := None)
    else s
  }

  function PhaseOf(c: Connection): Phase {
    if c.connection then Connected else if c.logon then LoggedOn else LogonPending
  }

  // ---------------------------------------------------------------------
  // The mutable objects
  // ---------------------------------------------------------------------

  class CPDLCConnection {
    var station: Endpoint
    var logon: bool
    var connection: bool

    ghost function Value(): Connection
      reads this
    {
      Connection(station, logon, connection)
    }

    constructor (station: Endpoint)
      ensures Value() == NewConnection(station)
    {
      this.station := station;
      logon := false;
      connection := false;
    }

    /** Rebuild a connection from its stored form. */
    constructor Load(c: Connection)
      ensures Value() == c
    {
      station := c.station;
      logon := c.logon;
      connection := c.connection;
    }

    method Logon()
      modifies this
      ensures Value() == old(Value()).(logon := true)
    {
      logon := true;
    }

    method Establish() returns (failed: bool)
      modifies this
      ensures failed == Connect(old(Value())).Err?
      ensures Value() == if failed then old(Value()) else Connect(old(Value())).value
    {
      if logon {
        connection := true;
        failed := false;
      } else {
        failed := true;
      }
    }
  }

  class CPDLCSession {
    var aircraft: Endpoint
    var activeConnection: CPDLCConnection?
    var inactiveConnection: CPDLCConnection?
    var nextDataAuthority: Option<Endpoint>

    ghost function Repr(): set<object>
      reads this
    {
      {this} +
      (if activeConnection == null then {} else {activeConnection}) +
      (if inactiveConnection == null then {} else {inactiveConnection})
    }

    /** The two slots never share one connection object. */
    ghost predicate Valid()
      reads this
    {
      activeConnection == null || activeConnection != inactiveConnection
    }

    static ghost function Slot(c: CPDLCConnection?): Option<Connection>
      reads c
    {
      if c == null then None else Some(c.Value())
    }

    ghost function Value(): SessionState
      reads this, activeConnection, inactiveConnection
    {
      SessionState(aircraft, Slot(activeConnection), Slot(inactiveConnection), nextDataAuthority)
    }

    constructor (aircraft: Endpoint)
      ensures Valid() && fresh(Repr())
      ensures Value() == NewSession(aircraft)
    {
      this.aircraft := aircraft;
      activeConnection := null;
      inactiveConnection := null;
      nextDataAuthority := None;
    }

    /** Rebuild a session from its stored form. */
    constructor Load(s: SessionState)
      ensures Valid() && fresh(Repr())
      ensures Value() == s
    {
      aircraft := s.aircraft;
      nextDataAuthority := s.nda;
      var a: CPDLCConnection?, i: CPDLCConnection? := null, null;
      if s.active.Some? {
        a := new CPDLCConnection.Load(s.active.value);
      }
      if s.inactive.Some? {
        i := new CPDLCConnection.Load(s.inactive.value);
      }
      activeConnection := a;
      inactiveConnection := i;
    }

    method LogonRequest(station: Endpoint)
      requires Valid()
      modifies Repr()
      ensures Valid() && fresh(Repr() - old(Repr()))
      ensures Value() == OnLogonRequest(old(Value()), station)
    {
      var connection := new CPDLCConnection(station);
      if activeConnection == null {
        activeConnection := connection;
      } else {
        inactiveConnection := connection;
      }
    }

    method LogonAccepted(station: Callsign)
      requires Valid()
      modifies Repr()
      ensures Valid() && fresh(Repr() - old(Repr()))
      ensures Value() == OnLogonAccepted(old(Value()), station)
    {
      if activeConnection != null && activeConnection.station.callsign == station {
        activeConnection.Logon();
        return;
      }
      if inactiveConnection != null && inactiveConnection.station.callsign == station {
        inactiveConnection.Logon();
        return;
      }
    }

    method ConnectionRequest(station: Callsign)
      requires Valid()
      modifies Repr()
      ensures Valid() && fresh(Repr() - old(Repr()))
      ensures Value() == OnConnectionRequest(old(Value()), station)
    {
      if activeConnection != null && activeConnection.station.callsign == station {
        return;
      }
      if inactiveConnection != null && inactiveConnection.station.callsign == station {
        return;
      }
      if nextDataAuthority.Some? && nextDataAuthority.value.callsign == station {
        // A designated next authority is logged on implicitly.
        var ndaConnection := new CPDLCConnection(Endpoint(station, ""));
        ndaConnection.Logon();
        if activeConnection == null {
          activeConnection := ndaConnection;
        } else {
          inactiveConnection := ndaConnection;
        }
      }
    }

    method ConnectionAccepted(station: Callsign) returns (failed: bool)
      requires Valid()
      modifies Repr()
      ensures Valid() && fresh(Repr() - old(Repr()))
      ensures failed == OnConnectionAccepted(old(Value()), station).Err?
      ensures Value() == if failed then old(Value()) else OnConnectionAccepted(old(Value()), station).value
    {
      failed := false;
      if activeConnection != null && activeConnection.station.callsign == station {
        failed := activeConnection.Establish();
        return;
      }
      if inactiveConnection != null && inactiveConnection.station.callsign == station {
        failed := inactiveConnection.Establish();
        return;
      }
    }

    method DesignateNextDataAuthority(station: Endpoint)
      requires Valid()
      modifies Repr()
      ensures Valid() && fresh(Repr() - old(Repr()))
      ensures Value() == OnNextDataAuthority(old(Value()), station)
    {
      nextDataAuthority := Some(station);
    }

    method TerminationRequest(station: Callsign)
      requires Valid()
      modifies Repr()
      ensures Valid() && fresh(Repr() - old(Repr()))
      ensures Value() == OnTermination(old(Value()), station)
    {
      if activeConnection != null && activeConnection.station.callsign == station {
        activeConnection, inactiveConnection := inactiveConnection, null;
        return;
      }
      if inactiveConnection != null && inactiveConnection.station.callsign == station {
        inactiveConnection := null;
        return;
      }
    }
  }
}
