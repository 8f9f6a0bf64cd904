/**
  The station registry and its reverse index from upper-cased callsign to
  station id. The upper-casing `key` is any function: nothing here depends on
  which one.
*/
module Registry {
  import opened Common
  import opened Sequences
  import opened Session

  type StationId = string
  type NetworkAddress = string
  type Keying = Callsign -> string

  datatype Status = Online | Offline

  datatype StationEntry = StationEntry(
    stationId: StationId,
    status: Status,
    lastUpdated: int,
    networkAddress: NetworkAddress,
    endpoint: Endpoint)

  function IdOf(e: StationEntry): StationId {
    e.stationId
  }

  datatype Reg = Reg(entries: map<StationId, StationEntry>, index: map<string, StationId>)

  /** One call of `update_status`, with the clock reading it takes. */
  datatype StatusUpdate = StatusUpdate(
    id: StationId,
    status: Status,
    endpoint: Endpoint,
    address: NetworkAddress,
    now: int)

  // ---------------------------------------------------------------------
  // Specification
  // ---------------------------------------------------------------------

  function Updated(reg: Reg, key: Keying, u: StatusUpdate): Reg {
    var dropped :=
      if u.id in reg.entries && reg.entries[u.id].endpoint.callsign != u.endpoint.callsign
      then reg.index - {key(reg.entries[u.id].endpoint.callsign)}
      else reg.index;
    var k := key(u.endpoint.callsign);
    Reg(reg.entries[u.id := StationEntry(u.id, u.status, u.now, u.address, u.endpoint)],
        if u.status == Online then dropped[k := u.id] else dropped - {k})
  }

  function Lookup(reg: Reg, key: Keying, callsign: Callsign): Option<StationEntry> {
    var k := key(callsign);
    if k in reg.index && reg.index[k] in reg.entries then Some(reg.entries[reg.index[k]]) else None
  }

  /** The slow form: `id` is online under key `k`. */
  predicate OnlineUnder(reg: Reg, key: Keying, id: StationId, k: string) {
    id in reg.entries && reg.entries[id].status == Online && key(reg.entries[id].endpoint.callsign) == k
  }

  /** Everything the index says is true of the registry. */
  ghost predicate Sound(reg: Reg, key: Keying) {
    && (forall id :: id in reg.entries ==> reg.entries[id].stationId == id)
    && (forall k :: k in reg.index ==> OnlineUnder(reg, key, reg.index[k], k))
  }

  /** The index finds the online station `id` under key `k`. */
  predicate Found(reg: Reg, id: StationId, k: string) {
    k in reg.index && reg.index[k] == id
  }

  /** Every online station is the one the index finds under its key. */
  ghost predicate Complete(reg: Reg, key: Keying) {
    forall id, k :: OnlineUnder(reg, key, id, k) ==> Found(reg, id, k)
  }

  /** A lookup is the scan it replaces: it finds an entry exactly if that entry is online under the callsign. */
  ghost predicate Scans(reg: Reg, key: Keying) {
    forall callsign: Callsign, id: StationId ::
      OnlineUnder(reg, key, id, key(callsign)) <==>
      id in reg.entries && Lookup(reg, key, callsign) == Some(reg.entries[id])
  }

  // ---------------------------------------------------------------------
  // Soundness and completeness
  // ---------------------------------------------------------------------

  lemma UpdateKeepsSound(reg: Reg, key: Keying, u: StatusUpdate)
    requires Sound(reg, key)
    ensures Sound(Updated(reg, key, u), key)
  {
    var reg' := Updated(reg, key, u);
    forall k | k in reg'.index ensures OnlineUnder(reg', key, reg'.index[k], k) {
      if k in reg.index && !(u.status == Online && k == key(u.endpoint.callsign)) {
        assert OnlineUnder(reg, key, reg.index[k], k);
      }
    }
  }

  /**
    A successful lookup under a sound index returns an online station of that
    callsign key, and no station is the target of two keys.
  */
  lemma LookupIsSound(reg: Reg, key: Keying, callsign: Callsign)
    requires Sound(reg, key)
    ensures var r := Lookup(reg, key, callsign);
            r.Some? ==> OnlineUnder(reg, key, r.value.stationId, key(callsign))
                        && reg.entries[r.value.stationId] == r.value
    ensures Lookup(reg, key, callsign).None? <==> key(callsign) !in reg.index
    ensures forall k, k' :: k in reg.index && k' in reg.index && reg.index[k] == reg.index[k'] ==> k == k'
  {
    var k := key(callsign);
    if k in reg.index {
      assert OnlineUnder(reg, key, reg.index[k], k);
    }
    forall k, k' | k in reg.index && k' in reg.index && reg.index[k] == reg.index[k'] ensures k == k' {
      assert OnlineUnder(reg, key, reg.index[k], k) && OnlineUnder(reg, key, reg.index[k'], k');
    }
  }

  /** The update takes key `k` out of the index. */
  predicate Drops(reg: Reg, key: Keying, u: StatusUpdate, k: string) {
    || (u.status != Online && k == key(u.endpoint.callsign))
    || (&& u.id in reg.entries
        && reg.entries[u.id].endpoint.callsign != u.endpoint.callsign
        && k == key(reg.entries[u.id].endpoint.callsign)
        && (u.status != Online || k != key(u.endpoint.callsign)))
  }

  /** Some other online station is registered under a key the update takes out. */
  predicate Orphans(reg: Reg, key: Keying, u: StatusUpdate) {
    exists id :: id in reg.entries && id != u.id && reg.entries[id].status == Online
                 && Drops(reg, key, u, key(reg.entries[id].endpoint.callsign))
  }

  /** Some other online station is registered under the key the update claims for its own. */
  predicate Overtakes(reg: Reg, key: Keying, u: StatusUpdate) {
    u.status == Online
    && exists id :: id in reg.entries && id != u.id && OnlineUnder(reg, key, id, key(u.endpoint.callsign))
  }

  /** The update takes key `k` away from whoever else has it. */
  predicate Takes(reg: Reg, key: Keying, u: StatusUpdate, k: string) {
    Drops(reg, key, u, k) || (u.status == Online && key(u.endpoint.callsign) == k)
  }

  /** An update of another station leaves an online one found exactly if it does not take its key. */
  lemma OthersFoundIff(reg: Reg, key: Keying, u: StatusUpdate, id: StationId, k: string)
    requires id != u.id
    ensures OnlineUnder(Updated(reg, key, u), key, id, k) <==> OnlineUnder(reg, key, id, k)
    ensures Found(Updated(reg, key, u), id, k) <==> Found(reg, id, k) && !Takes(reg, key, u, k)
  {
  }

  lemma OwnIsFound(reg: Reg, key: Keying, u: StatusUpdate, k: string)
    ensures OnlineUnder(Updated(reg, key, u), key, u.id, k) ==> Found(Updated(reg, key, u), u.id, k)
  {
  }

  /** The index stays complete exactly when the update neither orphans nor overtakes anybody. */
  lemma {:induction false} UpdateKeepsCompleteIff(reg: Reg, key: Keying, u: StatusUpdate)
    requires Sound(reg, key) && Complete(reg, key)
    ensures Complete(Updated(reg, key, u), key) <==> !Orphans(reg, key, u) && !Overtakes(reg, key, u)
  {
    var reg' := Updated(reg, key, u);
    if Orphans(reg, key, u) {
      var id :| id in reg.entries && id != u.id && reg.entries[id].status == Online
                && Drops(reg, key, u, key(reg.entries[id].endpoint.callsign));
      OthersFoundIff(reg, key, u, id, key(reg.entries[id].endpoint.callsign));
    } else if Overtakes(reg, key, u) {
      var id :| id in reg.entries && id != u.id && OnlineUnder(reg, key, id, key(u.endpoint.callsign));
      OthersFoundIff(reg, key, u, id, key(u.endpoint.callsign));
    } else {
      forall id, k | OnlineUnder(reg', key, id, k) ensures Found(reg', id, k) {
        if id == u.id {
          OwnIsFound(reg, key, u, k);
        } else {
          OthersFoundIff(reg, key, u, id, k);
        }
      }
    }
  }

  /** Under a sound index, being complete is being the scan. */
  lemma {:induction false} CompleteIffScans(reg: Reg, key: Keying)
    requires Sound(reg, key)
    ensures Complete(reg, key) <==> Scans(reg, key)
  {
    if Complete(reg, key) {
      forall callsign: Callsign, id: StationId
        ensures OnlineUnder(reg, key, id, key(callsign)) <==>
                id in reg.entries && Lookup(reg, key, callsign) == Some(reg.entries[id])
      {
        LookupIsSound(reg, key, callsign);
      }
    }
    if Scans(reg, key) {
      forall id, k | OnlineUnder(reg, key, id, k) ensures Found(reg, id, k) {
        var callsign := reg.entries[id].endpoint.callsign;
        assert Lookup(reg, key, callsign) == Some(reg.entries[id]);
        assert OnlineUnder(reg, key, reg.index[k], k);
      }
    }
  }

  // ---------------------------------------------------------------------
  // Runs
  // ---------------------------------------------------------------------

  function UpdatedAll(reg: Reg, key: Keying, us: seq<StatusUpdate>): Reg {
    if us == [] then reg else Updated(UpdatedAll(reg, key, us[..|us| - 1]), key, us[|us| - 1])
  }

  function Replayed(key: Keying, us: seq<StatusUpdate>): Reg {
    UpdatedAll(Reg(map[], map[]), key, us)
  }

  /** No two station ids ever register the same callsign key. */
  predicate NoSharedKeys(key: Keying, us: seq<StatusUpdate>) {
    forall i, j :: 0 <= i < |us| && 0 <= j < |us| && key(us[i].endpoint.callsign) == key(us[j].endpoint.callsign)
                   ==> us[i].id == us[j].id
  }

  ghost predicate FromUpdates(reg: Reg, us: seq<StatusUpdate>) {
    forall id :: id in reg.entries ==>
      exists i :: 0 <= i < |us| && us[i].id == id && us[i].endpoint == reg.entries[id].endpoint
  }

  lemma {:induction false} RunIsSound(key: Keying, us: seq<StatusUpdate>)
    ensures Sound(Replayed(key, us), key) && FromUpdates(Replayed(key, us), us)
  {
    if us != [] {
      var n := |us| - 1;
      var init := us[..n];
      RunIsSound(key, init);
      var before, reg := Replayed(key, init), Replayed(key, us);
      UpdateKeepsSound(before, key, us[n]);
      forall id | id in reg.entries
        ensures exists i :: 0 <= i < |us| && us[i].id == id && us[i].endpoint == reg.entries[id].endpoint
      {
        if id == us[n].id {
          assert us[n].endpoint == reg.entries[id].endpoint;
        } else {
          var i :| 0 <= i < n && init[i].id == id && init[i].endpoint == before.entries[id].endpoint;
          assert us[i] == init[i];
        }
      }
    }
  }

  /** Update `i` is the last one of station `id`. */
  predicate IsLast(us: seq<StatusUpdate>, i: int, id: StationId) {
    0 <= i < |us| && us[i].id == id && forall j :: i < j < |us| ==> us[j].id != id
  }

  /** The registry holds an entry for each station that ever reported, and it says what the last report said. */
  lemma {:induction false} EntriesAreLastReports(key: Keying, us: seq<StatusUpdate>, id: StationId)
    ensures var entries := Replayed(key, us).entries;
            && (id in entries <==> exists i :: IsLast(us, i, id))
            && forall i :: IsLast(us, i, id) ==>
                 var e := entries[id];
                 && e.stationId == id && e.status == us[i].status && e.lastUpdated == us[i].now
                 && e.networkAddress == us[i].address && e.endpoint == us[i].endpoint
  {
    if us != [] {
      var n := |us| - 1;
      EntriesAreLastReports(key, us[..n], id);
      if us[n].id == id {
        assert IsLast(us, n, id);
      } else {
        forall i ensures IsLast(us, i, id) <==> IsLast(us[..n], i, id) {}
      }
    }
  }

  /** A lookup was the scan at the start and after every update. */
  ghost predicate AlwaysScans(key: Keying, us: seq<StatusUpdate>) {
    Scans(Replayed(key, us), key) && (us != [] ==> AlwaysScans(key, us[..|us| - 1]))
  }

  /** No update of the run orphans or overtakes an online station. */
  predicate NeverLoses(key: Keying, us: seq<StatusUpdate>) {
    us != [] ==>
      var init, u := us[..|us| - 1], us[|us| - 1];
      NeverLoses(key, init) && !Orphans(Replayed(key, init), key, u) && !Overtakes(Replayed(key, init), key, u)
  }

  /**
    The index refines the scan over whole runs: after every update a lookup
    finds exactly the online station of the callsign, if and only if no update
    of the run orphans or overtakes one.
  */
  lemma {:induction false} AlwaysScansIff(key: Keying, us: seq<StatusUpdate>)
    ensures AlwaysScans(key, us) <==> NeverLoses(key, us)
  {
    RunIsSound(key, us);
    CompleteIffScans(Replayed(key, us), key);
    if us != [] {
      var init := us[..|us| - 1];
      AlwaysScansIff(key, init);
      RunIsSound(key, init);
      CompleteIffScans(Replayed(key, init), key);
      if AlwaysScans(key, init) { UpdateKeepsCompleteIff(Replayed(key, init), key, us[|us| - 1]); }
    }
  }

  /** Since the last update of `id` no update of another station took key `k`. */
  predicate KeptSince(key: Keying, us: seq<StatusUpdate>, id: StationId, k: string) {
    us != [] ==>
      var init, u := us[..|us| - 1], us[|us| - 1];
      u.id == id || (KeptSince(key, init, id, k) && !Takes(Replayed(key, init), key, u, k))
  }

  lemma {:induction false} FoundIffKept(key: Keying, us: seq<StatusUpdate>, id: StationId, k: string)
    requires OnlineUnder(Replayed(key, us), key, id, k)
    ensures Found(Replayed(key, us), id, k) <==> KeptSince(key, us, id, k)
  {
    if us != [] {
      var init, u := us[..|us| - 1], us[|us| - 1];
      if u.id == id {
        OwnIsFound(Replayed(key, init), key, u, k);
      } else {
        OthersFoundIff(Replayed(key, init), key, u, id, k);
        FoundIffKept(key, init, id, k);
      }
    }
  }

  /**
    One station at the end of any run: a lookup of its callsign finds it if and
    only if nobody took its key since its own last update, whatever else the
    run lost before.
  */
  lemma {:induction false} StationFoundIff(key: Keying, us: seq<StatusUpdate>, id: StationId, callsign: Callsign)
    requires OnlineUnder(Replayed(key, us), key, id, key(callsign))
    ensures var reg := Replayed(key, us);
            Lookup(reg, key, callsign) == Some(reg.entries[id]) <==> KeptSince(key, us, id, key(callsign))
  {
    RunIsSound(key, us);
    LookupIsSound(Replayed(key, us), key, callsign);
    FoundIffKept(key, us, id, key(callsign));
  }

  /** Where keys are not shared, no other entry has a key of the updating station. */
  lemma OthersHaveOtherKeys(key: Keying, us: seq<StatusUpdate>, id: StationId)
    requires us != [] && NoSharedKeys(key, us)
    requires var before, u := Replayed(key, us[..|us| - 1]), us[|us| - 1]; id in before.entries && id != u.id
    ensures var before, u := Replayed(key, us[..|us| - 1]), us[|us| - 1];
            var k := key(before.entries[id].endpoint.callsign);
            && k != key(u.endpoint.callsign)
            && (u.id in before.entries ==> k != key(before.entries[u.id].endpoint.callsign))
  {
    var n := |us| - 1;
    var init, u := us[..n], us[n];
    RunIsSound(key, init);
    var before := Replayed(key, init);
    var i :| 0 <= i < |init| && init[i].id == id && init[i].endpoint == before.entries[id].endpoint;
    var v := us[i];
    assert key(v.endpoint.callsign) == key(u.endpoint.callsign) ==> v.id == u.id;
    if u.id in before.entries {
      var j :| 0 <= j < |init| && init[j].id == u.id && init[j].endpoint == before.entries[u.id].endpoint;
      var w := us[j];
      assert key(v.endpoint.callsign) == key(w.endpoint.callsign) ==> v.id == w.id;
    }
  }

  /** No two station ids ever register the same callsign key: then nothing is lost. */
  lemma {:induction false} UnsharedLosesNothing(key: Keying, us: seq<StatusUpdate>)
    requires NoSharedKeys(key, us)
    ensures NeverLoses(key, us)
  {
    if us != [] {
      var n := |us| - 1;
      var init, u := us[..n], us[n];
      assert NoSharedKeys(key, init) by { assert forall i :: 0 <= i < n ==> init[i] == us[i]; }
      UnsharedLosesNothing(key, init);
      var before := Replayed(key, init);
      forall id | id in before.entries && id != u.id
        ensures !Takes(before, key, u, key(before.entries[id].endpoint.callsign))
      {
        OthersHaveOtherKeys(key, us, id);
      }
    }
  }

  /** The promise for callsign keys that are never shared. */
  lemma {:induction false} LookupIsScan(key: Keying, us: seq<StatusUpdate>)
    requires NoSharedKeys(key, us)
    ensures Scans(Replayed(key, us), key)
  {
    UnsharedLosesNothing(key, us);
    AlwaysScansIff(key, us);
  }

  /**
    Two ids come online under one callsign: the second overtakes the first,
    which is online and not found. When the first goes offline it orphans the
    second, and the callsign is not found at all.
  */
  lemma SharedKeyIsNotFound(key: Keying, a: Endpoint)
    ensures var us := [StatusUpdate("one", Online, a, "n1", 1),
                       StatusUpdate("two", Online, a, "n2", 2)];
            var reg := Replayed(key, us);
            && Overtakes(Replayed(key, us[..1]), key, us[1])
            && OnlineUnder(reg, key, "one", key(a.callsign)) && !Found(reg, "one", key(a.callsign))
            && Lookup(reg, key, a.callsign) == Some(reg.entries["two"])
    ensures var us := [StatusUpdate("one", Online, a, "n1", 1),
                       StatusUpdate("two", Online, a, "n2", 2),
                       StatusUpdate("one", Offline, a, "n1", 3)];
            var reg := Replayed(key, us);
            && Orphans(Replayed(key, us[..2]), key, us[2])
            && OnlineUnder(reg, key, "two", key(a.callsign)) && Lookup(reg, key, a.callsign) == None
  {
    var u1, u2, u3 := StatusUpdate("one", Online, a, "n1", 1), StatusUpdate("two", Online, a, "n2", 2),
                      StatusUpdate("one", Offline, a, "n1", 3);
    assert [u1, u2, u3][..2] == [u1, u2] && [u1, u2][..1] == [u1] && [u1][..0] == [];
    assert Replayed(key, [u1]) == Updated(Replayed(key, []), key, u1);
    assert Replayed(key, [u1, u2]) == Updated(Replayed(key, [u1]), key, u2);
    assert Replayed(key, [u1, u2, u3]) == Updated(Replayed(key, [u1, u2]), key, u3);
    assert "one" != "two";
  }

  // ---------------------------------------------------------------------
  // The mutable registry
  // ---------------------------------------------------------------------

  predicate IsStale(e: StationEntry, ttl: int, now: int) {
    e.status == Online && now - e.lastUpdated > ttl
  }

  /** The stale ones among the entries. */
  predicate ExpiresExactly(expired: seq<StationEntry>, entries: map<StationId, StationEntry>, ttl: int, now: int) {
    && (forall i :: 0 <= i < |expired| ==>
          var e := expired[i]; e.stationId in entries && entries[e.stationId] == e && IsStale(e, ttl, now))
    && (forall id :: id in entries && IsStale(entries[id], ttl, now) ==> entries[id] in expired)
  }

  /** A sweep expires a station if and only if its last report was that it is online, more than `ttl` ago. */
  lemma ExpiredIffSilent(key: Keying, us: seq<StatusUpdate>, expired: seq<StationEntry>, ttl: int, now: int,
                         id: StationId)
    requires ExpiresExactly(expired, Replayed(key, us).entries, ttl, now)
    ensures (exists e :: e in expired && e.stationId == id) <==>
            (exists i :: IsLast(us, i, id) && us[i].status == Online && now - us[i].now > ttl)
  {
    var entries := Replayed(key, us).entries;
    EntriesAreLastReports(key, us, id);
    RunIsSound(key, us);
    if e :| e in expired && e.stationId == id {
      var i :| IsLast(us, i, id);
    }
    if i :| IsLast(us, i, id) && us[i].status == Online && now - us[i].now > ttl {
      assert entries[id] in expired && entries[id].stationId == id;
    }
  }

  function Expired(e: StationEntry, now: int): StationEntry {
    e.(status := Offline, lastUpdated := now)
  }

  class StationRegistry {
    const key: Keying
    var entries: map<StationId, StationEntry>
    var index: map<string, StationId>

    ghost function Value(): Reg
      reads this
    {
      Reg(entries, index)
    }

    constructor (key: Keying)
      ensures this.key == key && Value() == Reg(map[], map[])
    {
      this.key := key;
      entries := map[];
      index := map[];
    }

    method LookupCallsign(callsign: Callsign) returns (r: Option<StationEntry>)
      ensures r == Lookup(Value(), key, callsign)
      ensures Sound(Value(), key) && r.Some? ==>
        r.value.status == Online && key(r.value.endpoint.callsign) == key(callsign)
    {
      var k := key(callsign);
      if k !in index {
        return None;
      }
      if index[k] !in entries {
        return None;
      }
      r := Some(entries[index[k]]);
    }

    /** Three writes: drop a stale index key, put the entry, put or drop its index key. */
    method UpdateStatus(id: StationId, status: Status, endpoint: Endpoint, address: NetworkAddress, now: int)
      modifies this
      ensures Value() == Updated(old(Value()), key, StatusUpdate(id, status, endpoint, address, now))
    {
      if id in entries {
        var existing := entries[id];
        if existing.endpoint.callsign != endpoint.callsign {
          index := index - {key(existing.endpoint.callsign)};
        }
      }
      entries := entries[id := StationEntry(id, status, now, address, endpoint)];
      var k := key(endpoint.callsign);
      if status == Online {
        index := index[k := id];
      } else {
        index := index - {k};
      }
    }

    /** The entries, each once, in whatever order the store lists its keys. */
    method ListEntries() returns (listed: seq<StationEntry>)
      requires forall id :: id in entries ==> entries[id].stationId == id
      ensures ListsAll(listed, entries)
    {
      listed := [];
      var keys := entries.Keys;
      while keys != {}
        invariant keys <= entries.Keys
        invariant Apart(listed, IdOf)
        invariant forall i :: 0 <= i < |listed| ==>
          listed[i].stationId in entries && listed[i].stationId !in keys && entries[listed[i].stationId] == listed[i]
        invariant forall id :: id in entries && id !in keys ==> entries[id] in listed
        decreases keys
      {
        var id :| id in keys;
        keys := keys - {id};
        listed := listed + [entries[id]];
      }
    }

    /**
      The lease sweep. Exactly the online entries older than `ttl` go offline
      and are returned, each once; every other entry keeps its value; the index
      loses exactly the keys of those entries.
    */
    method ExpireStaleOnline(ttl: int, now: int) returns (expired: seq<StationEntry>)
      requires Sound(Value(), key)
      modifies this
      ensures Sound(Value(), key)
      ensures Apart(expired, IdOf)
      ensures ExpiresExactly(expired, old(entries), ttl, now)
      ensures entries == map id | id in old(entries) ::
        if IsStale(old(entries)[id], ttl, now) then Expired(old(entries)[id], now) else old(entries)[id]
      ensures index == old(index) - StaleKeys(old(entries), key, ttl, now)
      ensures Value() == UpdatedAll(old(Value()), key, SweepUpdates(expired, now))
    {
      var listed := ListEntries();
      expired := [];
      ghost var before := Value();
      for i := 0 to |listed|
        invariant Value() == Swept(before, key, listed[..i], ttl, now)
        invariant expired == StaleOf(listed[..i], ttl, now)
      {
        var entry := listed[i];
        assert listed[..i + 1][..i] == listed[..i];
        if !IsStale(entry, ttl, now) {
          continue;
        }
        UpdateStatus(entry.stationId, Offline, entry.endpoint, entry.networkAddress, now);
        expired := expired + [entry];
      }
      assert listed[..|listed|] == listed;
      SweepIs(before, key, listed, ttl, now);
      SweepIsUpdates(before, key, listed, ttl, now);
    }
  }

  function StaleOf(es: seq<StationEntry>, ttl: int, now: int): seq<StationEntry> {
    Kept(es, (e: StationEntry) => IsStale(e, ttl, now))
  }

  function Swept(reg: Reg, key: Keying, es: seq<StationEntry>, ttl: int, now: int): Reg {
    if es == [] then reg
    else
      var before := Swept(reg, key, es[..|es| - 1], ttl, now);
      var e := es[|es| - 1];
      if IsStale(e, ttl, now)
      then Updated(before, key, StatusUpdate(e.stationId, Offline, e.endpoint, e.networkAddress, now))
      else before
  }

  lemma {:induction false} SweptKeepsSound(reg: Reg, key: Keying, es: seq<StationEntry>, ttl: int, now: int)
    requires Sound(reg, key)
    ensures Sound(Swept(reg, key, es, ttl, now), key)
  {
    if es != [] {
      var e := es[|es| - 1];
      SweptKeepsSound(reg, key, es[..|es| - 1], ttl, now);
      UpdateKeepsSound(Swept(reg, key, es[..|es| - 1], ttl, now), key,
                       StatusUpdate(e.stationId, Offline, e.endpoint, e.networkAddress, now));
    }
  }

  lemma StaleOfIsFilter(es: seq<StationEntry>, ttl: int, now: int)
    requires Apart(es, IdOf)
    ensures Apart(StaleOf(es, ttl, now), IdOf)
    ensures forall e :: e in StaleOf(es, ttl, now) <==> e in es && IsStale(e, ttl, now)
  {
    KeptIs(es, (e: StationEntry) => IsStale(e, ttl, now));
    KeptApart(es, (e: StationEntry) => IsStale(e, ttl, now), IdOf);
  }

  predicate AllFrom(es: seq<StationEntry>, entries: map<StationId, StationEntry>) {
    && (forall id :: id in entries ==> entries[id].stationId == id)
    && (forall i :: 0 <= i < |es| ==> es[i].stationId in entries && entries[es[i].stationId] == es[i])
  }

  lemma {:induction false} SweptEntries(reg: Reg, key: Keying, es: seq<StationEntry>, ttl: int, now: int)
    requires Apart(es, IdOf) && AllFrom(es, reg.entries)
    ensures var entries := Swept(reg, key, es, ttl, now).entries;
            && entries.Keys == reg.entries.Keys
            && forall id :: id in entries ==>
                 entries[id] == if reg.entries[id] in es && IsStale(reg.entries[id], ttl, now)
                                then Expired(reg.entries[id], now) else reg.entries[id]
  {
    if es != [] {
      var init, last := es[..|es| - 1], es[|es| - 1];
      assert es == init + [last];
      SweptEntries(reg, key, init, ttl, now);
      var before, after := Swept(reg, key, init, ttl, now).entries, Swept(reg, key, es, ttl, now).entries;
      assert forall i :: 0 <= i < |init| ==> init[i].stationId != last.stationId;
      assert last !in init && reg.entries[last.stationId] == last;
      forall id | id in after
        ensures after[id] == if reg.entries[id] in es && IsStale(reg.entries[id], ttl, now)
                             then Expired(reg.entries[id], now) else reg.entries[id]
      {
        assert id in before;
        if id != last.stationId {
          assert after[id] == before[id] && reg.entries[id] != last;
        }
      }
    }
  }

  lemma ListedOneMore(init: seq<StationEntry>, last: StationEntry, key: Keying, ttl: int, now: int)
    ensures ListedKeys(init + [last], key, ttl, now)
         == ListedKeys(init, key, ttl, now) + (if IsStale(last, ttl, now) then {key(last.endpoint.callsign)} else {})
  {}

  lemma {:induction false} SweptIndex(reg: Reg, key: Keying, es: seq<StationEntry>, ttl: int, now: int)
    requires Apart(es, IdOf) && AllFrom(es, reg.entries)
    ensures Swept(reg, key, es, ttl, now).index == reg.index - ListedKeys(es, key, ttl, now)
  {
    if es != [] {
      var init, last := es[..|es| - 1], es[|es| - 1];
      assert es == init + [last];
      var before := Swept(reg, key, init, ttl, now);
      SweptIndex(reg, key, init, ttl, now);
      LastIsUnswept(reg, key, init, last, ttl, now);
      ListedOneMore(init, last, key, ttl, now);
      if IsStale(last, ttl, now) { ExpiringDrops(before, key, last, now); }
    }
  }

  lemma LastIsUnswept(reg: Reg, key: Keying, init: seq<StationEntry>, last: StationEntry, ttl: int, now: int)
    requires Apart(init + [last], IdOf) && AllFrom(init + [last], reg.entries)
    ensures AllFrom(init, reg.entries) && Apart(init, IdOf)
    ensures var entries := Swept(reg, key, init, ttl, now).entries;
            last.stationId in entries && entries[last.stationId] == last
  {
    var es := init + [last];
    assert forall i :: 0 <= i < |init| ==> es[i] == init[i];
    assert es[|init|] == last;
    SweptEntries(reg, key, init, ttl, now);
    assert forall i :: 0 <= i < |init| ==> IdOf(es[i]) != IdOf(es[|init|]);
  }

  lemma ExpiringDrops(reg: Reg, key: Keying, e: StationEntry, now: int)
    requires e.stationId in reg.entries && reg.entries[e.stationId] == e
    ensures Updated(reg, key, StatusUpdate(e.stationId, Offline, e.endpoint, e.networkAddress, now)).index
         == reg.index - {key(e.endpoint.callsign)}
  {}

  /** What a sweep over a listing of all entries does. */
  lemma SweepIs(reg: Reg, key: Keying, listed: seq<StationEntry>, ttl: int, now: int)
    requires Sound(reg, key) && ListsAll(listed, reg.entries)
    ensures var after := Swept(reg, key, listed, ttl, now);
            && Sound(after, key)
            && after.entries == (map id | id in reg.entries ::
                 if IsStale(reg.entries[id], ttl, now) then Expired(reg.entries[id], now) else reg.entries[id])
            && after.index == reg.index - StaleKeys(reg.entries, key, ttl, now)
    ensures Apart(StaleOf(listed, ttl, now), IdOf)
    ensures ExpiresExactly(StaleOf(listed, ttl, now), reg.entries, ttl, now)
  {
    SweptKeepsSound(reg, key, listed, ttl, now);
    StaleOfIsFilter(listed, ttl, now);
    SweptEntries(reg, key, listed, ttl, now);
    SweptIndex(reg, key, listed, ttl, now);
    StaleListed(listed, reg.entries, key, ttl, now);
  }

  /** The updates a sweep makes for the entries it returns. */
  function SweepUpdates(expired: seq<StationEntry>, now: int): seq<StatusUpdate> {
    seq(|expired|, i requires 0 <= i < |expired| =>
      StatusUpdate(expired[i].stationId, Offline, expired[i].endpoint, expired[i].networkAddress, now))
  }

  lemma SweepUpdatesSnoc(expired: seq<StationEntry>, e: StationEntry, now: int)
    ensures SweepUpdates(expired + [e], now)
         == SweepUpdates(expired, now) + [StatusUpdate(e.stationId, Offline, e.endpoint, e.networkAddress, now)]
  {}

  lemma UpdatedAllSnoc(reg: Reg, key: Keying, us: seq<StatusUpdate>, u: StatusUpdate)
    ensures UpdatedAll(reg, key, us + [u]) == Updated(UpdatedAll(reg, key, us), key, u)
  {
    assert (us + [u])[..|us|] == us;
  }

  lemma {:induction false} UpdatedAllAppend(reg: Reg, key: Keying, xs: seq<StatusUpdate>, ys: seq<StatusUpdate>)
    ensures UpdatedAll(reg, key, xs + ys) == UpdatedAll(UpdatedAll(reg, key, xs), key, ys)
  {
    if ys == [] {
      assert xs + ys == xs;
    } else {
      assert (xs + ys)[..|xs + ys| - 1] == xs + ys[..|ys| - 1];
      UpdatedAllAppend(reg, key, xs, ys[..|ys| - 1]);
    }
  }

  /** A sweep is a run of updates, one for each entry it returns. */
  lemma {:induction false} SweepIsUpdates(reg: Reg, key: Keying, es: seq<StationEntry>, ttl: int, now: int)
    ensures Swept(reg, key, es, ttl, now) == UpdatedAll(reg, key, SweepUpdates(StaleOf(es, ttl, now), now))
  {
    if es != [] {
      var init, last := es[..|es| - 1], es[|es| - 1];
      SweepIsUpdates(reg, key, init, ttl, now);
      if IsStale(last, ttl, now) {
        var before := StaleOf(init, ttl, now);
        SweepUpdatesSnoc(before, last, now);
        UpdatedAllSnoc(reg, key, SweepUpdates(before, now),
                       StatusUpdate(last.stationId, Offline, last.endpoint, last.networkAddress, now));
      } else {
        assert StaleOf(es, ttl, now) == StaleOf(init, ttl, now);
      }
    }
  }

  predicate ListsAll(listed: seq<StationEntry>, entries: map<StationId, StationEntry>) {
    && Apart(listed, IdOf)
    && (forall i :: 0 <= i < |listed| ==>
          listed[i].stationId in entries && entries[listed[i].stationId] == listed[i])
    && (forall id :: id in entries ==> entries[id] in listed)
  }

  function StaleKeys(entries: map<StationId, StationEntry>, key: Keying, ttl: int, now: int): set<string> {
    set id | id in entries && IsStale(entries[id], ttl, now) :: key(entries[id].endpoint.callsign)
  }

  function ListedKeys(listed: seq<StationEntry>, key: Keying, ttl: int, now: int): set<string> {
    set e | e in listed && IsStale(e, ttl, now) :: key(e.endpoint.callsign)
  }

  lemma StaleListed(listed: seq<StationEntry>, entries: map<StationId, StationEntry>, key: Keying,
                               ttl: int, now: int)
    requires ListsAll(listed, entries)
    ensures ListedKeys(listed, key, ttl, now) == StaleKeys(entries, key, ttl, now)
    ensures forall e :: e in listed <==> e.stationId in entries && entries[e.stationId] == e
  {
    forall k | k in ListedKeys(listed, key, ttl, now) ensures k in StaleKeys(entries, key, ttl, now) {
      var e :| e in listed && IsStale(e, ttl, now) && k == key(e.endpoint.callsign);
      assert e.stationId in entries && entries[e.stationId] == e;
    }
    forall k | k in StaleKeys(entries, key, ttl, now) ensures k in ListedKeys(listed, key, ttl, now) {
      var id :| id in entries && IsStale(entries[id], ttl, now) && k == key(entries[id].endpoint.callsign);
      assert entries[id] in listed;
    }
  }
}
