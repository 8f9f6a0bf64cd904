/**
  The sweep of one worker that nobody disturbs: the read and write steps of the
  shared store add up to the termination the rest of the model takes as one.
*/
module Sweeps {
  import opened Common
  import opened Session
  import opened Sequences
  import opened Store
  import Presence

  /** The worker looks at the keys one by one. */
  function ListAll(sys: System, w: nat, order: seq<Address>): System {
    if order == [] then sys
    else Perform(ListAll(sys, w, order[..|order| - 1]), ListKey(w, order[|order| - 1]))
  }

  /** The worker reads and writes, `n` times. */
  function CommitAll(sys: System, w: nat, n: nat): System {
    if n == 0 then sys else Round(CommitAll(sys, w, n - 1), w)
  }

  function Round(sys: System, w: nat): System {
    Perform(Perform(sys, Read(w)), Write(w))
  }

  /** A whole sweep: list the keys, then a round of read and write for every aircraft found. */
  function SweepAlone(sys: System, w: nat, station: Callsign, order: seq<Address>): System {
    var ready := Listed(sys, w, station, order);
    CommitAll(ready, w, ToDo(WorkerOf(ready, w).job))
  }

  function Listed(sys: System, w: nat, station: Callsign, order: seq<Address>): System {
    Perform(ListAll(Perform(sys, StartSweep(w, station)), w, order), ListDone(w))
  }

  function ToDo(job: Job): nat {
    match job
    case Sweep(_, todo) => |todo|
    case _ => 0
  }

  /** The sessions in the store. */
  function Values(kv: map<Address, Entry>): Presence.Sessions {
    map k | k in kv && kv[k].value.Some? :: kv[k].value.value
  }

  predicate Names(kv: map<Address, Entry>, station: Callsign, key: Address) {
    key in kv && kv[key].value.Some? && Relevant(kv[key].value.value, station)
  }

  /** The aircraft of the sessions among `order` that name the station. */
  function FoundIn(kv: map<Address, Entry>, station: Callsign, order: seq<Address>): seq<Endpoint> {
    if order == [] then []
    else
      var key := order[|order| - 1];
      FoundIn(kv, station, order[..|order| - 1])
      + (if Names(kv, station, key) then [kv[key].value.value.aircraft] else [])
  }

  lemma {:induction false} ListAllFinds(sys: System, w: nat, station: Callsign, order: seq<Address>)
    requires WorkerOf(sys, w) == Worker(Listing(station, LiveKeys(sys.kv), []), None)
    requires Distinct(order) && forall i :: 0 <= i < |order| ==> order[i] in LiveKeys(sys.kv)
    ensures var after := ListAll(sys, w, order);
            && after.kv == sys.kv && after.last == sys.last
            && WorkerOf(after, w) == Worker(Listing(station, LiveKeys(sys.kv) - (set k | k in order),
                                                    FoundIn(sys.kv, station, order)), None)
  {
    if order == [] {
      assert LiveKeys(sys.kv) - (set k | k in order) == LiveKeys(sys.kv);
    } else {
      var init, key := order[..|order| - 1], order[|order| - 1];
      assert order == init + [key];
      ListAllFinds(sys, w, station, init);
      var pending := LiveKeys(sys.kv) - (set k | k in init);
      assert key in pending by { assert key !in init && order[|order| - 1] in LiveKeys(sys.kv); }
      assert LiveKeys(sys.kv) - (set k | k in order) == pending - {key};
      ListOne(ListAll(sys, w, init), w, station, pending, FoundIn(sys.kv, station, init), key);
    }
  }

  lemma ListOne(sys: System, w: nat, station: Callsign, pending: set<Address>, found: seq<Endpoint>, key: Address)
    requires WorkerOf(sys, w) == Worker(Listing(station, pending, found), None) && key in pending
    ensures var after := Perform(sys, ListKey(w, key));
            && after.kv == sys.kv && after.last == sys.last
            && WorkerOf(after, w) == Worker(Listing(station, pending - {key},
                 found + (if Names(sys.kv, station, key) then [sys.kv[key].value.value.aircraft] else [])), None)
  {
    assert found + [] == found;
  }

  lemma {:induction false} AllListed(sys: System, w: nat, station: Callsign, order: seq<Address>)
    requires WorkerOf(sys, w) == IDLE
    requires Distinct(order) && forall k :: k in order <==> k in LiveKeys(sys.kv)
    ensures forall i :: 0 <= i < |order| ==> order[i] in sys.kv
    ensures var ready := Listed(sys, w, station, order);
            ready.kv == sys.kv && WorkerOf(ready, w) == Worker(Sweep(station, FoundIn(sys.kv, station, order)), None)
  {
    forall i | 0 <= i < |order| ensures order[i] in LiveKeys(sys.kv) { assert order[i] in order; }
    var start := Perform(sys, StartSweep(w, station));
    ListAllFinds(start, w, station, order);
    assert LiveKeys(sys.kv) - (set k | k in order) == {};
  }

  /** One round ends the service in the session of the first aircraft of the list. */
  lemma CommitOne(sys: System, w: nat, station: Callsign, todo: seq<Endpoint>)
    requires WorkerOf(sys, w) == Worker(Sweep(station, todo), None) && todo != []
    requires todo[0].address in sys.kv && sys.kv[todo[0].address].value.Some?
    ensures var after, key := Round(sys, w), todo[0].address;
            && after.kv.Keys == sys.kv.Keys
            && after.kv[key].value == Some(OnTermination(sys.kv[key].value.value, station))
            && (forall k :: k in sys.kv && k != key ==> after.kv[k] == sys.kv[k])
            && WorkerOf(after, w) == Worker(Sweep(station, todo[1..]), None)
  {
    var key := todo[0].address;
    var read := Perform(sys, Read(w));
    assert WorkerOf(read, w) == Worker(Sweep(station, todo), Some(sys.kv[key])) && read.kv == sys.kv;
    EndedIs(sys.kv[key].value.value, station, Terminate(todo[0], station));
  }

  lemma EndedIs(s: SessionState, station: Callsign, op: Op)
    requires op.Terminate? && op.station == station
    ensures ApplyOp(op, Some(s)) == Ok(Some(OnTermination(s, station)))
  {}

  /** After `n` rounds the first `n` aircraft of the list are done. */
  ghost predicate Swept(before: System, after: System, w: nat, station: Callsign, todo: seq<Endpoint>, n: nat) {
    && n <= |todo| && after.kv.Keys == before.kv.Keys
    && WorkerOf(after, w) == Worker(Sweep(station, todo[n..]), None)
    && (forall i :: n <= i < |todo| && todo[i].address in before.kv ==>
          after.kv[todo[i].address] == before.kv[todo[i].address])
    && (forall i :: 0 <= i < n && todo[i].address in before.kv && before.kv[todo[i].address].value.Some? ==>
          after.kv[todo[i].address].value == Some(OnTermination(before.kv[todo[i].address].value.value, station)))
    && (forall k :: k in before.kv && (forall i :: 0 <= i < |todo| ==> todo[i].address != k) ==>
          after.kv[k] == before.kv[k])
  }

  predicate Present(kv: map<Address, Entry>, todo: seq<Endpoint>) {
    forall i :: 0 <= i < |todo| ==> todo[i].address in kv && kv[todo[i].address].value.Some?
  }

  lemma {:induction false} CommitAllSweeps(sys: System, w: nat, station: Callsign, todo: seq<Endpoint>, n: nat)
    requires WorkerOf(sys, w) == Worker(Sweep(station, todo), None) && n <= |todo|
    requires Present(sys.kv, todo) && AddressesApart(todo)
    ensures Swept(sys, CommitAll(sys, w, n), w, station, todo, n)
  {
    if n > 0 {
      CommitAllSweeps(sys, w, station, todo, n - 1);
      SweepsOneMore(sys, CommitAll(sys, w, n - 1), w, station, todo, n);
    } else {
      assert todo[0..] == todo;
    }
  }

  lemma SweepsOneMore(start: System, before: System, w: nat, station: Callsign, todo: seq<Endpoint>, n: nat)
    requires 0 < n <= |todo| && Swept(start, before, w, station, todo, n - 1)
    requires Present(start.kv, todo) && AddressesApart(todo)
    ensures Swept(start, Round(before, w), w, station, todo, n)
  {
    RestOf(todo, n - 1);
    CommitOne(before, w, station, todo[n - 1..]);
    SweptNext(start, before, Round(before, w), w, station, todo, n);
  }

  predicate AddressesApart(todo: seq<Endpoint>) {
    forall i, j :: 0 <= i < j < |todo| ==> todo[i].address != todo[j].address
  }

  lemma RestOf(todo: seq<Endpoint>, n: nat)
    requires n < |todo|
    ensures todo[n..] != [] && todo[n..][0] == todo[n] && todo[n..][1..] == todo[n + 1..]
  {}

  lemma SweptNext(start: System, before: System, after: System, w: nat, station: Callsign, todo: seq<Endpoint>, n: nat)
    requires 0 < n <= |todo| && Swept(start, before, w, station, todo, n - 1) && Present(start.kv, todo)
    requires AddressesApart(todo)
    requires var key := todo[n - 1].address;
             && after.kv.Keys == before.kv.Keys
             && before.kv[key].value.Some?
             && after.kv[key].value == Some(OnTermination(before.kv[key].value.value, station))
             && (forall k :: k in before.kv && k != key ==> after.kv[k] == before.kv[k])
             && WorkerOf(after, w) == Worker(Sweep(station, todo[n..]), None)
    ensures Swept(start, after, w, station, todo, n)
  {
    forall i | 0 <= i < |todo| && i != n - 1 ensures todo[i].address != todo[n - 1].address {}
  }

  lemma {:induction false} FoundAre(kv: map<Address, Entry>, last: nat, station: Callsign, order: seq<Address>)
    requires forall k :: k in kv ==> EntryOk(kv, last, k)
    requires Distinct(order) && forall i :: 0 <= i < |order| ==> order[i] in kv
    ensures var todo := FoundIn(kv, station, order);
            && |todo| <= |order| && Present(kv, todo)
            && (AddressesApart(todo))
            && (forall i :: 0 <= i < |todo| ==> todo[i].address in order && Names(kv, station, todo[i].address))
            && (forall k :: k in order && Names(kv, station, k) ==> Among(todo, k))
  {
    if order != [] {
      var init, key := order[..|order| - 1], order[|order| - 1];
      assert order == init + [key];
      assert forall i :: 0 <= i < |init| ==> init[i] == order[i];
      FoundAre(kv, last, station, init);
      assert EntryOk(kv, last, key) && key !in init;
      var before, todo := FoundIn(kv, station, init), FoundIn(kv, station, order);
      forall k | k in order && Names(kv, station, k) ensures Among(todo, k) {
        if k == key {
          assert todo[|before|].address == k;
        } else {
          assert Among(before, k);
          var i :| 0 <= i < |before| && before[i].address == k;
          assert todo[i].address == k;
        }
      }
    }
  }

  predicate Among(todo: seq<Endpoint>, key: Address) {
    exists i :: 0 <= i < |todo| && todo[i].address == key
  }

  /**
    In any state of any run, an idle worker that lists the stored keys in any
    order and then commits undisturbed ends the service of the station in every
    session, exactly as the store that terminates in one go.
  */
  lemma {:induction false} SweepTerminatesEverywhere(steps: seq<Step>, w: nat, station: Callsign, order: seq<Address>)
    requires WorkerOf(Run(steps), w) == IDLE
    requires Distinct(order) && (forall k :: k in order <==> k in LiveKeys(Run(steps).kv))
    ensures var before, after := Run(steps), SweepAlone(Run(steps), w, station, order);
            Values(after.kv) == Presence.TerminatedEverywhere(Values(before.kv), station)
  {
    var sys := Run(steps);
    RunKeepsInv(steps);
    var todo, ready := FoundIn(sys.kv, station, order), Listed(sys, w, station, order);
    AllListed(sys, w, station, order);
    FoundAre(sys.kv, sys.last, station, order);
    CommitAllSweeps(ready, w, station, todo, |todo|);
    SweptIsTerminated(ready, CommitAll(ready, w, |todo|), w, station, todo, order, sys.last);
  }

  lemma SweptIsTerminated(before: System, after: System, w: nat, station: Callsign, todo: seq<Endpoint>,
                          order: seq<Address>, last: nat)
    requires forall k :: k in before.kv ==> EntryOk(before.kv, last, k)
    requires Swept(before, after, w, station, todo, |todo|)
    requires forall k :: k in order <==> k in LiveKeys(before.kv)
    requires forall i :: 0 <= i < |todo| ==> Names(before.kv, station, todo[i].address)
    requires forall k :: k in order && Names(before.kv, station, k) ==> Among(todo, k)
    ensures Values(after.kv) == Presence.TerminatedEverywhere(Values(before.kv), station)
  {
    forall k | k in before.kv
      ensures after.kv[k].value == Some(OnTermination(before.kv[k].value.value, station))
      ensures before.kv[k].value.Some?
    {
      assert EntryOk(before.kv, last, k);
      if i :| 0 <= i < |todo| && todo[i].address == k {
      } else {
        assert k in LiveKeys(before.kv);
        assert !Names(before.kv, station, k);
        assert after.kv[k] == before.kv[k];
      }
    }
  }
}
