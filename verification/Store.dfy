/**
  The session store shared by several workers. Every update is a read, a
  computation and a revision-checked write, and any step of any other worker
  may fall between the three. A run is a sequence of steps; the theorems hold
  for every sequence.
*/
module Store {
  import opened Common
  import opened Session
  import opened SessionHistory
  import opened Handler
  import Timeline

  // ---------------------------------------------------------------------
  // Operations
  // ---------------------------------------------------------------------

  datatype Op =
    | Handle(env: Envelope)
    | Terminate(aircraft: Endpoint, station: Callsign)

  function Target(op: Op): Address {
    match op
    case Handle(env) => env.aircraft.address
    case Terminate(aircraft, _) => aircraft.address
  }

  /** The update closure; `Ok(None)` asks for the key to be deleted. */
  function ApplyOp(op: Op, cur: Option<SessionState>): Result<Option<SessionState>> {
    match op
    case Handle(env) =>
      (match Update(env, cur)
       case Ok(s) => Ok(Some(s))
       case Err(e) => Err(e))
    case Terminate(_, station) =>
      if cur.None? then Ok(None)
      else if !Occupies(cur.value, station) then Ok(cur)
      else Ok(Some(OnTermination(cur.value, station)))
  }

  // ---------------------------------------------------------------------
  // The system
  // ---------------------------------------------------------------------

  /** A stored value with its revision; `None` is a deletion marker. */
  datatype Entry = Entry(value: Option<SessionState>, revision: nat)

  datatype Job =
    | Idle
    | Message(env: Envelope)
    | Listing(station: Callsign, pending: set<Address>, found: seq<Endpoint>)
    | Sweep(station: Callsign, todo: seq<Endpoint>)

  /** `read` is what the worker fetched and has not written back yet. */
  datatype Worker = Worker(job: Job, read: Option<Entry>)

  /** `log` records the operations whose write the store accepted, in order. */
  datatype System = System(kv: map<Address, Entry>, last: nat, workers: map<nat, Worker>, log: seq<Op>)

  datatype Step =
    | Receive(w: nat, env: Envelope)
    | StartSweep(w: nat, station: Callsign)
    | ListKey(w: nat, key: Address)
    | ListDone(w: nat)
    | Read(w: nat)
    | Write(w: nat)
    | Abandon(w: nat)

  const IDLE := Worker(Idle, None)

  function WorkerOf(sys: System, w: nat): Worker {
    if w in sys.workers then sys.workers[w] else IDLE
  }

  function SetWorker(sys: System, w: nat, worker: Worker): System {
    sys.(workers := sys.workers[w := worker])
  }

  function Fetch(kv: map<Address, Entry>, key: Address): Entry {
    if key in kv then kv[key] else Entry(None, 0)
  }

  function LiveKeys(kv: map<Address, Entry>): set<Address> {
    set k | k in kv && kv[k].value.Some?
  }

  predicate Relevant(s: SessionState, callsign: Callsign) {
    s.aircraft.callsign == callsign || Occupies(s, callsign)
  }

  /** The operation a job works on next, if it needs the store at all. */
  function PendingOp(job: Job): Option<Op> {
    match job
    case Message(env) => if TouchesStore(env) then Some(Handle(env)) else None
    case Sweep(station, todo) => if todo == [] then None else Some(Terminate(todo[0], station))
    case _ => None
  }

  function AfterCommit(job: Job): Job {
    match job
    case Sweep(station, todo) => if todo == [] then Idle else Sweep(station, todo[1..])
    case _ => Idle
  }

  function WriteBack(sys: System, w: nat, op: Op, snap: Entry): System {
    var key := Target(op);
    match ApplyOp(op, snap.value)
    case Err(_) => SetWorker(sys, w, IDLE)
    case Ok(Some(s)) =>
      if snap.revision == Fetch(sys.kv, key).revision then Committed(sys, w, op, Some(s))
      else SetWorker(sys, w, IDLE)
    case Ok(None) =>
      // The delete does not compare revisions.
      Committed(sys, w, op, None)
  }

  /** The store takes `value` under a new revision, and the worker goes on. */
  function Committed(sys: System, w: nat, op: Op, value: Option<SessionState>): System {
    System(sys.kv[Target(op) := Entry(value, sys.last + 1)], sys.last + 1,
           sys.workers[w := Worker(AfterCommit(WorkerOf(sys, w).job), None)], sys.log + [op])
  }

  /** One step; a step that is not enabled does nothing. */
  function Perform(sys: System, step: Step): System {
    var worker := WorkerOf(sys, step.w);
    match step
    case Receive(w, env) =>
      if worker.job.Idle? then SetWorker(sys, w, Worker(Message(env), None)) else sys
    case StartSweep(w, station) =>
      if worker.job.Idle? then SetWorker(sys, w, Worker(Listing(station, LiveKeys(sys.kv), []), None)) else sys
    case ListKey(w, key) =>
      if worker.job.Listing? && key in worker.job.pending then
        var entry := Fetch(sys.kv, key);
        var found := worker.job.found;
        var found' := if entry.value.Some? && Relevant(entry.value.value, worker.job.station)
                      then found + [entry.value.value.aircraft] else found;
        SetWorker(sys, w, Worker(Listing(worker.job.station, worker.job.pending - {key}, found'), None))
      else sys
    case ListDone(w) =>
      if worker.job.Listing? && worker.job.pending == {} then
        SetWorker(sys, w, Worker(Sweep(worker.job.station, worker.job.found), None))
      else sys
    case Read(w) =>
      if PendingOp(worker.job).Some? && worker.read.None? then
        SetWorker(sys, w, Worker(worker.job, Some(Fetch(sys.kv, Target(PendingOp(worker.job).value)))))
      else sys
    case Write(w) =>
      if PendingOp(worker.job).Some? && worker.read.Some? then
        WriteBack(sys, w, PendingOp(worker.job).value, worker.read.value)
      else sys
    case Abandon(w) => SetWorker(sys, w, IDLE)
  }

  function Run(steps: seq<Step>): System {
    if steps == [] then System(map[], 0, map[], [])
    else Perform(Run(steps[..|steps| - 1]), steps[|steps| - 1])
  }

  // ---------------------------------------------------------------------
  // Invariant
  // ---------------------------------------------------------------------

  /** The value of `key` after the operations of `log`, one after the other. */
  function Stored(log: seq<Op>, key: Address): Option<SessionState> {
    if log == [] then None
    else
      var before := Stored(log[..|log| - 1], key);
      var op := log[|log| - 1];
      if Target(op) == key && ApplyOp(op, before).Ok? then ApplyOp(op, before).value else before
  }

  predicate EntryOk(kv: map<Address, Entry>, last: nat, key: Address)
    requires key in kv
  {
    && 0 < kv[key].revision <= last
    && kv[key].value.Some?
    && kv[key].value.value.aircraft.address == key
  }

  /** A snapshot is old, or it is what the store still holds. */
  predicate SnapshotOk(kv: map<Address, Entry>, key: Address, snap: Entry) {
    && snap.revision <= Fetch(kv, key).revision
    && (snap.revision == Fetch(kv, key).revision ==> snap.value == Fetch(kv, key).value)
    && (snap.value.None? <==> snap.revision == 0)
    && (snap.value.Some? ==> snap.value.value.aircraft.address == key)
  }

  predicate WorkerOk(kv: map<Address, Entry>, worker: Worker) {
    && (match worker.job
        case Listing(_, pending, found) => pending <= kv.Keys && forall i :: 0 <= i < |found| ==> found[i].address in kv
        case Sweep(_, todo) => forall i :: 0 <= i < |todo| ==> todo[i].address in kv
        case _ => true)
    && (worker.read.Some? ==>
          && PendingOp(worker.job).Some?
          && SnapshotOk(kv, Target(PendingOp(worker.job).value), worker.read.value)
          && (worker.job.Sweep? ==> worker.read.value.value.Some?))
  }

  /** The entries are in order, and what the workers hold fits them. */
  ghost predicate StateOk(sys: System) {
    && (forall k :: k in sys.kv ==> EntryOk(sys.kv, sys.last, k))
    && (forall w :: w in sys.workers ==> WorkerOk(sys.kv, sys.workers[w]))
  }

  /** The store holds what the log makes of nothing. */
  ghost predicate LogOk(kv: map<Address, Entry>, log: seq<Op>) {
    && (forall k :: Stored(log, k) == Fetch(kv, k).value)
    && (forall i :: 0 <= i < |log| ==> Accepted(log, i))
  }

  ghost predicate Inv(sys: System) {
    StateOk(sys) && LogOk(sys.kv, sys.log)
  }

  /** The `i`-th logged operation succeeded on the value the ones before it left, and kept the key. */
  predicate Accepted(log: seq<Op>, i: int)
    requires 0 <= i < |log|
  {
    var r := ApplyOp(log[i], Stored(log[..i], Target(log[i])));
    r.Ok? && r.value.Some?
  }

  lemma UpdateKeepsAircraft(env: Envelope, cur: Option<SessionState>)
    requires Update(env, cur).Ok?
    ensures Update(env, cur).value.aircraft == if cur.Some? then cur.value.aircraft else env.aircraft
  {
    if env.message.Application? {
      ElementsKeepAircraft(cur.value, env.source, env.message.elements);
    }
  }

  lemma {:induction false} ElementsKeepAircraft(s: SessionState, source: Callsign, es: seq<Element>)
    ensures OnElements(s, source, es).aircraft == s.aircraft
  {
    if es != [] {
      ElementsKeepAircraft(s, source, es[..|es| - 1]);
    }
  }

  /** What a write does to the other workers: their snapshots only grow older. */
  lemma CommitKeepsWorker(kv: map<Address, Entry>, last: nat, key: Address, s: SessionState, worker: Worker)
    requires forall k :: k in kv ==> EntryOk(kv, last, k)
    requires WorkerOk(kv, worker)
    ensures WorkerOk(kv[key := Entry(Some(s), last + 1)], worker)
  {
    var kv' := kv[key := Entry(Some(s), last + 1)];
    if worker.read.Some? {
      var k := Target(PendingOp(worker.job).value);
      assert Fetch(kv, k).revision <= last;
      assert SnapshotOk(kv', k, worker.read.value);
    }
  }

  lemma CommitKeepsEntries(kv: map<Address, Entry>, last: nat, key: Address, s: SessionState)
    requires (forall k :: k in kv ==> EntryOk(kv, last, k)) && s.aircraft.address == key
    ensures var kv' := kv[key := Entry(Some(s), last + 1)]; forall k :: k in kv' ==> EntryOk(kv', last + 1, k)
  {
    var kv' := kv[key := Entry(Some(s), last + 1)];
    forall k | k in kv' ensures EntryOk(kv', last + 1, k) {
      if k != key { assert EntryOk(kv, last, k); }
    }
  }

  lemma LogGrows(log: seq<Op>, op: Op)
    requires forall i :: 0 <= i < |log| ==> Accepted(log, i)
    requires var r := ApplyOp(op, Stored(log, Target(op))); r.Ok? && r.value.Some?
    ensures forall i :: 0 <= i < |log + [op]| ==> Accepted(log + [op], i)
    ensures forall k :: Stored(log + [op], k)
                     == if k == Target(op) then ApplyOp(op, Stored(log, k)).value else Stored(log, k)
  {
    var log' := log + [op];
    assert log'[..|log|] == log;
    forall i | 0 <= i < |log'| ensures Accepted(log', i) {
      if i < |log| {
        assert log'[..i] == log[..i];
        assert Accepted(log, i);
      }
    }
  }

  /** An operation about to be written never yields nothing: a swept key is never empty. */
  lemma HasValue(sys: System, w: nat)
    requires Inv(sys) && w in sys.workers
    requires var worker := sys.workers[w]; PendingOp(worker.job).Some? && worker.read.Some?
    ensures var worker := sys.workers[w];
            ApplyOp(PendingOp(worker.job).value, worker.read.value.value) != Ok(None)
  {
    assert WorkerOk(sys.kv, sys.workers[w]);
  }

  lemma CommitKeepsInv(sys: System, w: nat)
    requires Inv(sys) && w in sys.workers
    requires var worker := sys.workers[w]; PendingOp(worker.job).Some? && worker.read.Some?
    ensures Inv(Perform(sys, Write(w)))
  {
    var worker := sys.workers[w];
    var op, snap := PendingOp(worker.job).value, worker.read.value;
    assert WorkerOk(sys.kv, worker);
    HasValue(sys, w);
    WriteBackKeepsInv(sys, w, op, snap, ApplyOp(op, snap.value));
  }

  lemma WriteBackKeepsInv(sys: System, w: nat, op: Op, snap: Entry, r: Result<Option<SessionState>>)
    requires Inv(sys) && w in sys.workers && SnapshotOk(sys.kv, Target(op), snap)
    requires ApplyOp(op, snap.value) == r && r != Ok(None)
    ensures Inv(WriteBack(sys, w, op, snap))
  {
    if r.Ok? && snap.revision == Fetch(sys.kv, Target(op)).revision {
      CommittedInv(sys, w, op, snap, r.value.value);
    } else {
      IdleKeepsInv(sys, w);
    }
  }

  lemma IdleKeepsInv(sys: System, w: nat)
    requires Inv(sys)
    ensures Inv(SetWorker(sys, w, IDLE))
  {}

  /** The state after an accepted write. */
  lemma CommittedInv(sys: System, w: nat, op: Op, snap: Entry, s: SessionState)
    requires Inv(sys) && w in sys.workers && SnapshotOk(sys.kv, Target(op), snap)
    requires snap.revision == Fetch(sys.kv, Target(op)).revision && ApplyOp(op, snap.value) == Ok(Some(s))
    ensures Inv(Committed(sys, w, op, Some(s)))
  {
    CommittedLogOk(sys, w, op, snap, s);
    CommittedAddress(op, snap.value);
    CommitKeepsEntries(sys.kv, sys.last, Target(op), s);
    CommitKeepsWorkers(sys, w, Target(op), s);
  }

  lemma CommittedLogOk(sys: System, w: nat, op: Op, snap: Entry, s: SessionState)
    requires LogOk(sys.kv, sys.log) && SnapshotOk(sys.kv, Target(op), snap)
    requires snap.revision == Fetch(sys.kv, Target(op)).revision && ApplyOp(op, snap.value) == Ok(Some(s))
    ensures LogOk(Committed(sys, w, op, Some(s)).kv, sys.log + [op])
  {
    assert Stored(sys.log, Target(op)) == snap.value;
    LogGrows(sys.log, op);
  }

  lemma CommittedAddress(op: Op, cur: Option<SessionState>)
    requires cur.Some? ==> cur.value.aircraft.address == Target(op)
    requires var r := ApplyOp(op, cur); r.Ok? && r.value.Some?
    ensures ApplyOp(op, cur).value.value.aircraft.address == Target(op)
  {
    if op.Handle? { UpdateKeepsAircraft(op.env, cur); }
  }

  lemma CommitKeepsWorkers(sys: System, w: nat, key: Address, s: SessionState)
    requires StateOk(sys) && w in sys.workers
    ensures var kv' := sys.kv[key := Entry(Some(s), sys.last + 1)];
            && (forall v :: v in sys.workers ==> WorkerOk(kv', sys.workers[v]))
            && WorkerOk(kv', Worker(AfterCommit(sys.workers[w].job), None))
  {
    var kv' := sys.kv[key := Entry(Some(s), sys.last + 1)];
    forall v | v in sys.workers ensures WorkerOk(kv', sys.workers[v]) {
      CommitKeepsWorker(sys.kv, sys.last, key, s, sys.workers[v]);
    }
    assert WorkerOk(kv', sys.workers[w]);
  }

  lemma PerformKeepsInv(sys: System, step: Step)
    requires Inv(sys)
    ensures Inv(Perform(sys, step))
  {
    var worker := WorkerOf(sys, step.w);
    assert WorkerOk(sys.kv, worker);
    if step.Write? && PendingOp(worker.job).Some? && worker.read.Some? {
      CommitKeepsInv(sys, step.w);
    } else {
      var sys' := Perform(sys, step);
      assert sys'.kv == sys.kv && sys'.last == sys.last && sys'.log == sys.log;
      OwnStepKeepsWorker(sys, step);
      assert forall v :: v in sys'.workers && v != step.w ==> sys'.workers[v] == sys.workers[v];
    }
  }

  /** A step without a write keeps its own worker in order. */
  lemma OwnStepKeepsWorker(sys: System, step: Step)
    requires StateOk(sys)
    requires step.Write? ==> PendingOp(WorkerOf(sys, step.w).job).None? || WorkerOf(sys, step.w).read.None?
    ensures WorkerOk(sys.kv, WorkerOf(Perform(sys, step), step.w))
  {
    var worker := WorkerOf(sys, step.w);
    assert WorkerOk(sys.kv, worker);
    if step.ListKey? && worker.job.Listing? && step.key in worker.job.pending {
      assert EntryOk(sys.kv, sys.last, step.key);
    }
    if step.Read? && PendingOp(worker.job).Some? && worker.read.None? {
      var key := Target(PendingOp(worker.job).value);
      if key in sys.kv { assert EntryOk(sys.kv, sys.last, key); }
      assert SnapshotOk(sys.kv, key, Fetch(sys.kv, key));
    }
  }

  lemma {:induction false} RunKeepsInv(steps: seq<Step>)
    ensures Inv(Run(steps))
  {
    if steps != [] {
      RunKeepsInv(steps[..|steps| - 1]);
      PerformKeepsInv(Run(steps[..|steps| - 1]), steps[|steps| - 1]);
    }
  }

  // ---------------------------------------------------------------------
  // Theorems over every run
  // ---------------------------------------------------------------------

  /** The unconditional delete is never reached: at no write of any run does the operation ask for it. */
  lemma {:induction false} NeverDeletes(steps: seq<Step>, w: nat)
    requires PendingOp(WorkerOf(Run(steps), w).job).Some? && WorkerOf(Run(steps), w).read.Some?
    ensures var worker := WorkerOf(Run(steps), w);
            ApplyOp(PendingOp(worker.job).value, worker.read.value.value) != Ok(None)
  {
    RunKeepsInv(steps);
    HasValue(Run(steps), w);
  }

  /**
    No update is lost: in every reachable state each key holds exactly what
    the accepted operations, in the order of their writes, make of nothing.
  */
  lemma NoLostUpdate(steps: seq<Step>, key: Address)
    ensures var sys := Run(steps);
            && Fetch(sys.kv, key).value == Stored(sys.log, key)
            && forall i :: 0 <= i < |sys.log| ==> Accepted(sys.log, i)
  {
    RunKeepsInv(steps);
  }

  /**
    Every step is atomic on the store. It either leaves store and log as they
    are, or it is a write that applied its operation to the value the key holds
    at that moment, not to the one it read; it touches no other key.
  */
  lemma StepsAreAtomic(steps: seq<Step>, step: Step)
    ensures Atomic(Run(steps), step)
  {
    RunKeepsInv(steps);
    PerformIsAtomic(Run(steps), step);
  }

  predicate Atomic(sys: System, step: Step) {
    var sys' := Perform(sys, step);
    || (sys'.kv == sys.kv && sys'.log == sys.log)
    || (&& step.Write?
        && PendingOp(WorkerOf(sys, step.w).job).Some?
        && var op := PendingOp(WorkerOf(sys, step.w).job).value;
           var r := ApplyOp(op, Fetch(sys.kv, Target(op)).value);
           && r.Ok? && r.value.Some?
           && sys'.log == sys.log + [op]
           && sys'.kv == sys.kv[Target(op) := Entry(r.value, sys.last + 1)])
  }

  lemma PerformIsAtomic(sys: System, step: Step)
    requires Inv(sys)
    ensures Atomic(sys, step)
  {
    var worker := WorkerOf(sys, step.w);
    if step.Write? && PendingOp(worker.job).Some? && worker.read.Some? {
      HasValue(sys, step.w);
      assert WorkerOk(sys.kv, worker);
    }
  }

  /** One step of another worker, seen from a worker that has read `key`. */
  lemma OtherActs(sys: System, step: Step, w: nat, key: Address, from: nat)
    requires Inv(sys) && step.w != w && from <= |sys.log|
    ensures var sys' := Perform(sys, step);
            && WorkerOf(sys', w) == WorkerOf(sys, w)
            && sys.last <= sys'.last
            && |sys.log| <= |sys'.log|
            && (Touches(sys.log, from, key) ==> Touches(sys'.log, from, key))
            && Fetch(sys.kv, key).revision <= Fetch(sys'.kv, key).revision
            && (if Touches(sys'.log, |sys.log|, key)
                then Touches(sys'.log, from, key) && Fetch(sys'.kv, key).revision > sys.last
                else Fetch(sys'.kv, key) == Fetch(sys.kv, key)
                     && (Touches(sys'.log, from, key) ==> Touches(sys.log, from, key)))
  {
    PerformIsAtomic(sys, step);
    var sys' := Perform(sys, step);
    assert key in sys.kv ==> EntryOk(sys.kv, sys.last, key);
    if sys'.log != sys.log {
      var op := PendingOp(WorkerOf(sys, step.w).job).value;
      TouchesSnoc(sys.log, op, from, key);
      TouchesSnoc(sys.log, op, |sys.log|, key);
    }
  }

  lemma TouchesSnoc(log: seq<Op>, op: Op, from: nat, key: Address)
    requires from <= |log|
    ensures Touches(log + [op], from, key) <==> Touches(log, from, key) || Target(op) == key
  {
    var log' := log + [op];
    assert log'[|log|] == op;
    assert forall i :: from <= i < |log| ==> log'[i] == log[i];
    if Touches(log, from, key) {
      var i :| from <= i < |log| && Target(log[i]) == key;
      assert Target(log'[i]) == key;
    }
  }

  /** All the steps of the others. */
  lemma {:induction false} OthersAct(steps: seq<Step>, others: seq<Step>, w: nat, key: Address)
    requires forall i :: 0 <= i < |others| ==> others[i].w != w
    ensures var sys, mid := Run(steps), Run(steps + others);
            && WorkerOf(mid, w) == WorkerOf(sys, w)
            && sys.last <= mid.last
            && |sys.log| <= |mid.log|
            && if Touches(mid.log, |sys.log|, key) then Fetch(mid.kv, key).revision > sys.last
               else Fetch(mid.kv, key) == Fetch(sys.kv, key)
  {
    if others == [] {
      assert steps + others == steps;
    } else {
      var n := |others| - 1;
      assert (steps + others)[..|steps + others| - 1] == steps + others[..n];
      OthersAct(steps, others[..n], w, key);
      RunKeepsInv(steps + others[..n]);
      OtherActs(Run(steps + others[..n]), others[n], w, key, |Run(steps).log|);
    }
  }

  /** Some operation logged at position `from` or later is on `key`. */
  predicate Touches(log: seq<Op>, from: nat, key: Address) {
    exists i :: from <= i < |log| && Target(log[i]) == key
  }

  /**
    When a write succeeds: a worker reads, the others do anything, the worker
    writes. The write is accepted if and only if the operation accepts the
    value that was read and nobody wrote the key in between.
  */
  lemma {:induction false} WriteSucceedsIffUncontended(steps: seq<Step>, w: nat, others: seq<Step>)
    requires PendingOp(WorkerOf(Run(steps), w).job).Some? && WorkerOf(Run(steps), w).read.None?
    requires forall i :: 0 <= i < |others| ==> others[i].w != w
    ensures var sys := Run(steps);
            var op := PendingOp(WorkerOf(sys, w).job).value;
            var mid := Run(steps + [Read(w)] + others);
            var accepted := ApplyOp(op, Fetch(sys.kv, Target(op)).value).Ok?
                            && !Touches(mid.log, |sys.log|, Target(op));
            Perform(mid, Write(w)).log == if accepted then mid.log + [op] else mid.log
  {
    var sys := Run(steps);
    var op := PendingOp(WorkerOf(sys, w).job).value;
    var key := Target(op);
    assert (steps + [Read(w)])[..|steps|] == steps;
    var start := Run(steps + [Read(w)]);
    assert start == Perform(sys, Read(w));
    OthersAct(steps + [Read(w)], others, w, key);
    RunKeepsInv(steps);
    RunKeepsInv(steps + [Read(w)] + others);
    var mid := Run(steps + [Read(w)] + others);
    assert WorkerOf(mid, w).read == Some(Fetch(sys.kv, key));
    assert key in sys.kv ==> EntryOk(sys.kv, sys.last, key);
    HasValue(mid, w);
  }

  /** A stored session stays under the address of its aircraft, and a key, once created, stays. */
  lemma {:induction false} KeysStay(steps: seq<Step>, more: seq<Step>, key: Address)
    requires key in Run(steps).kv
    ensures var kv := Run(steps + more).kv;
            && Run(steps).kv[key].value.Some?
            && key in kv
            && kv[key].value.Some?
            && kv[key].value.value.aircraft == Run(steps).kv[key].value.value.aircraft
            && kv[key].value.value.aircraft.address == key
            && Run(steps).kv[key].revision <= kv[key].revision
  {
    RunKeepsInv(steps);
    assert EntryOk(Run(steps).kv, Run(steps).last, key);
    if more == [] {
      assert steps + more == steps;
    } else {
      var init, step := more[..|more| - 1], more[|more| - 1];
      KeysStay(steps, init, key);
      assert (steps + more)[..|steps + more| - 1] == steps + init;
      RunKeepsInv(steps + init);
      StepKeepsKey(Run(steps + init), step, key);
    }
  }

  lemma StepKeepsKey(sys: System, step: Step, key: Address)
    requires Inv(sys) && key in sys.kv && sys.kv[key].value.Some?
    ensures var kv := Perform(sys, step).kv;
            && key in kv
            && kv[key].value.Some?
            && kv[key].value.value.aircraft == sys.kv[key].value.value.aircraft
            && sys.kv[key].revision <= kv[key].revision
  {
    assert EntryOk(sys.kv, sys.last, key);
    PerformIsAtomic(sys, step);
    if step.Write? && PendingOp(WorkerOf(sys, step.w).job).Some? {
      var op := PendingOp(WorkerOf(sys, step.w).job).value;
      if op.Handle? && Update(op.env, Fetch(sys.kv, Target(op)).value).Ok? {
        UpdateKeepsAircraft(op.env, Fetch(sys.kv, Target(op)).value);
      }
    }
  }

  // ---------------------------------------------------------------------
  // The session theorems, carried to the concurrent store
  // ---------------------------------------------------------------------

  function OpEvents(op: Op): seq<Event> {
    match op
    case Handle(env) => Events(env)
    case Terminate(_, station) => [Termination(station)]
  }

  /** The session events of the accepted operations on `key`, in order. */
  function LogEvents(log: seq<Op>, key: Address): seq<Event> {
    if log == [] then []
    else
      LogEvents(log[..|log| - 1], key) +
      (if Target(log[|log| - 1]) == key then OpEvents(log[|log| - 1]) else [])
  }

  lemma OpIsReplay(op: Op, cur: Option<SessionState>)
    requires ApplyOp(op, cur).Ok? && ApplyOp(op, cur).value.Some?
    requires cur.None? ==> op.Handle?
    ensures ApplyOp(op, cur).value.value
         == Replay(if cur.Some? then cur.value else NewSession(op.env.aircraft), OpEvents(op))
  {
    match op
    case Handle(env) => UpdateIsReplay(env, cur);
    case Terminate(_, station) => ReplayOne(cur.value, Termination(station));
  }

  lemma {:induction false} StoredIsReplay(log: seq<Op>, key: Address)
    requires forall i :: 0 <= i < |log| ==> Accepted(log, i)
    ensures Stored(log, key).None? ==> LogEvents(log, key) == []
    ensures Stored(log, key).Some? ==>
              Stored(log, key).value == Replay(NewSession(Stored(log, key).value.aircraft), LogEvents(log, key))
  {
    if log != [] {
      var n := |log| - 1;
      var init, op := log[..n], log[n];
      forall i | 0 <= i < n ensures Accepted(init, i) {
        assert Accepted(log, i);
        assert log[..i] == init[..i];
      }
      StoredIsReplay(init, key);
      assert Accepted(log, n);
      if Target(op) == key {
        var before := Stored(init, key);
        OpIsReplay(op, before);
        if op.Handle? { UpdateKeepsAircraft(op.env, before); }
        if before.Some? {
          ReplayAppend(NewSession(before.value.aircraft), LogEvents(init, key), OpEvents(op));
        } else {
          assert LogEvents(log, key) == OpEvents(op);
        }
      } else {
        assert LogEvents(log, key) == LogEvents(init, key);
      }
    }
  }

  /**
    Whatever the interleaving, every stored session is well formed, and each
    of its slots is explained by the accepted operations on its key.
  */
  lemma StoredSessionsAreExplained(steps: seq<Step>, key: Address)
    requires key in Run(steps).kv && Run(steps).kv[key].value.Some?
    ensures var s := Run(steps).kv[key].value.value;
            var es := LogEvents(Run(steps).log, key);
            && WellFormed(s)
            && Explained(s.aircraft, es, s.active)
            && Explained(s.aircraft, es, s.inactive)
            && NdaExplained(es, s.nda)
  {
    NoLostUpdate(steps, key);
    var sys := Run(steps);
    var a := sys.kv[key].value.value.aircraft;
    StoredIsReplay(sys.log, key);
    SlotsAreExplained(a, LogEvents(sys.log, key));
    ReplayKeepsWellFormed(NewSession(a), LogEvents(sys.log, key));
  }

  /**
    Whatever the interleaving, every stored session is the one session that the
    events of the accepted operations on its key tell.
  */
  lemma StoredSessionsAreTold(steps: seq<Step>, key: Address)
    requires key in Run(steps).kv && Run(steps).kv[key].value.Some?
    ensures var s := Run(steps).kv[key].value.value;
            Timeline.Told(s, s.aircraft, LogEvents(Run(steps).log, key))
  {
    NoLostUpdate(steps, key);
    var sys := Run(steps);
    StoredIsReplay(sys.log, key);
    Timeline.ReplayIsTold(sys.kv[key].value.value.aircraft, LogEvents(sys.log, key));
  }
}
