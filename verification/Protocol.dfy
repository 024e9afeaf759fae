/**
 The running system as a state machine: the block listener, the initializer, the reconciler, the
 pruner and outside callers, interleaved at every lock operation and atomic load or store.
 */
module Protocol {
  import opened Deletions
  import opened Initializations
  import opened Initializer
  import opened Logs
  import opened Reconciliation
  import opened Reserves
  import opened Tables
  import opened Types
  import opened Updates

  datatype Owner = ListenerOwner | InitializerOwner | ReconcilerOwner | PrunerOwner | CallerOwner

  /** The write lock. Its holder has changed the registry and may still owe an atomic store or a new view. */
  datatype Lock = Unlocked | Held(owner: Owner, storeLast: Option<uint64>, publish: bool)

  datatype Listener = Listening | Parsed(number: uint64, logs: seq<Log>, updates: seq<Sync>, discovered: seq<Address>)

  datatype InitPhase = NoBatch | Drained(batch: seq<Address>) | Returned(batch: seq<Address>, inputs: seq<InitInput>)

  datatype ReconcilePhase =
    | Resting
    | Snapped(prev: Table, ids: seq<uint64>)
    | Chosen(prev: Table, cur: Table, ids: seq<uint64>, fetched: seq<FetchSlot>)

  datatype PrunePhase = Quiet | Selected(snapshot: Table, addressOf: map<uint64, Address>, blocked: set<Address>)

  /**
   History of the pending queue: each enqueueing, draining, application and drop of an address, and of
   those applied, each counted as a success or reported in an error.
   */
  datatype Ledger = Ledger(enqueued: multiset<Address>, drained: multiset<Address>,
                           applied: multiset<Address>, dropped: multiset<Address>,
                           credited: multiset<Address>, reported: multiset<Address>)

  /** What an initializer batch brought for one pool: the answers it gave and the registrar's lookups at the time. */
  datatype Origin = Origin(pool: Address, input: InitInput, env: Lookups)

  datatype System = System(
    whitelist: Whitelist, rows: Table, view: Table, pending: set<Address>, last: uint64, lock: Lock,
    listener: Listener, initializer: InitPhase, reconciler: ReconcilePhase, pruner: PrunePhase,
    ledger: Ledger,
    admitted: set<Origin>,  // every pool of every batch applied so far
    received: seq<uint64>,  // numbers of the blocks taken from the stream, in order
    handled: seq<uint64>,   // those skipped or applied so far
    rowsBlock: uint64,      // latest block whose updates the registry holds; zero at the start
    viewBlock: uint64)      // latest block whose updates the published view holds

  datatype Step =
    // block listener
    | Skip(number: uint64)
    | Fail(number: uint64)
    | Parse(number: uint64, logs: seq<Log>, updates: seq<Sync>, discovered: seq<Address>)
    | ApplyBlock(updateIDs: map<Address, uint64>, discoverIDs: map<Address, uint64>, blocked: set<Address>)
    | StoreLast
    // initializer
    | Drain(batch: seq<Address>)
    | DropBatch
    | Initialize(inputs: seq<InitInput>)
    | ApplyInits(reg: Registration, env: Lookups)
    // reconciler
    | FirstSnapshot(addressOf: map<uint64, Address>)
    | GiveUp
    | SecondSnapshot(fetched: seq<FetchSlot>)
    | Overwrite
    // pruner
    | SelectBlocked(addressOf: map<uint64, Address>, blocked: set<Address>)
    | Prune
    // outside callers
    | DeleteOne(id: uint64)
    | DeleteMany(ids: seq<uint64>)
    // whoever holds the lock
    | Release

  function Start(whitelist: Whitelist, restored: Table): System {
    System(whitelist, restored, restored, {}, 0, Unlocked, Listening, NoBatch, Resting, Quiet,
           Ledger(multiset{}, multiset{}, multiset{}, multiset{}, multiset{}, multiset{}), {}, [], [], 0, 0)
  }

  /** The block provider delivers an ordered stream. */
  predicate Next(s: System, number: uint64) {
    s.listener == Listening && !Holds(s, ListenerOwner) && (s.received == [] || s.received[|s.received| - 1] < number)
  }

  /** A process inside its critical section does nothing else until it releases the lock. */
  predicate Holds(s: System, owner: Owner) {
    s.lock.Held? && s.lock.owner == owner
  }

  /** What the initializer's returned slices leave to register. */
  function ReadyItems(s: System): seq<Item>
    requires s.initializer.Returned? && |s.initializer.batch| == |s.initializer.inputs|
  {
    Ready(s.initializer.batch, InitAll(s.whitelist, s.initializer.inputs))
  }

  /** The applier of any initializer results meets slices of the right length and no nil reserve. */
  lemma AllUsable(w: Whitelist, inputs: seq<InitInput>)
    ensures |InitAll(w, inputs)| == |inputs| && Usable(InitAll(w, inputs))
  {
    forall i | 0 <= i < |inputs| && InitAll(w, inputs)[i].err.None?
      ensures InitAll(w, inputs)[i].reserve0.Some? && InitAll(w, inputs)[i].reserve1.Some?
    {
      InitOneContract(w, inputs[i]);
    }
  }

  /** What applying them reports. */
  function InitErrors(s: System, reg: Registration, env: Lookups): seq<Error>
    requires s.initializer.Returned? && |s.initializer.batch| == |s.initializer.inputs|
    requires Answers(reg, ReadyItems(s))
  {
    Errors(s.rows, s.initializer.batch, InitAll(s.whitelist, s.initializer.inputs), reg, env)
  }

  ghost function Origins(batch: seq<Address>, inputs: seq<InitInput>, env: Lookups): set<Origin>
    requires |batch| == |inputs|
  {
    set i | 0 <= i < |batch| :: Origin(batch[i], inputs[i], env)
  }

  ghost predicate Enabled(s: System, step: Step) {
    match step
    case Skip(n) => Next(s, n)
    case Fail(n) => Next(s, n)
    case Parse(n, logs, batch, discovered) =>
      Next(s, n) && IsUpdateBatch(logs, batch) && IsDiscovery(logs, discovered)
    case ApplyBlock(_, _, _) => s.lock == Unlocked && s.listener.Parsed?
    case StoreLast => s.lock.Held? && s.lock.storeLast.Some?
    case Drain(batch) =>
      s.lock == Unlocked && s.initializer == NoBatch && s.pending != {} && multiset(batch) == multiset(s.pending)
    case DropBatch => s.initializer.Drained?
    case Initialize(inputs) => s.initializer.Drained? && |inputs| == |s.initializer.batch|
    case ApplyInits(reg, env) =>
      s.lock == Unlocked && s.initializer.Returned? && |s.initializer.batch| == |s.initializer.inputs|
      && Honest(ReadyItems(s), reg, env)
    case FirstSnapshot(_) => s.reconciler == Resting && !Holds(s, ReconcilerOwner) && s.view != []
    case GiveUp => s.reconciler.Snapped?
    case SecondSnapshot(fetched) => s.reconciler.Snapped? && |fetched| == |s.reconciler.ids|
    case Overwrite =>
      s.lock == Unlocked && s.reconciler.Chosen? && |s.reconciler.fetched| == |s.reconciler.ids|
    case SelectBlocked(_, _) => s.pruner == Quiet && !Holds(s, PrunerOwner) && s.view != []
    case Prune => s.lock == Unlocked && s.pruner.Selected?
    case DeleteOne(_) => s.lock == Unlocked
    case DeleteMany(_) => s.lock == Unlocked
    case Release => s.lock.Held? && s.lock.storeLast.None?
  }

  /** The addresses a block step puts in the queue that were not there. */
  ghost function NewlyQueued(s: System, discovered: seq<Address>, blocked: set<Address>, known: set<Address>)
    : set<Address>
  {
    (set a | a in discovered && a !in blocked && a !in known) - s.pending
  }

  ghost function Do(s: System, step: Step): System
    requires Enabled(s, step)
  {
    match step
    case Skip(n) => s.(last := n, received := s.received + [n], handled := s.handled + [n])
    case Fail(n) => s.(received := s.received + [n])
    case Parse(n, logs, updates, discovered) =>
      s.(received := s.received + [n], listener := Parsed(n, logs, updates, discovered))
    case ApplyBlock(updateIDs, discoverIDs, blocked) =>
      var queued := NewlyQueued(s, s.listener.discovered, blocked, discoverIDs.Keys);
      s.(rows := ApplyBatch(s.rows, s.listener.updates, updateIDs), rowsBlock := s.listener.number,
         pending := s.pending + queued,
         ledger := s.ledger.(enqueued := s.ledger.enqueued + multiset(queued)),
         handled := s.handled + [s.listener.number],
         listener := Listening, lock := Held(ListenerOwner, Some(s.listener.number), true))
    case StoreLast => s.(last := s.lock.storeLast.value, lock := s.lock.(storeLast := None))
    case Drain(batch) =>
      s.(pending := {}, initializer := Drained(batch),
         ledger := s.ledger.(drained := s.ledger.drained + multiset(batch)))
    case DropBatch =>
      s.(initializer := NoBatch, ledger := s.ledger.(dropped := s.ledger.dropped + multiset(s.initializer.batch)))
    case Initialize(inputs) => s.(initializer := Returned(s.initializer.batch, inputs))
    case ApplyInits(reg, env) =>
      var items := ReadyItems(s);
      s.(rows := After(s.rows, items, reg, env, |items|), initializer := NoBatch,
         ledger := s.ledger.(
           applied := s.ledger.applied + multiset(s.initializer.batch),
           credited := s.ledger.credited + multiset(CreditedPools(items, Outcomes(s.rows, items, reg, env, |items|))),
           reported := s.ledger.reported + multiset(ErrorPools(InitErrors(s, reg, env)))),
         admitted := s.admitted + Origins(s.initializer.batch, s.initializer.inputs, env),
         lock := Held(InitializerOwner, None, Successes(s.rows, items, reg, env, |items|) > 0))
    case FirstSnapshot(addressOf) => s.(reconciler := Snapped(s.view, Resolvable(s.view, addressOf)))
    case GiveUp => s.(reconciler := Resting)
    case SecondSnapshot(fetched) =>
      var r := s.reconciler;
      s.(reconciler := if Select(r.prev, s.view, r.ids, fetched) == [] then Resting
                       else Chosen(r.prev, s.view, r.ids, fetched))
    case Overwrite =>
      var r := s.reconciler;
      s.(rows := ApplyChanges(s.rows, Select(r.prev, r.cur, r.ids, r.fetched)),
         reconciler := Resting, lock := Held(ReconcilerOwner, None, true))
    case SelectBlocked(addressOf, blocked) =>
      s.(pruner := if BlockedIds(s.view, addressOf, blocked) == [] then Quiet else Selected(s.view, addressOf, blocked))
    case Prune =>
      var p := s.pruner;
      DeleteStep(s.(pruner := Quiet), PrunerOwner, BlockedIds(p.snapshot, p.addressOf, p.blocked))
    case DeleteOne(id) => DeleteStep(s, CallerOwner, [id])
    case DeleteMany(ids) => DeleteStep(s, CallerOwner, ids)
    case Release =>
      s.(lock := Unlocked,
         view := if s.lock.publish then s.rows else s.view,
         viewBlock := if s.lock.publish then s.rowsBlock else s.viewBlock)
  }

  /** Deletes under the lock; a new view is owed exactly when some deletion succeeded. */
  function DeleteStep(s: System, owner: Owner, ids: seq<uint64>): System {
    s.(rows := DeleteAll(s.rows, ids), lock := Held(owner, None, false in DeleteErrors(s.rows, ids)))
  }

  ghost predicate ValidRun(s: System, steps: seq<Step>)
    decreases |steps|
  {
    steps == [] || (Enabled(s, steps[0]) && ValidRun(Do(s, steps[0]), steps[1..]))
  }

  ghost function Exec(s: System, steps: seq<Step>): System
    requires ValidRun(s, steps)
    decreases |steps|
  {
    if steps == [] then s else Exec(Do(s, steps[0]), steps[1..])
  }

  // ---- putting runs together ----

  lemma OneStep(s: System, step: Step)
    requires Enabled(s, step)
    ensures ValidRun(s, [step]) && Exec(s, [step]) == Do(s, step)
  {
    assert [step][1..] == [];
  }

  lemma Prepend(s: System, step: Step, rest: seq<Step>)
    requires Enabled(s, step) && ValidRun(Do(s, step), rest)
    ensures ValidRun(s, [step] + rest) && Exec(s, [step] + rest) == Exec(Do(s, step), rest)
  {
    assert ([step] + rest)[1..] == rest;
  }

  lemma TwoSteps(s: System, x: Step, y: Step)
    requires Enabled(s, x) && Enabled(Do(s, x), y)
    ensures ValidRun(s, [x, y]) && Exec(s, [x, y]) == Do(Do(s, x), y)
  {
    OneStep(Do(s, x), y);
    Prepend(s, x, [y]);
    assert [x] + [y] == [x, y];
  }

  lemma ThreeSteps(s: System, x: Step, y: Step, z: Step)
    requires Enabled(s, x) && Enabled(Do(s, x), y) && Enabled(Do(Do(s, x), y), z)
    ensures ValidRun(s, [x, y, z]) && Exec(s, [x, y, z]) == Do(Do(Do(s, x), y), z)
  {
    TwoSteps(Do(s, x), y, z);
    Prepend(s, x, [y, z]);
    assert [x] + [y, z] == [x, y, z];
  }

  lemma {:induction false} Join(s: System, first: seq<Step>, second: seq<Step>)
    requires ValidRun(s, first) && ValidRun(Exec(s, first), second)
    ensures ValidRun(s, first + second) && Exec(s, first + second) == Exec(Exec(s, first), second)
    decreases |first|
  {
    if first == [] {
      assert first + second == second;
    } else {
      Join(Do(s, first[0]), first[1..], second);
      Prepend(s, first[0], first[1..] + second);
      assert [first[0]] + (first[1..] + second) == first + second;
    }
  }
}
