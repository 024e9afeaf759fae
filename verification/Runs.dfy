/** What holds in every interleaving of the running system. */
module Runs {
  import opened Deletions
  import opened Initializations
  import opened Initializer
  import opened Logs
  import opened Protocol
  import opened Reconciliation
  import opened Tables
  import opened Types
  import opened Updates

  // ---- registry and view ----

  ghost predicate ReconcilerOk(r: ReconcilePhase) {
    match r
    case Resting => true
    case Snapped(prev, ids) => Distinct(prev) && NoRepeats(ids)
    case Chosen(prev, cur, ids, fetched) => Distinct(prev) && Distinct(cur) && NoRepeats(ids) && |fetched| == |ids|
  }

  /** Each ID occurs once, and the published view is the registry's own unless a lock holder still owes one. */
  ghost predicate TablesOk(s: System) {
    && Distinct(s.rows) && Distinct(s.view)
    && (s.lock == Unlocked || !s.lock.publish ==> s.view == s.rows)
    && ReconcilerOk(s.reconciler)
    && (s.listener.Parsed? ==> IsUpdateBatch(s.listener.logs, s.listener.updates))
  }

  lemma DeleteStepOk(s: System, owner: Owner, ids: seq<uint64>)
    requires Distinct(s.rows) && s.view == s.rows
    ensures Distinct(DeleteStep(s, owner, ids).rows)
    ensures !DeleteStep(s, owner, ids).lock.publish ==> DeleteStep(s, owner, ids).rows == s.view
  {
    DeleteAllGet(s.rows, ids, 0);
    if false !in DeleteErrors(s.rows, ids) {
      AllFailedUnchanged(s.rows, ids);
    }
  }

  lemma InitStepOk(s: System, reg: Registration, env: Lookups)
    requires TablesOk(s) && Enabled(s, ApplyInits(reg, env))
    ensures TablesOk(Do(s, ApplyInits(reg, env)))
  {
    var items := ReadyItems(s);
    HonestBatch(s.rows, items, reg, env, |items|);
    if Successes(s.rows, items, reg, env, |items|) == 0 {
      assert After(s.rows, items, reg, env, |items|) == s.rows + [];
    }
  }

  lemma StepKeepsTables(s: System, step: Step)
    requires TablesOk(s) && Enabled(s, step)
    ensures TablesOk(Do(s, step))
  {
    match step
    case ApplyBlock(updateIDs, _, _) => BatchShape(s.rows, s.listener.updates, updateIDs);
    case ApplyInits(reg, env) => InitStepOk(s, reg, env);
    case FirstSnapshot(addressOf) => ResolvableOnce(s.view, addressOf);
    case Overwrite =>
      var r := s.reconciler;
      ChangesShape(s.rows, Select(r.prev, r.cur, r.ids, r.fetched));
    case Prune =>
      var p := s.pruner;
      DeleteStepOk(s.(pruner := Quiet), PrunerOwner, BlockedIds(p.snapshot, p.addressOf, p.blocked));
    case DeleteOne(id) => DeleteStepOk(s, CallerOwner, [id]);
    case DeleteMany(ids) => DeleteStepOk(s, CallerOwner, ids);
    case _ =>
  }

  // ---- pending queue ----

  function InFlight(p: InitPhase): multiset<Address> {
    match p case NoBatch => multiset{} case Drained(batch) => multiset(batch) case Returned(batch, _) => multiset(batch)
  }

  /**
   Every enqueueing is still queued or has been drained once; every drained address is in flight,
   applied or dropped; every applied one was counted as a success or reported in an error.
   */
  ghost predicate LedgerOk(s: System) {
    && s.ledger.enqueued == s.ledger.drained + multiset(s.pending)
    && s.ledger.drained == s.ledger.applied + s.ledger.dropped + InFlight(s.initializer)
    && s.ledger.applied == s.ledger.credited + s.ledger.reported
  }

  /** A step drains, applies or drops the whole of one batch, or touches none. */
  ghost predicate WholeBatches(s: System, step: Step, e: System) {
    match step
    case Drain(batch) =>
      && InFlight(s.initializer) == multiset{} && InFlight(e.initializer) == multiset(batch) == multiset(s.pending)
      && e.ledger == s.ledger.(drained := s.ledger.drained + multiset(batch))
    case DropBatch =>
      && InFlight(e.initializer) == multiset{}
      && e.ledger == s.ledger.(dropped := s.ledger.dropped + InFlight(s.initializer))
    case ApplyInits(_, _) =>
      && InFlight(e.initializer) == multiset{}
      && e.ledger.applied == s.ledger.applied + InFlight(s.initializer)
      && e.ledger.credited + e.ledger.reported == s.ledger.credited + s.ledger.reported + InFlight(s.initializer)
      && e.ledger.enqueued == s.ledger.enqueued && e.ledger.drained == s.ledger.drained
      && e.ledger.dropped == s.ledger.dropped
    case _ =>
      && InFlight(e.initializer) == InFlight(s.initializer)
      && e.ledger.(enqueued := s.ledger.enqueued) == s.ledger
  }

  lemma QueueingKeepsLedger(s: System, step: Step)
    requires LedgerOk(s) && Enabled(s, step) && step.ApplyBlock?
    ensures LedgerOk(Do(s, step))
  {
    var queued := NewlyQueued(s, s.listener.discovered, step.blocked, step.discoverIDs.Keys);
    assert multiset(s.pending + queued) == multiset(s.pending) + multiset(queued);
  }

  lemma ApplyingKeepsLedger(s: System, reg: Registration, env: Lookups)
    requires LedgerOk(s) && Enabled(s, ApplyInits(reg, env))
    ensures LedgerOk(Do(s, ApplyInits(reg, env)))
    ensures WholeBatches(s, ApplyInits(reg, env), Do(s, ApplyInits(reg, env)))
  {
    BatchAccounts(s.rows, s.initializer.batch, InitAll(s.whitelist, s.initializer.inputs), reg, env);
  }

  lemma StepKeepsLedger(s: System, step: Step)
    requires LedgerOk(s) && Enabled(s, step)
    ensures LedgerOk(Do(s, step)) && WholeBatches(s, step, Do(s, step))
  {
    match step
    case ApplyBlock(_, _, _) => QueueingKeepsLedger(s, step);
    case ApplyInits(reg, env) => ApplyingKeepsLedger(s, reg, env);
    case _ =>
  }

  // ---- block numbers ----

  predicate Ascending(q: seq<uint64>) {
    forall i, j :: 0 <= i < j < |q| ==> q[i] < q[j]
  }

  function Latest(q: seq<uint64>): uint64 {
    if q == [] then 0 else q[|q| - 1]
  }

  /** A block's number has been handled but not yet stored. */
  predicate Storing(s: System) {
    s.lock.Held? && s.lock.storeLast.Some?
  }

  /** Blocks are taken and handled in increasing order, and a parsed one is the latest taken. */
  ghost predicate NumbersOk(s: System) {
    && Ascending(s.received) && Ascending(s.handled)
    && (s.handled != [] ==> s.received != [] && Latest(s.handled) <= Latest(s.received))
    && (s.listener.Parsed? ==> s.received != [] && s.listener.number == Latest(s.received)
                               && (s.handled != [] ==> Latest(s.handled) < s.listener.number))
  }

  /** The latest handled number whose store is done. */
  function Stored(s: System): uint64 {
    Latest(if Storing(s) && s.handled != [] then s.handled[..|s.handled| - 1] else s.handled)
  }

  /** The stored number is the latest handled, the one being stored excepted; the view's block does not exceed it. */
  ghost predicate StoredOk(s: System) {
    && (Storing(s) ==> s.lock.owner == ListenerOwner && s.handled != []
                       && s.lock.storeLast.value == Latest(s.handled) == s.rowsBlock)
    && s.last == Stored(s)
    && (!Storing(s) ==> s.rowsBlock <= s.last)
    && s.viewBlock <= s.last && s.viewBlock <= s.rowsBlock
    && (s.lock == Unlocked || !s.lock.publish ==> s.viewBlock == s.rowsBlock)
  }

  ghost predicate BlocksOk(s: System) {
    NumbersOk(s) && StoredOk(s)
  }

  lemma AppendNumber(q: seq<uint64>, n: uint64)
    requires Ascending(q) && (q == [] || Latest(q) < n)
    ensures Ascending(q + [n]) && Latest(q + [n]) == n
  {
  }

  /** A number taken from the stream. */
  lemma TakeKeepsNumbers(s: System, step: Step)
    requires NumbersOk(s) && Enabled(s, step) && (step.Fail? || step.Parse?)
    ensures NumbersOk(Do(s, step))
  {
    AppendNumber(s.received, step.number);
  }

  /** A number taken and handled at once. */
  lemma SkipKeepsNumbers(s: System, n: uint64)
    requires NumbersOk(s) && Enabled(s, Skip(n))
    ensures NumbersOk(Do(s, Skip(n)))
  {
    AppendNumber(s.received, n);
    AppendNumber(s.handled, n);
  }

  /** The number taken last, handled. */
  lemma HandleKeepsNumbers(s: System, step: Step)
    requires NumbersOk(s) && Enabled(s, step) && step.ApplyBlock?
    ensures NumbersOk(Do(s, step))
  {
    AppendNumber(s.handled, s.listener.number);
  }

  lemma StepKeepsNumbers(s: System, step: Step)
    requires NumbersOk(s) && Enabled(s, step)
    ensures NumbersOk(Do(s, step))
  {
    match step
    case Skip(n) => SkipKeepsNumbers(s, n);
    case Fail(_) => TakeKeepsNumbers(s, step);
    case Parse(_, _, _, _) => TakeKeepsNumbers(s, step);
    case ApplyBlock(_, _, _) => HandleKeepsNumbers(s, step);
    case _ =>
      assert Do(s, step).handled == s.handled && Do(s, step).received == s.received;
  }

  lemma LatestAppend(q: seq<uint64>, n: uint64)
    ensures Latest(q + [n]) == n && (q + [n])[..|q|] == q
  {
  }

  lemma LatestRises(q: seq<uint64>)
    requires Ascending(q) && q != []
    ensures Latest(q[..|q| - 1]) <= Latest(q)
  {
  }

  lemma SkipKeepsStored(s: System, n: uint64)
    requires StoredOk(s) && Enabled(s, Skip(n)) && (s.handled == [] || Latest(s.handled) < n)
    ensures StoredOk(Do(s, Skip(n))) && s.last <= n
  {
    LatestAppend(s.handled, n);
  }

  lemma ApplyKeepsStored(s: System, step: Step)
    requires StoredOk(s) && Enabled(s, step) && step.ApplyBlock?
    requires s.handled == [] || Latest(s.handled) < s.listener.number
    ensures StoredOk(Do(s, step)) && s.last == Do(s, step).last
  {
    LatestAppend(s.handled, s.listener.number);
  }

  lemma StoreKeepsStored(s: System)
    requires StoredOk(s) && Enabled(s, StoreLast) && Stored(s) <= Latest(s.handled)
    ensures StoredOk(Do(s, StoreLast)) && s.last <= Do(s, StoreLast).last
  {
  }

  lemma StepKeepsStored(s: System, step: Step)
    requires BlocksOk(s) && Enabled(s, step)
    ensures StoredOk(Do(s, step)) && s.last <= Do(s, step).last && s.viewBlock <= Do(s, step).viewBlock
  {
    match step
    case Skip(n) => SkipKeepsStored(s, n);
    case ApplyBlock(_, _, _) => ApplyKeepsStored(s, step);
    case StoreLast =>
      LatestRises(s.handled);
      StoreKeepsStored(s);
    case _ =>
      assert Do(s, step).handled == s.handled && Do(s, step).last == s.last && Do(s, step).rowsBlock == s.rowsBlock;
  }

  lemma StepKeepsBlocks(s: System, step: Step)
    requires BlocksOk(s) && Enabled(s, step)
    ensures BlocksOk(Do(s, step))
    ensures s.last <= Do(s, step).last && s.viewBlock <= Do(s, step).viewBlock
  {
    StepKeepsNumbers(s, step);
    StepKeepsStored(s, step);
  }

  // ---- provenance ----

  /** The row a batch made for its pool: own ID and tokens, type zero, the fee of its own whitelisted factory. */
  ghost predicate MadeFrom(w: Whitelist, o: Origin, row: Pool) {
    var slot, factory := InitOne(w, o.input), DecodeAddress(o.input.factory);
    && slot.err.None? && factory.Some? && factory.value in w
    && o.pool in o.env.poolIDs && row.id == o.env.poolIDs[o.pool]
    && DecodeAddress(o.input.token0) == Some(slot.token0) && DecodeAddress(o.input.token1) == Some(slot.token1)
    && slot.token0 in o.env.tokenIDs && row.token0 == o.env.tokenIDs[slot.token0]
    && slot.token1 in o.env.tokenIDs && row.token1 == o.env.tokenIDs[slot.token1]
    && row.poolType == 0 && row.fee == w[factory.value].fee
  }

  /** A row restored from the snapshot, up to reserves, or one made from an admitted pool's own answers. */
  ghost predicate Justified(s: System, restored: Table, row: Pool) {
    || (exists k :: 0 <= k < |restored| && SameStatics(restored[k], row))
    || (exists o :: o in s.admitted && MadeFrom(s.whitelist, o, row))
  }

  ghost predicate ProvenanceOk(s: System, restored: Table) {
    forall i :: 0 <= i < |s.rows| ==> Justified(s, restored, s.rows[i])
  }

  lemma ShapeKeepsProvenance(s: System, restored: Table, u: Table)
    requires ProvenanceOk(s, restored) && SameShape(s.rows, u)
    ensures forall i :: 0 <= i < |u| ==> Justified(s, restored, u[i])
  {
    forall i | 0 <= i < |u| ensures Justified(s, restored, u[i])
    {
      var row := s.rows[i];
      assert SameStatics(row, u[i]) && Justified(s, restored, row);
      if k :| 0 <= k < |restored| && SameStatics(restored[k], row) {
        assert SameStatics(restored[k], u[i]);
      } else {
        var o :| o in s.admitted && MadeFrom(s.whitelist, o, row);
        assert MadeFrom(s.whitelist, o, u[i]);
      }
    }
  }

  lemma DeleteKeepsProvenance(s: System, restored: Table, ids: seq<uint64>)
    requires ProvenanceOk(s, restored) && Distinct(s.rows)
    ensures forall i :: 0 <= i < |DeleteAll(s.rows, ids)| ==> Justified(s, restored, DeleteAll(s.rows, ids)[i])
  {
    var u := DeleteAll(s.rows, ids);
    forall i | 0 <= i < |u| ensures Justified(s, restored, u[i])
    {
      DeleteAllGet(s.rows, ids, u[i].id);
      FindUnique(u, i);
      assert u[i] == s.rows[Find(s.rows, u[i].id)];
    }
  }

  /** What the filter lets through is the slots of one pool of the batch, with a nil error. */
  lemma {:induction false} ReadySource(pools: seq<Address>, slots: seq<InitSlot>, j: nat) returns (i: nat)
    requires |pools| == |slots| && j < |Ready(pools, slots)|
    ensures i < |pools| && slots[i].err.None?
    ensures Ready(pools, slots)[j].request
         == AddRequest(slots[i].token0, slots[i].token1, pools[i], slots[i].poolType, slots[i].fee)
  {
    var n := |pools| - 1;
    if j < |Ready(pools[..n], slots[..n])| {
      i := ReadySource(pools[..n], slots[..n], j);
    } else {
      i := n;
    }
  }

  lemma NewRowMade(s: System, reg: Registration, env: Lookups, row: Pool)
    requires Enabled(s, ApplyInits(reg, env)) && row in NewRows(s.rows, ReadyItems(s), reg, env, |ReadyItems(s)|)
    ensures exists o :: o in Do(s, ApplyInits(reg, env)).admitted && MadeFrom(s.whitelist, o, row)
  {
    var items, inputs := ReadyItems(s), s.initializer.inputs;
    NewRowsExact(s.rows, items, reg, env, |items|, row);
    var j :| 0 <= j < |items| && Addable(s.rows, items, reg, env, j) && row == FullRow(items[j], env);
    AllUsable(s.whitelist, inputs);
    var i := ReadySource(s.initializer.batch, InitAll(s.whitelist, inputs), j);
    InitOneContract(s.whitelist, inputs[i]);
    var o := Origin(s.initializer.batch[i], inputs[i], env);
    assert o in Origins(s.initializer.batch, inputs, env) && MadeFrom(s.whitelist, o, row);
  }

  lemma InitsKeepProvenance(s: System, restored: Table, reg: Registration, env: Lookups)
    requires TablesOk(s) && ProvenanceOk(s, restored) && Enabled(s, ApplyInits(reg, env))
    ensures ProvenanceOk(Do(s, ApplyInits(reg, env)), restored)
  {
    var items, s' := ReadyItems(s), Do(s, ApplyInits(reg, env));
    HonestBatch(s.rows, items, reg, env, |items|);
    forall k | 0 <= k < |s'.rows| ensures Justified(s', restored, s'.rows[k])
    {
      if k < |s.rows| {
        assert Justified(s, restored, s.rows[k]);
      } else {
        NewRowMade(s, reg, env, s'.rows[k]);
      }
    }
  }

  lemma StepKeepsProvenance(s: System, step: Step, restored: Table)
    requires TablesOk(s) && ProvenanceOk(s, restored) && Enabled(s, step)
    ensures ProvenanceOk(Do(s, step), restored)
  {
    var s' := Do(s, step);
    if step.ApplyInits? {
      InitsKeepProvenance(s, restored, step.reg, step.env);
    } else {
      match step {
        case ApplyBlock(updateIDs, _, _) =>
          BatchShape(s.rows, s.listener.updates, updateIDs);
          ShapeKeepsProvenance(s, restored, s'.rows);
        case Overwrite =>
          var r := s.reconciler;
          ChangesShape(s.rows, Select(r.prev, r.cur, r.ids, r.fetched));
          ShapeKeepsProvenance(s, restored, s'.rows);
        case Prune =>
          DeleteKeepsProvenance(s, restored, BlockedIds(s.pruner.snapshot, s.pruner.addressOf, s.pruner.blocked));
        case DeleteOne(id) => DeleteKeepsProvenance(s, restored, [id]);
        case DeleteMany(ids) => DeleteKeepsProvenance(s, restored, ids);
        case _ =>
      }
      SameAdmitted(s, s', restored);
    }
  }

  /** Justification looks at nothing but the whitelist and the admitted pools. */
  lemma SameAdmitted(s: System, s': System, restored: Table)
    requires s'.whitelist == s.whitelist && s'.admitted == s.admitted
    requires forall i :: 0 <= i < |s'.rows| ==> Justified(s, restored, s'.rows[i])
    ensures ProvenanceOk(s', restored)
  {
    forall i | 0 <= i < |s'.rows| ensures Justified(s', restored, s'.rows[i])
    {
      assert Justified(s, restored, s'.rows[i]);
    }
  }

  // ---- whole runs ----

  ghost predicate Safe(s: System, restored: Table) {
    TablesOk(s) && LedgerOk(s) && BlocksOk(s) && ProvenanceOk(s, restored)
  }

  lemma {:induction false} RunKeepsSafe(s: System, steps: seq<Step>, restored: Table)
    requires Safe(s, restored) && ValidRun(s, steps)
    ensures Safe(Exec(s, steps), restored)
    ensures s.last <= Exec(s, steps).last && s.viewBlock <= Exec(s, steps).viewBlock
    ensures Exec(s, steps).whitelist == s.whitelist
    decreases |steps|
  {
    if steps != [] {
      StepKeepsTables(s, steps[0]);
      StepKeepsLedger(s, steps[0]);
      StepKeepsBlocks(s, steps[0]);
      StepKeepsProvenance(s, steps[0], restored);
      RunKeepsSafe(Do(s, steps[0]), steps[1..], restored);
    }
  }

  lemma {:induction false} RunKeepsTables(s: System, steps: seq<Step>)
    requires TablesOk(s) && ValidRun(s, steps)
    ensures TablesOk(Exec(s, steps))
    decreases |steps|
  {
    if steps != [] {
      StepKeepsTables(s, steps[0]);
      RunKeepsTables(Do(s, steps[0]), steps[1..]);
    }
  }

  /** Every state a system can reach, from an empty or restored registry, is safe. */
  lemma ReachableIsSafe(w: Whitelist, restored: Table, steps: seq<Step>)
    requires Distinct(restored) && ValidRun(Start(w, restored), steps)
    ensures Safe(Exec(Start(w, restored), steps), restored)
  {
    var s := Start(w, restored);
    forall i | 0 <= i < |restored| ensures Justified(s, restored, s.rows[i])
    {
      assert SameStatics(restored[i], s.rows[i]);
    }
    RunKeepsSafe(s, steps, restored);
  }
}
