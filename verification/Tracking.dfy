/** A pool's reserves through a whole run, whatever else the run does. */
module Tracking {
  import opened Deletions
  import opened Initializations
  import opened Initializer
  import opened Logs
  import opened Protocol
  import opened Reconciliation
  import opened Reserves
  import opened Runs
  import opened Tables
  import opened Theorems
  import opened Types
  import opened Updates

  /** `a` is the one address that resolves to `x`. */
  ghost predicate ResolvesOnly(m: map<Address, uint64>, a: Address, x: uint64) {
    a in m && m[a] == x && Unambiguous(m, x)
  }

  /** The record after the logs: with the address's last valid Sync, or as it was. */
  function Synced(p: Pool, logs: seq<Log>, a: Address): Pool {
    var latest := LatestSyncs(logs);
    if a in latest then p.WithReserves(latest[a].reserve0, latest[a].reserve1) else p
  }

  lemma {:induction false} LatestConcat(first: seq<Log>, second: seq<Log>, a: Address)
    ensures a in LatestSyncs(first + second) <==> a in LatestSyncs(first) || a in LatestSyncs(second)
    ensures a in LatestSyncs(second) ==> LatestSyncs(first + second)[a] == LatestSyncs(second)[a]
    ensures a in LatestSyncs(first) && a !in LatestSyncs(second) ==>
      LatestSyncs(first + second)[a] == LatestSyncs(first)[a]
  {
    var all := first + second;
    if second == [] {
      assert all == first;
    } else {
      LatestConcat(first, second[..|second| - 1], a);
      assert all[..|all| - 1] == first + second[..|second| - 1];
    }
  }

  /** A batch leaves a pool with the last valid Sync its logs hold for the pool's address. */
  lemma BatchSyncs(t: Table, logs: seq<Log>, batch: seq<Sync>, m: map<Address, uint64>, a: Address, x: uint64)
    requires Distinct(t) && Has(t, x) && IsUpdateBatch(logs, batch) && ResolvesOnly(m, a, x)
    ensures Get(ApplyBatch(t, batch, m), x) == Some(Synced(Get(t, x).value, logs, a))
  {
    var i, u := Find(t, x), ApplyBatch(t, batch, m);
    BatchRow(t, batch, m, i);
    ShapeKeepsFind(t, u, x);
    BatchIsLatest(logs, batch);
    if a in LatestSyncs(logs) {
      assert LatestSyncs(logs)[a] in Entries(batch) && Resolves(LatestSyncs(logs)[a], x, m);
    } else {
      forall s | s in Entries(batch) ensures !Resolves(s, x, m)
      {
        assert s in LatestSyncs(logs).Values && s.pool in LatestSyncs(logs);
      }
    }
  }

  lemma DeletionKeeps(t: Table, ids: seq<uint64>, x: uint64)
    requires Distinct(t) && Has(DeleteAll(t, ids), x)
    ensures Get(DeleteAll(t, ids), x) == Get(t, x)
  {
    DeleteAllGet(t, ids, x);
  }

  /** The logs a step applies to the registry. */
  function AppliedBy(s: System, step: Step): seq<Log> {
    if step.ApplyBlock? && s.listener.Parsed? then s.listener.logs else []
  }

  ghost function AppliedLogs(s: System, steps: seq<Step>): seq<Log>
    requires ValidRun(s, steps)
    decreases |steps|
  {
    if steps == [] then [] else AppliedBy(s, steps[0]) + AppliedLogs(Do(s, steps[0]), steps[1..])
  }

  /** Blocks resolve the address to this pool alone, and the reconciler does not write it. */
  ghost predicate LeavesToBlocks(s: System, step: Step, a: Address, x: uint64)
    requires Enabled(s, step)
  {
    && (step.ApplyBlock? ==> ResolvesOnly(step.updateIDs, a, x))
    && (step.Overwrite? ==>
          var r := s.reconciler;
          !Writes(r.prev, r.cur, r.ids, r.fetched, x))
  }

  lemma StepSyncs(s: System, step: Step, a: Address, x: uint64)
    requires TablesOk(s) && Enabled(s, step) && LeavesToBlocks(s, step, a, x)
    requires Has(s.rows, x) && Has(Do(s, step).rows, x)
    ensures Get(Do(s, step).rows, x) == Some(Synced(Get(s.rows, x).value, AppliedBy(s, step), a))
  {
    match step
    case ApplyBlock(updateIDs, _, _) => BatchSyncs(s.rows, s.listener.logs, s.listener.updates, updateIDs, a, x);
    case Overwrite => OverwriteInAnyRun(s, x);
    case ApplyInits(reg, env) => InitIdentity(s, reg, env, x);
    case Prune => PruneInAnyRun(s, x);
    case DeleteOne(id) => DeletionKeeps(s.rows, [id], x);
    case DeleteMany(ids) => DeletionKeeps(s.rows, ids, x);
    case _ =>
  }

  /** Every step of the run leaves the pool to the block listener, and the pool is never deleted. */
  ghost predicate Followed(s: System, steps: seq<Step>, a: Address, x: uint64)
    requires ValidRun(s, steps)
    decreases |steps|
  {
    Has(s.rows, x) &&
    (steps == [] || (LeavesToBlocks(s, steps[0], a, x) && Followed(Do(s, steps[0]), steps[1..], a, x)))
  }

  /**
   Whatever a run adds, deletes, prunes or moves in between, a pool that stays and that the reconciler
   leaves alone ends on the last valid Sync of its address among all the blocks applied, or on the
   reserves it started with.
   */
  lemma {:induction false} PoolFollowsItsBlocks(s: System, steps: seq<Step>, restored: Table, a: Address, x: uint64)
    requires Safe(s, restored) && ValidRun(s, steps) && Followed(s, steps, a, x)
    ensures Has(s.rows, x)
    ensures Get(Exec(s, steps).rows, x) == Some(Synced(Get(s.rows, x).value, AppliedLogs(s, steps), a))
    decreases |steps|
  {
    if steps != [] {
      var s' := Do(s, steps[0]);
      StepSyncs(s, steps[0], a, x);
      RunKeepsSafe(s, [steps[0]], restored);
      OneStep(s, steps[0]);
      PoolFollowsItsBlocks(s', steps[1..], restored, a, x);
      LatestConcat(AppliedBy(s, steps[0]), AppliedLogs(s', steps[1..]), a);
    }
  }

  // ---- blocks and reconciler together ----

  /** The reserves a block brings for a pool: those of the last valid Sync that resolves to it. */
  ghost function BlockWrite(logs: seq<Log>, m: map<Address, uint64>, x: uint64): Option<Pair> {
    if e :| e in LatestSyncs(logs).Values && Resolves(e, x, m) then Some(Pair(e.reserve0, e.reserve1)) else None
  }

  /** The reserves a step writes to a pool that is there. */
  ghost function WriteOf(s: System, step: Step, x: uint64): Option<Pair>
    requires Enabled(s, step)
  {
    match step
    case ApplyBlock(updateIDs, _, _) => BlockWrite(s.listener.logs, updateIDs, x)
    case Overwrite =>
      var r := s.reconciler;
      if Writes(r.prev, r.cur, r.ids, r.fetched, x) then FetchedFor(r.ids, r.fetched, x) else None
    case _ => None
  }

  ghost function LastWrite(s: System, steps: seq<Step>, x: uint64): Option<Pair>
    requires ValidRun(s, steps)
    decreases |steps|
  {
    if steps == [] then None
    else
      var later := LastWrite(Do(s, steps[0]), steps[1..], x);
      if later.Some? then later else WriteOf(s, steps[0], x)
  }

  function Written(p: Pool, w: Option<Pair>): Pool {
    match w
    case Some(pair) => p.WithReserves(pair.reserve0, pair.reserve1)
    case None => p
  }

  lemma WrittenTwice(p: Pool, first: Option<Pair>, second: Option<Pair>)
    ensures Written(Written(p, first), second) == Written(p, if second.Some? then second else first)
  {
  }

  /** A batch, in whatever order it comes, writes the one Sync that resolves to the pool. */
  lemma BatchWrites(t: Table, logs: seq<Log>, batch: seq<Sync>, m: map<Address, uint64>, x: uint64)
    requires Distinct(t) && Has(t, x) && IsUpdateBatch(logs, batch) && Unambiguous(m, x)
    ensures Get(ApplyBatch(t, batch, m), x) == Some(Written(Get(t, x).value, BlockWrite(logs, m, x)))
  {
    var i, u := Find(t, x), ApplyBatch(t, batch, m);
    BatchRow(t, batch, m, i);
    ShapeKeepsFind(t, u, x);
    BatchIsLatest(logs, batch);
    assert Entries(batch) == LatestSyncs(logs).Values;
    assert Get(u, x) == Some(u[i]);
  }

  /** Any step leaves a pool that stays with what it writes to it, or as it was. */
  lemma StepWrites(s: System, step: Step, x: uint64)
    requires TablesOk(s) && Enabled(s, step) && Has(s.rows, x) && Has(Do(s, step).rows, x)
    requires step.ApplyBlock? ==> Unambiguous(step.updateIDs, x)
    ensures Get(Do(s, step).rows, x) == Some(Written(Get(s.rows, x).value, WriteOf(s, step, x)))
  {
    match step
    case ApplyBlock(updateIDs, _, _) => BatchWrites(s.rows, s.listener.logs, s.listener.updates, updateIDs, x);
    case Overwrite => OverwriteInAnyRun(s, x);
    case ApplyInits(reg, env) => InitIdentity(s, reg, env, x);
    case Prune => PruneInAnyRun(s, x);
    case DeleteOne(id) => DeletionKeeps(s.rows, [id], x);
    case DeleteMany(ids) => DeletionKeeps(s.rows, ids, x);
    case _ =>
  }

  /** No block of the run resolves two addresses to the pool. */
  ghost predicate ResolvedOnce(steps: seq<Step>, x: uint64) {
    steps == [] || ((steps[0].ApplyBlock? ==> Unambiguous(steps[0].updateIDs, x)) && ResolvedOnce(steps[1..], x))
  }

  /**
   The last writer wins, block or reconciler, in the order in which they took the lock: over any run a
   pool that stays ends on its own identity with the reserves of the last step that wrote it, or on
   those it started with.
   */
  lemma {:induction false} LastWriterWins(s: System, steps: seq<Step>, restored: Table, x: uint64)
    requires Safe(s, restored) && ValidRun(s, steps) && AlwaysThere(s, steps, x) && ResolvedOnce(steps, x)
    ensures Has(s.rows, x)
    ensures Get(Exec(s, steps).rows, x) == Some(Written(Get(s.rows, x).value, LastWrite(s, steps, x)))
    decreases |steps|
  {
    if steps != [] {
      var s' := Do(s, steps[0]);
      StepWrites(s, steps[0], x);
      RunKeepsSafe(s, [steps[0]], restored);
      OneStep(s, steps[0]);
      LastWriterWins(s', steps[1..], restored, x);
      WrittenTwice(Get(s.rows, x).value, WriteOf(s, steps[0], x), LastWrite(s', steps[1..], x));
    }
  }

  /** The row of a pool made from one index's own answers and the registrar's lookups. */
  function OwnRow(w: Whitelist, pool: Address, q: InitInput, env: Lookups): Pool
    requires DecodeAddress(q.factory).Some? && DecodeAddress(q.factory).value in w
    requires DecodeAddress(q.token0).Some? && DecodeAddress(q.token0).value in env.tokenIDs
    requires DecodeAddress(q.token1).Some? && DecodeAddress(q.token1).value in env.tokenIDs
    requires DecodeReserves(q.reserves).Some? && pool in env.poolIDs
  {
    var p := DecodeReserves(q.reserves).value;
    Pool(env.poolIDs[pool], env.tokenIDs[DecodeAddress(q.token0).value], env.tokenIDs[DecodeAddress(q.token1).value],
         p.reserve0, p.reserve1, 0, w[DecodeAddress(q.factory).value].fee)
  }

  /** An admitted pool's finished row is made from the answers at its own index of the batch. */
  lemma AdmittedRow(s: System, reg: Registration, env: Lookups, i: nat) returns (k: nat)
    requires Enabled(s, ApplyInits(reg, env))
    requires i < |ReadyItems(s)| && Addable(s.rows, ReadyItems(s), reg, env, i)
    ensures k < |s.initializer.batch| && ReadyItems(s)[i].request.pool == s.initializer.batch[k]
    ensures var q := s.initializer.inputs[k];
            && Initializes(s.whitelist, q)
            && DecodeAddress(q.token0).value in env.tokenIDs && DecodeAddress(q.token1).value in env.tokenIDs
            && FullRow(ReadyItems(s)[i], env) == OwnRow(s.whitelist, s.initializer.batch[k], q, env)
  {
    var at := ReadyExact(s.initializer.batch, InitAll(s.whitelist, s.initializer.inputs));
    k := at[i];
    InitOneExact(s.whitelist, s.initializer.inputs[k]);
  }

  /**
   A pool's whole life after its admission. It comes from one index of its batch, with the address there,
   and over any run in which it is not deleted it ends with the reserves of the last step that wrote it, or
   else with those its own answer decodes to; its tokens and fee are those its own answers name.
   */
  lemma AdmittedThenWritten(s: System, reg: Registration, env: Lookups, i: nat, steps: seq<Step>, restored: Table)
    returns (k: nat)
    requires Safe(s, restored) && Enabled(s, ApplyInits(reg, env))
    requires i < |ReadyItems(s)| && Addable(s.rows, ReadyItems(s), reg, env, i)
    requires ValidRun(Do(s, ApplyInits(reg, env)), steps)
    requires AlwaysThere(Do(s, ApplyInits(reg, env)), steps, IdOf(ReadyItems(s), env, i))
    requires ResolvedOnce(steps, IdOf(ReadyItems(s), env, i))
    ensures k < |s.initializer.batch| && ReadyItems(s)[i].request.pool == s.initializer.batch[k]
    ensures var q, d := s.initializer.inputs[k], Do(s, ApplyInits(reg, env));
            var x := env.poolIDs[s.initializer.batch[k]];
            && Initializes(s.whitelist, q)
            && DecodeAddress(q.token0).value in env.tokenIDs && DecodeAddress(q.token1).value in env.tokenIDs
            && !Has(s.rows, x)
            && Get(Exec(d, steps).rows, x)
               == Some(Written(OwnRow(s.whitelist, s.initializer.batch[k], q, env), LastWrite(d, steps, x)))
  {
    var items, d := ReadyItems(s), Do(s, ApplyInits(reg, env));
    k := AdmittedRow(s, reg, env, i);
    TrustedIntended(s.rows, items, reg, env);
    RunKeepsSafe(s, [ApplyInits(reg, env)], restored);
    OneStep(s, ApplyInits(reg, env));
    LastWriterWins(d, steps, restored, IdOf(items, env, i));
  }

  /** A block from its logs to the lock's release, nothing in between: its Syncs are in the registry and the view. */
  lemma BlockLands(s: System, restored: Table, block: Step, apply: Step, a: Address, x: uint64)
    requires Safe(s, restored) && s.lock == Unlocked && Has(s.rows, x)
    requires block.Parse? && Enabled(s, block)
    requires apply.ApplyBlock? && ResolvesOnly(apply.updateIDs, a, x)
    ensures var steps := [block, apply, StoreLast, Release];
            && ValidRun(s, steps)
            && var m := Exec(s, steps);
               && m.lock == Unlocked && m.view == m.rows && m.last == m.viewBlock == m.rowsBlock == block.number
               && m.reconciler == s.reconciler
               && Get(m.rows, x) == Some(Synced(Get(s.rows, x).value, block.logs, a))
  {
    BatchSyncs(s.rows, block.logs, block.updates, apply.updateIDs, a, x);
    OneStep(s, block);
    ThreeSteps(Do(s, block), apply, StoreLast, Release);
    Prepend(s, block, [apply, StoreLast, Release]);
    assert [block] + [apply, StoreLast, Release] == [block, apply, StoreLast, Release];
  }

  /**
   A block that lands after the reconciler has chosen, before it takes the lock: the block's reserves
   reach the registry and the published view, and then the reconciler replaces them with its older
   fetch exactly when its earlier snapshots told it to write the pool.
   */
  lemma LateBlock(s: System, restored: Table, block: Step, apply: Step, a: Address, x: uint64)
    requires Safe(s, restored) && s.lock == Unlocked && s.reconciler.Chosen? && Has(s.rows, x)
    requires block.Parse? && Enabled(s, block)
    requires apply.ApplyBlock? && ResolvesOnly(apply.updateIDs, a, x)
    ensures var first, second, r := [block, apply, StoreLast, Release], [Overwrite, Release], s.reconciler;
            && ValidRun(s, first) && ValidRun(s, first + second)
            && var m, e := Exec(s, first), Exec(s, first + second);
               && m.lock == Unlocked && m.view == m.rows && m.viewBlock == block.number
               && Get(m.rows, x) == Some(Synced(Get(s.rows, x).value, block.logs, a))
               && e.lock == Unlocked && e.view == e.rows && e.viewBlock == block.number
               && Get(e.rows, x) == if Writes(r.prev, r.cur, r.ids, r.fetched, x)
                                    then Some(Written(Get(m.rows, x).value, FetchedFor(r.ids, r.fetched, x)))
                                    else Get(m.rows, x)
  {
    var first := [block, apply, StoreLast, Release];
    BlockLands(s, restored, block, apply, a, x);
    var m := Exec(s, first);
    RunKeepsSafe(s, first, restored);
    OverwriteEnds(m);
    OverwriteInAnyRun(m, x);
    Join(s, first, [Overwrite, Release]);
  }
}
