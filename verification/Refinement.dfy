/**
 The orchestrator's methods take exactly the steps of the state machine: each critical section run on
 the heap leaves the shared state where its steps, run back to back, leave the abstract one.

 `foreign` stands for any reserve numbers held outside the registry, by a reader of an older view or by
 a process between two sections. Every section leaves their values and leaves them outside, so what one
 section ensures is what the next one requires; `Execution` puts whole executions together.
 */
module Refinement {
  import opened Deletions
  import opened Initializations
  import opened Initializer
  import opened Logs
  import opened Protocol
  import opened Reconciliation
  import opened Registries
  import opened Reserves
  import opened Slices
  import opened Systems
  import opened Tables
  import opened Types
  import opened Updates

  /** The heap state, between critical sections, is the abstract state's. */
  ghost predicate Matches(s: UniswapV2System, a: System)
    reads s, s.registry, s.registry.Objects(), ViewObjects(s.cachedView)
  {
    && s.Valid()
    && s.Rows() == a.rows && s.Published() == a.view
    && s.pendingInit == a.pending && s.lastUpdatedAtBlock == a.last
    && a.lock == Unlocked
  }

  /** The processes' own phases, the listener's excepted, are as they were. */
  ghost predicate SameButListener(a: System, e: System) {
    && e.initializer == a.initializer && e.reconciler == a.reconciler && e.pruner == a.pruner
    && e.received == a.received && e.whitelist == a.whitelist
  }

  ghost predicate SameButInitializer(a: System, e: System) {
    && e.listener == a.listener && e.reconciler == a.reconciler && e.pruner == a.pruner
    && e.received == a.received && e.whitelist == a.whitelist
  }

  ghost predicate SameButReconciler(a: System, e: System) {
    && e.listener == a.listener && e.initializer == a.initializer && e.pruner == a.pruner
    && e.received == a.received && e.whitelist == a.whitelist
  }

  ghost predicate SameButPruner(a: System, e: System) {
    && e.listener == a.listener && e.initializer == a.initializer && e.reconciler == a.reconciler
    && e.received == a.received && e.whitelist == a.whitelist
  }

  // ---- where each section leaves the machine once the lock is free again ----

  lemma BlockEnds(a: System, updateIDs: map<Address, uint64>, discoverIDs: map<Address, uint64>, blocked: set<Address>)
    requires a.lock == Unlocked && a.listener.Parsed?
    ensures var steps := [ApplyBlock(updateIDs, discoverIDs, blocked), StoreLast, Release];
            ValidRun(a, steps) &&
            var e := Exec(a, steps);
            && e.rows == e.view == ApplyBatch(a.rows, a.listener.updates, updateIDs) && e.lock == Unlocked
            && e.pending == a.pending + NewlyQueued(a, a.listener.discovered, blocked, discoverIDs.Keys)
            && e.last == a.listener.number && e.listener == Listening && SameButListener(a, e)
  {
    ThreeSteps(a, ApplyBlock(updateIDs, discoverIDs, blocked), StoreLast, Release);
  }

  lemma QueueGrowth(a: System, discovered: seq<Address>, blocked: set<Address>, known: set<Address>)
    ensures a.pending + Queueable(discovered, blocked, known) == a.pending + NewlyQueued(a, discovered, blocked, known)
    ensures |a.pending + NewlyQueued(a, discovered, blocked, known)|
         == |a.pending| + |NewlyQueued(a, discovered, blocked, known)|
  {
  }

  lemma InitEnds(a: System, reg: Registration, env: Lookups)
    requires Enabled(a, ApplyInits(reg, env))
    ensures var steps := [ApplyInits(reg, env), Release];
            ValidRun(a, steps) &&
            var e, items := Exec(a, steps), ReadyItems(a);
            && e.lock == Unlocked && e.rows == After(a.rows, items, reg, env, |items|)
            && e.view == (if Successes(a.rows, items, reg, env, |items|) > 0 then e.rows else a.view)
            && e.pending == a.pending && e.last == a.last
            && e.initializer == NoBatch && SameButInitializer(a, e)
  {
    TwoSteps(a, ApplyInits(reg, env), Release);
  }

  lemma ReconcileEnds(a: System)
    requires Enabled(a, Overwrite)
    ensures ValidRun(a, [Overwrite, Release]) &&
            var e, r := Exec(a, [Overwrite, Release]), a.reconciler;
            && e.lock == Unlocked && e.rows == e.view == ApplyChanges(a.rows, Select(r.prev, r.cur, r.ids, r.fetched))
            && e.pending == a.pending && e.last == a.last
            && e.reconciler == Resting && SameButReconciler(a, e)
  {
    TwoSteps(a, Overwrite, Release);
  }

  /** The IDs a deletion step names, the pruner's or a caller's. */
  ghost predicate Deletes(a: System, step: Step, ids: seq<uint64>) {
    match step
    case Prune => a.pruner.Selected? && ids == BlockedIds(a.pruner.snapshot, a.pruner.addressOf, a.pruner.blocked)
    case DeleteOne(id) => ids == [id]
    case DeleteMany(listed) => ids == listed
    case _ => false
  }

  lemma DeletionEnds(a: System, step: Step, ids: seq<uint64>)
    requires Enabled(a, step) && Deletes(a, step, ids)
    ensures ValidRun(a, [step, Release]) &&
            var e := Exec(a, [step, Release]);
            && e.lock == Unlocked && e.rows == DeleteAll(a.rows, ids)
            && e.view == (if false in DeleteErrors(a.rows, ids) then e.rows else a.view)
            && e.pending == a.pending && e.last == a.last
            && e.pruner == (if step.Prune? then Quiet else a.pruner) && SameButPruner(a, e)
  {
    TwoSteps(a, step, Release);
  }

  lemma DeleteSingle(t: Table, id: uint64)
    ensures DeleteAll(t, [id]) == Delete(t, id)
    ensures DeleteErrors(t, [id]) == [!Has(t, id)]
  {
    assert [id][..0] == [];
    assert DeleteAll(t, []) == t && DeleteErrors(t, []) == [];
  }

  // ---- the critical sections ----

  /** The block step's critical section, on the heap and in the machine. */
  method BlockSection(s: UniswapV2System, ghost a: System, pools: seq<Address>, r0s: seq<BigInt>, r1s: seq<BigInt>,
                      updateIDs: map<Address, uint64>, discoverIDs: map<Address, uint64>, blocked: set<Address>,
                      number: uint64, discovered: seq<Address>, ghost logs: seq<Log>, ghost foreign: set<BigInt>)
    returns (added: nat)
    requires Matches(s, a) && foreign !! s.registry.Objects()
    requires |pools| == |r0s| == |r1s| && Elements(r0s, r1s) <= foreign
    requires a.listener == Parsed(number, logs, Zip(pools, r0s, r1s), discovered)
    modifies s, s.registry.Objects()
    ensures var steps := [ApplyBlock(updateIDs, discoverIDs, blocked), StoreLast, Release];
            ValidRun(a, steps) && Matches(s, Exec(a, steps))
    ensures added == |NewlyQueued(a, discovered, blocked, discoverIDs.Keys)|
    ensures foreign !! s.registry.Objects() && forall o :: o in foreign ==> o.value == old(o.value)
    ensures s.registry.Objects() == old(s.registry.Objects())
  {
    added := s.HandleBlock(number, pools, r0s, r1s, discovered, blocked, updateIDs, discoverIDs);
    BlockEnds(a, updateIDs, discoverIDs, blocked);
    QueueGrowth(a, discovered, blocked, discoverIDs.Keys);
  }

  /** The parsers on the heap: the machine's parse step, in some order its map iteration allows. */
  method ParseSection(s: UniswapV2System, ghost a: System, number: uint64, logs: seq<Log>)
    returns (pools: seq<Address>, r0s: seq<BigInt>, r1s: seq<BigInt>, found: seq<Address>)
    requires Matches(s, a) && Next(a, number)
    ensures |pools| == |r0s| == |r1s|
    ensures forall i :: 0 <= i < |pools| ==> fresh(r0s[i]) && fresh(r1s[i])
    ensures IsUpdateBatch(logs, Zip(pools, r0s, r1s)) && IsDiscovery(logs, found)
    ensures Enabled(a, Parse(number, logs, Zip(pools, r0s, r1s), found))
    ensures Matches(s, Do(a, Parse(number, logs, Zip(pools, r0s, r1s), found)))
  {
    pools, r0s, r1s := UpdatedInBlock(logs);
    found := DiscoverPools(logs);
  }

  /** A whole block, from its logs: the parsers' results go straight through the critical section. */
  method BlockFromLogs(s: UniswapV2System, ghost a: System, number: uint64, logs: seq<Log>,
                       updateIDs: map<Address, uint64>, discoverIDs: map<Address, uint64>, blocked: set<Address>,
                       ghost foreign: set<BigInt>)
    returns (added: nat, ghost updates: seq<Sync>, ghost discovered: seq<Address>)
    requires Matches(s, a) && Next(a, number) && foreign !! s.registry.Objects()
    modifies s, s.registry.Objects()
    ensures IsUpdateBatch(logs, updates) && IsDiscovery(logs, discovered)
    ensures var steps := [Parse(number, logs, updates, discovered)]
                       + [ApplyBlock(updateIDs, discoverIDs, blocked), StoreLast, Release];
            ValidRun(a, steps) && Matches(s, Exec(a, steps))
    ensures added == |NewlyQueued(a, discovered, blocked, discoverIDs.Keys)|
    ensures foreign !! s.registry.Objects() && forall o :: o in foreign ==> o.value == old(o.value)
    ensures s.registry.Objects() == old(s.registry.Objects())
  {
    var pools, r0s, r1s, found := ParseSection(s, a, number, logs);
    updates, discovered := Zip(pools, r0s, r1s), found;
    ghost var parsed := Do(a, Parse(number, logs, updates, discovered));
    added := BlockSection(s, parsed, pools, r0s, r1s, updateIDs, discoverIDs, blocked, number, found, logs,
                          Elements(r0s, r1s));
    Prepend(a, Parse(number, logs, updates, discovered),
            [ApplyBlock(updateIDs, discoverIDs, blocked), StoreLast, Release]);
  }

  /** A block the bloom test rules out stores its number and takes no lock. */
  method SkipSection(s: UniswapV2System, ghost a: System, number: uint64)
    requires Matches(s, a) && Next(a, number)
    modifies s`lastUpdatedAtBlock
    ensures Enabled(a, Skip(number)) && Matches(s, Do(a, Skip(number)))
  {
    s.SkipBlock(number);
  }

  /** The initializer's first critical section. */
  method DrainSection(s: UniswapV2System, ghost a: System) returns (batch: seq<Address>)
    requires Matches(s, a) && a.initializer == NoBatch && a.pending != {}
    modifies s`pendingInit
    ensures Enabled(a, Drain(batch)) && Matches(s, Do(a, Drain(batch)))
    ensures Do(a, Drain(batch)).initializer == Drained(batch)
  {
    batch := s.Drain();
  }

  /** The initializer's second critical section, under the registrar's contract. */
  method InitSection(s: UniswapV2System, ghost a: System, pools: seq<Address>, res: InitResults,
                     register: seq<AddRequest> -> Registration, env: Lookups,
                     ghost slots: seq<InitSlot>, ghost reg: Registration, ghost foreign: set<BigInt>)
    returns (errs: seq<Error>)
    requires Matches(s, a) && a.initializer.Returned? && a.initializer.batch == pools
    requires |a.initializer.inputs| == |pools| && slots == InitAll(a.whitelist, a.initializer.inputs)
    requires res.Covers(|pools|) && Tells(res, slots)
    requires reg == register(Requests(ReadyItems(a))) && Honest(ReadyItems(a), reg, env)
    requires foreign !! s.registry.Objects() && res.DrawnFrom(foreign)
    modifies s`cachedView, s.registry, s.registry.Objects()
    ensures ValidRun(a, [ApplyInits(reg, env), Release]) && Matches(s, Exec(a, [ApplyInits(reg, env), Release]))
    ensures errs == InitErrors(a, reg, env)
    ensures foreign !! s.registry.Objects() && forall o :: o in foreign ==> o.value == old(o.value)
    ensures forall o :: o in s.registry.Objects() ==> o in old(s.registry.Objects()) || fresh(o)
  {
    AllUsable(a.whitelist, a.initializer.inputs);
    UsableItems(pools, slots);
    InitEnds(a, reg, env);
    errs := s.FinishInitializations(pools, res, register, env, slots, foreign);
  }

  /** The reconciler's critical section. */
  method OverwriteSection(s: UniswapV2System, ghost a: System, changes: seq<PendingChange>, ghost values: seq<Change>,
                          ghost foreign: set<BigInt>)
    returns (gone: seq<uint64>)
    requires Matches(s, a) && Enabled(a, Overwrite) && |changes| == |values| > 0
    requires values == Select(a.reconciler.prev, a.reconciler.cur, a.reconciler.ids, a.reconciler.fetched)
    requires forall j :: 0 <= j < |changes| ==> ChangeOf(changes[j]) == values[j]
    requires foreign !! s.registry.Objects()
    requires forall j :: 0 <= j < |changes| ==> changes[j].reserve0 in foreign && changes[j].reserve1 in foreign
    modifies s`cachedView, s.registry.Objects()
    ensures ValidRun(a, [Overwrite, Release]) && Matches(s, Exec(a, [Overwrite, Release]))
    ensures gone == Missing(a.rows, values)
    ensures foreign !! s.registry.Objects() && forall o :: o in foreign ==> o.value == old(o.value)
    ensures s.registry.Objects() == old(s.registry.Objects())
  {
    gone := s.ApplyReconciliation(changes, values);
    ReconcileEnds(a);
  }

  /** A caller's single deletion. */
  method DeleteSection(s: UniswapV2System, ghost a: System, id: uint64, ghost foreign: set<BigInt>) returns (ok: bool)
    requires Matches(s, a) && foreign !! s.registry.Objects()
    modifies s`cachedView, s.registry
    ensures ValidRun(a, [DeleteOne(id), Release]) && Matches(s, Exec(a, [DeleteOne(id), Release]))
    ensures ok == Has(a.rows, id)
    ensures foreign !! s.registry.Objects() && forall o :: o in foreign ==> o.value == old(o.value)
    ensures s.registry.Objects() <= old(s.registry.Objects())
  {
    DeletionEnds(a, DeleteOne(id), [id]);
    DeleteSingle(a.rows, id);
    ok := s.DeletePool(id);
  }

  /** Both a caller's batch deletion and the pruner's, which names the pools it selected. */
  method DeleteManySection(s: UniswapV2System, ghost a: System, ids: seq<uint64>, ghost step: Step,
                           ghost foreign: set<BigInt>)
    returns (errs: Option<seq<bool>>)
    requires Matches(s, a) && Enabled(a, step) && Deletes(a, step, ids) && foreign !! s.registry.Objects()
    modifies s`cachedView, s.registry
    ensures ValidRun(a, [step, Release]) && Matches(s, Exec(a, [step, Release]))
    ensures errs == DeletionReply(a.rows, ids)
    ensures foreign !! s.registry.Objects() && forall o :: o in foreign ==> o.value == old(o.value)
    ensures s.registry.Objects() <= old(s.registry.Objects())
  {
    DeletionEnds(a, step, ids);
    errs := s.DeletePools(ids);
  }

  // ---- the unlocked parts that read the published view ----

  /** The first snapshot: the fetch batch is the one the state machine's step names. */
  method FirstSnapshotSection(s: UniswapV2System, ghost a: System, addressOf: map<uint64, Address>)
    returns (prev: seq<PoolView>, poolIDs: seq<uint64>, poolAddrs: seq<Address>)
    requires Matches(s, a) && Enabled(a, FirstSnapshot(addressOf))
    ensures prev == s.cachedView
    ensures Do(a, FirstSnapshot(addressOf)).reconciler == Snapped(a.view, poolIDs)
    ensures Reads(prev, a.view) && ListedIn(poolIDs, prev) && |poolAddrs| == |poolIDs|
    ensures forall k :: 0 <= k < |poolIDs| ==> poolIDs[k] in addressOf && poolAddrs[k] == addressOf[poolIDs[k]]
  {
    prev := s.View();
    poolIDs, poolAddrs := s.ResolveAddresses(prev, addressOf, a.view);
    forall k | 0 <= k < |poolIDs| ensures exists j :: 0 <= j < |prev| && prev[j].id == poolIDs[k]
    {
      ResolvableExact(a.view, addressOf, poolIDs[k]);
      var j :| 0 <= j < |a.view| && a.view[j].id == poolIDs[k];
      assert prev[j].id == poolIDs[k];
    }
  }

  /** The second snapshot and the comparison: what is chosen is what the state machine's step chooses. */
  method SecondSnapshotSection(s: UniswapV2System, ghost a: System, prev: seq<PoolView>, poolIDs: seq<uint64>,
                               r0s: seq<BigInt?>, r1s: seq<BigInt?>, failed: seq<bool>, ghost slots: seq<FetchSlot>)
    returns (changes: seq<PendingChange>)
    requires Matches(s, a) && Enabled(a, SecondSnapshot(slots)) && Distinct(a.view)
    requires a.reconciler.ids == poolIDs && Reads(prev, a.reconciler.prev) && Distinct(a.reconciler.prev)
    requires |poolIDs| == |r0s| == |r1s| == |failed|
    requires forall k :: 0 <= k < |slots| ==> slots[k] == FetchSlot(Value(r0s[k]), Value(r1s[k]), failed[k])
    requires forall k :: 0 <= k < |slots| && !failed[k] && Has(a.view, poolIDs[k]) ==> r0s[k] != null && r1s[k] != null
    requires ListedIn(poolIDs, prev)
    ensures var values := Select(a.reconciler.prev, a.view, poolIDs, slots);
            && |changes| == |values| && (forall j :: 0 <= j < |changes| ==> ChangeOf(changes[j]) == values[j])
            && Do(a, SecondSnapshot(slots)).reconciler
               == if changes == [] then Resting else Chosen(a.reconciler.prev, a.view, poolIDs, slots)
    ensures forall j :: 0 <= j < |changes| ==> changes[j].reserve0 in r0s && changes[j].reserve1 in r1s
  {
    changes := s.ChooseChanges(prev, poolIDs, r0s, r1s, failed, a.reconciler.prev, a.view, slots);
  }

  /** The pruner's selection is the state machine's. */
  method SelectBlockedSection(s: UniswapV2System, ghost a: System, addressOf: map<uint64, Address>,
                              blocked: set<Address>)
    returns (poolIDs: seq<uint64>)
    requires Matches(s, a) && Enabled(a, SelectBlocked(addressOf, blocked))
    ensures poolIDs == BlockedIds(a.view, addressOf, blocked)
    ensures Do(a, SelectBlocked(addressOf, blocked)).pruner
         == if poolIDs == [] then Quiet else Selected(a.view, addressOf, blocked)
  {
    var view := s.View();
    poolIDs := s.SelectBlocked(view, addressOf, blocked, a.view);
  }
}
