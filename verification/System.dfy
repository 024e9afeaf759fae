/** The orchestrator's critical sections and selection loops, as methods over the shared state. */
module Systems {
  import opened Deletions
  import opened Initializations
  import opened Initializer
  import opened Logs
  import opened Reconciliation
  import opened Registries
  import opened Reserves
  import opened Slices
  import opened Tables
  import opened Types
  import opened Updates

  /** The discovered addresses that a block step queues: not blocked, and not yet known to the registrar. */
  ghost function Queueable(discovered: seq<Address>, blocked: set<Address>, known: set<Address>): set<Address> {
    set a | a in discovered && a !in blocked && a !in known
  }

  /**
   The seven slices an initializer call returns. Only the error slice has to cover the batch: the other
   six are read nowhere but at the indices whose error is nil.
   */
  datatype InitResults = InitResults(token0s: seq<Address>, token1s: seq<Address>,
                                     poolTypes: seq<uint8>, fees: seq<uint16>,
                                     reserve0s: seq<BigInt?>, reserve1s: seq<BigInt?>, errs: seq<Option<InitError>>)
  {
    predicate Filled(i: nat) {
      && i < |token0s| && i < |token1s| && i < |poolTypes| && i < |fees|
      && i < |reserve0s| && i < |reserve1s|
    }

    predicate Covers(n: nat) {
      n <= |errs| && forall i :: 0 <= i < n && errs[i].None? ==> Filled(i)
    }

    /** The reserve numbers are among these. */
    ghost predicate DrawnFrom(foreign: set<BigInt>) {
      && (forall i :: 0 <= i < |reserve0s| && reserve0s[i] != null ==> reserve0s[i] in foreign)
      && (forall i :: 0 <= i < |reserve1s| && reserve1s[i] != null ==> reserve1s[i] in foreign)
    }
  }

  ghost function Value(o: BigInt?): Option<int>
    reads o
  {
    if o == null then None else Some(o.value)
  }

  /** What the slices say of one pool; where there is an error nothing else is looked at. */
  ghost function SlotAt(res: InitResults, i: nat): InitSlot
    requires i < |res.errs| && (res.errs[i].None? ==> res.Filled(i))
    reads if res.errs[i].None? then {res.reserve0s[i], res.reserve1s[i]} else {}
  {
    if res.errs[i].Some? then EMPTY_INIT.(err := res.errs[i])
    else
      InitSlot(res.token0s[i], res.token1s[i], res.poolTypes[i], res.fees[i],
               Value(res.reserve0s[i]), Value(res.reserve1s[i]), None)
  }

  /** The slots of a batch of `n` pools. */
  ghost predicate Tells(res: InitResults, slots: seq<InitSlot>)
    requires res.Covers(|slots|)
    reads Elements(res.reserve0s, res.reserve1s)
  {
    forall i :: 0 <= i < |slots| ==> slots[i] == SlotAt(res, i)
  }

  /** A pool that passed the filter, its reserve numbers still the initializer's own. */
  datatype ReadyPool = ReadyPool(request: AddRequest, reserve0: BigInt?, reserve1: BigInt?)
  {
    /** Its reserve numbers, if any, are among these. */
    ghost predicate DrawnFrom(foreign: set<BigInt>) {
      (reserve0 != null ==> reserve0 in foreign) && (reserve1 != null ==> reserve1 in foreign)
    }
  }

  ghost function ItemOf(p: ReadyPool): Item
    reads p.reserve0, p.reserve1
  {
    Item(p.request, Value(p.reserve0), Value(p.reserve1))
  }

  /** An entry of the reconciler's update list, its reserves still the fetcher's own. */
  datatype PendingChange = PendingChange(id: uint64, reserve0: BigInt, reserve1: BigInt)

  ghost function ChangeOf(c: PendingChange): Change
    reads c.reserve0, c.reserve1
  {
    Change(c.id, c.reserve0.value, c.reserve1.value)
  }

  /** The values of a published slice, record by record. */
  ghost predicate Reads(view: seq<PoolView>, rows: Table)
    reads ViewObjects(view)
  {
    |rows| == |view| && forall k :: 0 <= k < |view| ==> rows[k] == ViewRow(view[k])
  }

  /** Every listed ID is that of a record. */
  ghost predicate ListedIn(poolIDs: seq<uint64>, view: seq<PoolView>) {
    forall k :: 0 <= k < |poolIDs| ==> exists j :: 0 <= j < |view| && view[j].id == poolIDs[k]
  }

  /** In a snapshot with distinct IDs, the map built from it answers as the snapshot does. */
  lemma IndexedView(view: seq<PoolView>, rows: Table, byID: map<uint64, PoolView>)
    requires Reads(view, rows) && Distinct(rows)
    requires forall id :: id in byID <==> exists k :: 0 <= k < |view| && view[k].id == id
    requires forall id :: id in byID ==> byID[id] in view && byID[id].id == id
    ensures forall id :: if id in byID then Get(rows, id) == Some(ViewRow(byID[id])) else !Has(rows, id)
  {
    forall id ensures if id in byID then Get(rows, id) == Some(ViewRow(byID[id])) else !Has(rows, id)
    {
      if id in byID {
        var k :| 0 <= k < |view| && view[k] == byID[id];
        FindUnique(rows, k);
      }
      assert Has(rows, id) ==> rows[Find(rows, id)] == ViewRow(view[Find(rows, id)]);
    }
  }

  /** The pending changes have these values, and their reserve numbers are among the given ones. */
  ghost predicate StandFor(changes: seq<PendingChange>, values: seq<Change>, from0: set<BigInt?>, from1: set<BigInt?>)
    reads from0, from1
  {
    && |changes| == |values|
    && forall j :: 0 <= j < |changes| ==>
         changes[j].reserve0 in from0 && changes[j].reserve1 in from1 && ChangeOf(changes[j]) == values[j]
  }

  lemma StandForMore(changes: seq<PendingChange>, values: seq<Change>, c: PendingChange,
                     from0: set<BigInt?>, from1: set<BigInt?>)
    requires StandFor(changes, values, from0, from1) && c.reserve0 in from0 && c.reserve1 in from1
    ensures StandFor(changes + [c], values + [ChangeOf(c)], from0, from1)
  {
  }

  function Requests(items: seq<Item>): seq<AddRequest> {
    seq(|items|, i requires 0 <= i < |items| => items[i].request)
  }

  /**
   The registrar is handed one request for each index whose error is nil, in batch order, with the batch's
   address and the four values at that index.
   */
  lemma HandedOver(pools: seq<Address>, res: InitResults, slots: seq<InitSlot>) returns (at: seq<nat>)
    requires res.Covers(|pools|) && |slots| == |pools| && Tells(res, slots)
    ensures Positions(at, |pools|, set i: nat | i < |pools| && res.errs[i].None?)
    ensures |Requests(Ready(pools, slots))| == |at|
    ensures forall k :: 0 <= k < |at| ==>
      && res.Filled(at[k])
      && Requests(Ready(pools, slots))[k]
         == AddRequest(res.token0s[at[k]], res.token1s[at[k]], pools[at[k]], res.poolTypes[at[k]], res.fees[at[k]])
      && Ready(pools, slots)[k].reserve0 == Value(res.reserve0s[at[k]])
      && Ready(pools, slots)[k].reserve1 == Value(res.reserve1s[at[k]])
  {
    assert forall i :: 0 <= i < |pools| ==> slots[i] == SlotAt(res, i) && slots[i].err == res.errs[i];
    at := ReadyExact(pools, slots);
    assert NilErrors(slots) == set i: nat | i < |pools| && res.errs[i].None?;
  }

  class UniswapV2System {
    const registry: Registry
    var cachedView: seq<PoolView>
    var pendingInit: set<Address>
    var lastUpdatedAtBlock: uint64

    /** The registry is well formed and shares no reserve number with the published view. */
    ghost predicate Valid()
      reads this, registry
    {
      registry.Valid() && ViewObjects(cachedView) !! registry.Objects()
    }

    ghost function Rows(): Table
      requires Valid()
      reads this, registry, registry.Objects()
    {
      registry.Rows()
    }

    ghost function Published(): Table
      reads this, ViewObjects(cachedView)
    {
      ViewRows(cachedView)
    }

    /** Starts on an empty or restored registry and publishes its view. */
    constructor (registry: Registry)
      requires registry.Valid()
      ensures this.registry == registry && Valid() && Published() == registry.Rows()
      ensures pendingInit == {} && lastUpdatedAtBlock == 0
    {
      this.registry := registry;
      pendingInit, lastUpdatedAtBlock := {}, 0;
      new;
      cachedView := registry.View();
    }

    /** A copy of the published slice; the reserve numbers are shared, not copied. */
    method View() returns (view: seq<PoolView>)
      ensures view == cachedView
    {
      view := cachedView;
    }

    method UpdateCachedView()
      requires Valid()
      modifies this`cachedView
      ensures Valid() && Published() == Rows() && fresh(ViewObjects(cachedView))
    {
      cachedView := registry.View();
    }

    /** Overwrites a pool's reserves with numbers the registry does not own. */
    method UpdateForeign(poolID: uint64, r0: BigInt?, r1: BigInt?) returns (ok: bool)
      requires Valid() && r1 !in registry.Objects()
      requires Has(Rows(), poolID) ==> r0 != null && r1 != null
      modifies registry.Objects()
      ensures Valid() && ok == Has(old(Rows()), poolID)
      ensures Rows() == Update(old(Rows()), poolID, Number(old(Value(r0))), Number(old(Value(r1))))
    {
      ok := registry.UpdatePool(r0, r1, poolID);
    }

    /** The body of the update loop: an unknown or foreign pool is skipped. */
    method ApplyUpdate(pool: Address, r0: BigInt, r1: BigInt, poolIDs: map<Address, uint64>) returns (ok: bool)
      requires Valid() && r1 !in registry.Objects()
      modifies registry.Objects()
      ensures Valid() && ok
      ensures Rows() == ApplySync(old(Rows()), Sync(pool, old(r0.value), old(r1.value)), poolIDs)
    {
      if pool !in poolIDs {
        return true;
      }
      var poolID := poolIDs[pool];
      var known := registry.HasPool(poolID);
      if !known {
        return true;
      }
      ok := UpdateForeign(poolID, r0, r1);
    }

    /** Runs under the lock. Reports no error: each pool is looked for before it is updated. */
    method ApplyUpdates(pools: seq<Address>, r0s: seq<BigInt>, r1s: seq<BigInt>, poolIDs: map<Address, uint64>)
      returns (errs: seq<Address>)
      requires Valid() && |pools| == |r0s| == |r1s|
      requires Elements(r0s, r1s) !! registry.Objects()
      modifies registry.Objects()
      ensures Valid() && errs == []
      ensures Rows() == ApplyBatch(old(Rows()), old(Zip(pools, r0s, r1s)), poolIDs)
    {
      errs := [];
      ghost var batch, foreign, before := Zip(pools, r0s, r1s), Elements(r0s, r1s), Rows();
      for i := 0 to |pools|
        invariant Valid() && errs == []
        invariant forall o :: o in foreign ==> o.value == old(o.value)
        invariant Rows() == ApplyBatch(before, batch[..i], poolIDs)
      {
        var pool := pools[i];
        assert r0s[i] in foreign && r1s[i] in foreign && batch[i] == Sync(pool, r0s[i].value, r1s[i].value);
        var ok := ApplyNext(pool, r0s[i], r1s[i], poolIDs, before, batch, i);
        if !ok {
          errs := errs + [pool];
        }
      }
      assert batch[..|pools|] == batch;
    }

    /** One round of that loop, in terms of the batch. */
    method ApplyNext(pool: Address, r0: BigInt, r1: BigInt, poolIDs: map<Address, uint64>,
                     ghost before: Table, ghost batch: seq<Sync>, ghost i: nat)
      returns (ok: bool)
      requires Valid() && r1 !in registry.Objects()
      requires i < |batch| && batch[i] == Sync(pool, r0.value, r1.value)
      requires Rows() == ApplyBatch(before, batch[..i], poolIDs)
      modifies registry.Objects()
      ensures Valid() && ok && Rows() == ApplyBatch(before, batch[..i + 1], poolIDs)
    {
      assert batch[..i + 1][..i] == batch[..i];
      ok := ApplyUpdate(pool, r0, r1, poolIDs);
    }

    /** Runs under the lock: queues each discovered pool at most once. */
    method QueueDiscovered(discovered: seq<Address>, blocked: set<Address>, poolIDs: map<Address, uint64>)
      returns (added: nat)
      modifies this`pendingInit
      ensures pendingInit == old(pendingInit) + Queueable(discovered, blocked, poolIDs.Keys)
      ensures forall a :: a in pendingInit <==>
        a in old(pendingInit) || (a in discovered && a !in blocked && a !in poolIDs)
      ensures added == |pendingInit| - |old(pendingInit)|
    {
      added := 0;
      for i := 0 to |discovered|
        invariant pendingInit == old(pendingInit) + Queueable(discovered[..i], blocked, poolIDs.Keys)
        invariant added == |pendingInit| - |old(pendingInit)|
      {
        var pool := discovered[i];
        assert discovered[..i + 1] == discovered[..i] + [pool];
        if pool in blocked {
          continue;
        }
        if pool in poolIDs {
          continue;
        }
        if pool !in pendingInit {
          pendingInit := pendingInit + {pool};
          added := added + 1;
        }
      }
      assert discovered[..|discovered|] == discovered;
    }

    /**
     The block step's critical section. The registrar may learn of pools between its two uses, so
     each has its own answers.
     */
    method HandleBlock(blockNumber: uint64, pools: seq<Address>, r0s: seq<BigInt>, r1s: seq<BigInt>,
                       discovered: seq<Address>, blocked: set<Address>,
                       updateIDs: map<Address, uint64>, discoverIDs: map<Address, uint64>)
      returns (added: nat)
      requires Valid() && |pools| == |r0s| == |r1s|
      requires Elements(r0s, r1s) !! registry.Objects()
      modifies this, registry.Objects()
      ensures Valid() && Published() == Rows() && fresh(ViewObjects(cachedView))
      ensures Rows() == ApplyBatch(old(Rows()), old(Zip(pools, r0s, r1s)), updateIDs)
      ensures pendingInit == old(pendingInit) + Queueable(discovered, blocked, discoverIDs.Keys)
      ensures forall a :: a in pendingInit <==>
        a in old(pendingInit) || (a in discovered && a !in blocked && a !in discoverIDs)
      ensures added == |pendingInit| - |old(pendingInit)|
      ensures lastUpdatedAtBlock == blockNumber
    {
      var errs := ApplyUpdates(pools, r0s, r1s, updateIDs);
      added := QueueDiscovered(discovered, blocked, discoverIDs);
      lastUpdatedAtBlock := blockNumber;
      UpdateCachedView();
    }

    /** The listener's answer to a block the bloom test rules out. */
    method SkipBlock(blockNumber: uint64)
      modifies this`lastUpdatedAtBlock
      ensures lastUpdatedAtBlock == blockNumber
    {
      lastUpdatedAtBlock := blockNumber;
    }

    /** Empties the queue into a list, in whatever order the map iterates. */
    method Drain() returns (batch: seq<Address>)
      modifies this`pendingInit
      ensures pendingInit == {} && multiset(batch) == multiset(old(pendingInit))
    {
      batch := [];
      var rest := pendingInit;
      while rest != {}
        invariant multiset(batch) + multiset(rest) == multiset(pendingInit)
        decreases rest
      {
        var pool :| pool in rest;
        batch, rest := batch + [pool], rest - {pool};
      }
      pendingInit := {};
    }

    // ---- deletion ----

    method DeletePool(poolID: uint64) returns (ok: bool)
      requires Valid()
      modifies this`cachedView, registry
      ensures Valid() && ok == Has(old(Rows()), poolID) && registry.Objects() <= old(registry.Objects())
      ensures Rows() == Delete(old(Rows()), poolID)
      ensures if ok then Published() == Rows() && fresh(ViewObjects(cachedView)) else cachedView == old(cachedView)
    {
      ok := registry.DeletePool(poolID);
      if ok {
        UpdateCachedView();
      }
    }

    /** The deletion loop: one error flag per entry, in order. */
    method DeleteEach(poolIDs: seq<uint64>) returns (errs: seq<bool>)
      requires Valid()
      modifies registry
      ensures Valid() && Rows() == DeleteAll(old(Rows()), poolIDs) && registry.Objects() <= old(registry.Objects())
      ensures errs == DeleteErrors(old(Rows()), poolIDs)
    {
      errs := [];
      ghost var before := Rows();
      for i := 0 to |poolIDs|
        invariant Valid() && Rows() == DeleteAll(before, poolIDs[..i]) && registry.Objects() <= old(registry.Objects())
        invariant errs == DeleteErrors(before, poolIDs[..i])
      {
        assert poolIDs[..i + 1][..i] == poolIDs[..i];
        var ok := DeleteNext(poolIDs[i]);
        errs := errs + [!ok];
      }
      assert poolIDs[..|poolIDs|] == poolIDs;
    }

    /** One deletion, the view left alone. */
    method DeleteNext(poolID: uint64) returns (ok: bool)
      requires Valid()
      modifies registry
      ensures Valid() && ok == Has(old(Rows()), poolID) && registry.Objects() <= old(registry.Objects())
      ensures Rows() == Delete(old(Rows()), poolID)
    {
      ok := registry.DeletePool(poolID);
    }

    /** Nil exactly when every entry succeeded; otherwise one flag per entry. */
    method DeletePools(poolIDs: seq<uint64>) returns (errs: Option<seq<bool>>)
      requires Valid()
      modifies this`cachedView, registry
      ensures Valid() && Rows() == DeleteAll(old(Rows()), poolIDs) && registry.Objects() <= old(registry.Objects())
      ensures errs == DeletionReply(old(Rows()), poolIDs)
      ensures if false in DeleteErrors(old(Rows()), poolIDs)
              then Published() == Rows() && fresh(ViewObjects(cachedView))
              else cachedView == old(cachedView) && Rows() == old(Rows())
    {
      var flags := DeleteEach(poolIDs);
      var hasChanged, hasErrors := false in flags, true in flags;
      if hasChanged {
        UpdateCachedView();
      } else {
        AllFailedUnchanged(old(Rows()), poolIDs);
      }
      errs := if hasErrors then Some(flags) else None;
    }

    // ---- initialization ----

    /** Drops the pools whose initializer results carry an error. */
    method FilterReady(pools: seq<Address>, res: InitResults, ghost slots: seq<InitSlot>)
      returns (ready: seq<ReadyPool>, errs: seq<Error>)
      requires res.Covers(|pools|) && |slots| == |pools| && Tells(res, slots)
      ensures |ready| == |Ready(pools, slots)| && errs == InitFailures(pools, slots)
      ensures forall j :: 0 <= j < |ready| ==> ItemOf(ready[j]) == Ready(pools, slots)[j]
      ensures forall j :: 0 <= j < |ready| ==> ready[j].reserve0 in res.reserve0s && ready[j].reserve1 in res.reserve1s
    {
      ready, errs := [], [];
      for i := 0 to |pools|
        invariant |ready| == |Ready(pools[..i], slots[..i])| && errs == InitFailures(pools[..i], slots[..i])
        invariant forall j :: 0 <= j < |ready| ==> ItemOf(ready[j]) == Ready(pools[..i], slots[..i])[j]
        invariant forall j :: 0 <= j < |ready| ==>
          ready[j].reserve0 in res.reserve0s && ready[j].reserve1 in res.reserve1s
      {
        assert pools[..i + 1][..i] == pools[..i] && slots[..i + 1][..i] == slots[..i];
        assert slots[i] == SlotAt(res, i);
        if res.errs[i].Some? {
          errs := errs + [InitializationFailed(pools[i])];
          continue;
        }
        ready := ready + [ReadyPool(AddRequest(res.token0s[i], res.token1s[i], pools[i], res.poolTypes[i], res.fees[i]),
                                    res.reserve0s[i], res.reserve1s[i])];
      }
      assert pools[..|pools|] == pools && slots[..|pools|] == slots;
    }

    /** The body of the add loop: adds a registered pool, then sets its reserves under the registrar's ID. */
    method AddRegistered(pool: ReadyPool, newID: uint64, failed: bool, env: Lookups, ghost foreign: set<BigInt>)
      returns (outcome: Outcome)
      requires Valid() && foreign !! registry.Objects() && pool.DrawnFrom(foreign)
      requires AddOne(Rows(), ItemOf(pool), newID, failed, env).1 == ReservesSet ==>
        pool.reserve0 != null && pool.reserve1 != null
      modifies registry, registry.Objects()
      ensures Valid() && foreign !! registry.Objects()
      ensures forall o :: o in registry.Objects() ==> o in old(registry.Objects()) || fresh(o)
      ensures (Rows(), outcome) == AddOne(old(Rows()), old(ItemOf(pool)), newID, failed, env)
    {
      if failed {
        return NotRegistered;
      }
      var err := registry.AddPool(pool.request, env.tokenIDs, env.poolIDs);
      if err != Added {
        return Rejected(err);
      }
      var ok := UpdateForeign(newID, pool.reserve0, pool.reserve1);
      outcome := if ok then ReservesSet else ReservesUnset;
    }

    /** The second loop: adds every pool whose registration succeeded. */
    method AddAllRegistered(ready: seq<ReadyPool>, reg: Registration, env: Lookups,
                            ghost items: seq<Item>, ghost foreign: set<BigInt>)
      returns (errs: seq<Error>)
      requires Valid() && Answers(reg, items) && |ready| == |items| && NilFree(Rows(), items, reg, env)
      requires forall j :: 0 <= j < |ready| ==> ItemOf(ready[j]) == items[j]
      requires foreign !! registry.Objects()
      requires forall j :: 0 <= j < |ready| ==> ready[j].DrawnFrom(foreign)
      modifies registry, registry.Objects()
      ensures Valid() && foreign !! registry.Objects()
      ensures forall o :: o in registry.Objects() ==> o in old(registry.Objects()) || fresh(o)
      ensures Rows() == After(old(Rows()), items, reg, env, |items|)
      ensures errs == AddFailures(old(Rows()), items, reg, env, |items|)
    {
      errs := [];
      ghost var before := Rows();
      for i := 0 to |ready|
        invariant Valid() && foreign !! registry.Objects()
        invariant forall o :: o in registry.Objects() ==> o in old(registry.Objects()) || fresh(o)
        invariant forall j :: 0 <= j < |ready| ==> ItemOf(ready[j]) == items[j]
        invariant Rows() == After(before, items, reg, env, i)
        invariant errs == AddFailures(before, items, reg, env, i)
      {
        var captured := AddNext(ready, reg, env, items, before, i, foreign);
        errs := errs + captured;
      }
    }

    /** One round of that loop, in terms of the batch. */
    method AddNext(ready: seq<ReadyPool>, reg: Registration, env: Lookups, ghost items: seq<Item>, ghost before: Table,
                   i: nat, ghost foreign: set<BigInt>)
      returns (captured: seq<Error>)
      requires Valid() && Answers(reg, items) && i < |ready| == |items| && foreign !! registry.Objects()
      requires forall j :: 0 <= j < |ready| ==> ItemOf(ready[j]) == items[j]
      requires forall j :: 0 <= j < |ready| ==> ready[j].DrawnFrom(foreign)
      requires Rows() == After(before, items, reg, env, i) && NilFree(before, items, reg, env)
      modifies registry, registry.Objects()
      ensures Valid() && foreign !! registry.Objects()
      ensures forall o :: o in registry.Objects() ==> o in old(registry.Objects()) || fresh(o)
      ensures forall j :: 0 <= j < |ready| ==> ItemOf(ready[j]) == items[j]
      ensures Rows() == After(before, items, reg, env, i + 1)
      ensures AddFailures(before, items, reg, env, i) + captured == AddFailures(before, items, reg, env, i + 1)
    {
      assert OutcomeOf(before, items, reg, env, i) == AddOne(Rows(), items[i], reg.Id(i), reg.Failed(i), env).1;
      var outcome := AddRegistered(ready[i], reg.Id(i), reg.Failed(i), env, foreign);
      captured := OutcomeErrors(ready[i].request.pool, outcome);
      assert outcome == OutcomeOf(before, items, reg, env, i);
      AddFailuresNext(before, items, reg, env, i);
    }

    /** The first loop after registration: reports the pools the registrar refused. */
    method CollectRefused(ready: seq<ReadyPool>, reg: Registration, ghost items: seq<Item>) returns (errs: seq<Error>)
      requires Answers(reg, items) && |ready| == |items|
      requires forall j :: 0 <= j < |ready| ==> ItemOf(ready[j]) == items[j]
      ensures errs == RegFailures(items, reg, |items|)
    {
      errs := [];
      for i := 0 to |reg.failed|
        invariant errs == RegFailures(items, reg, if i < |items| then i else |items|)
      {
        if reg.failed[i] {
          errs := errs + [RegistrationFailed(ready[i].request.pool)];
        }
      }
      RegFailuresTail(items, reg, if |reg.failed| < |items| then |reg.failed| else |items|, |items|);
    }

    /** Runs under the lock. `register` is the registrar's batch call. */
    method ApplyInitializations(pools: seq<Address>, res: InitResults, register: seq<AddRequest> -> Registration,
                                env: Lookups, ghost slots: seq<InitSlot>, ghost foreign: set<BigInt>)
      returns (errs: seq<Error>)
      requires Valid() && res.Covers(|pools|) && |slots| == |pools| && Tells(res, slots)
      requires Answers(register(Requests(Ready(pools, slots))), Ready(pools, slots))
      requires NilFree(Rows(), Ready(pools, slots), register(Requests(Ready(pools, slots))), env)
      requires foreign !! registry.Objects() && res.DrawnFrom(foreign)
      modifies registry, registry.Objects()
      ensures Valid() && foreign !! registry.Objects()
      ensures forall o :: o in registry.Objects() ==> o in old(registry.Objects()) || fresh(o)
      ensures var items := Ready(pools, slots);
              var reg := register(Requests(items));
              && Rows() == After(old(Rows()), items, reg, env, |items|)
              && errs == Errors(old(Rows()), pools, slots, reg, env)
    {
      var ready, initErrs := FilterReady(pools, res, slots);
      ghost var items := Ready(pools, slots);
      var addErrs := RegisterAndAdd(ready, register, env, items, foreign);
      errs := initErrs + addErrs;
    }

    /** Registers the ready pools, if any, in one call, then adds those the registrar accepted. */
    method RegisterAndAdd(ready: seq<ReadyPool>, register: seq<AddRequest> -> Registration, env: Lookups,
                          ghost items: seq<Item>, ghost foreign: set<BigInt>)
      returns (errs: seq<Error>)
      requires Valid() && |ready| == |items| && Answers(register(Requests(items)), items)
      requires NilFree(Rows(), items, register(Requests(items)), env)
      requires forall j :: 0 <= j < |ready| ==> ItemOf(ready[j]) == items[j]
      requires foreign !! registry.Objects()
      requires forall j :: 0 <= j < |ready| ==> ready[j].DrawnFrom(foreign)
      modifies registry, registry.Objects()
      ensures Valid() && foreign !! registry.Objects()
      ensures forall o :: o in registry.Objects() ==> o in old(registry.Objects()) || fresh(o)
      ensures Rows() == After(old(Rows()), items, register(Requests(items)), env, |items|)
      ensures errs == RegFailures(items, register(Requests(items)), |items|)
                    + AddFailures(old(Rows()), items, register(Requests(items)), env, |items|)
    {
      if |ready| == 0 {
        return [];
      }
      var requests := seq(|ready|, i requires 0 <= i < |ready| => ready[i].request);
      assert requests == Requests(items);
      var reg := register(requests);
      var regErrs := CollectRefused(ready, reg, items);
      var addErrs := AddAllRegistered(ready, reg, env, items, foreign);
      errs := regErrs + addErrs;
    }

    /** The initializer's second critical section: publishes when the errors do not cover the batch. */
    method FinishInitializations(pools: seq<Address>, res: InitResults, register: seq<AddRequest> -> Registration,
                                 env: Lookups, ghost slots: seq<InitSlot>, ghost foreign: set<BigInt>)
      returns (errs: seq<Error>)
      requires Valid() && res.Covers(|pools|) && |slots| == |pools| && Tells(res, slots)
      requires Answers(register(Requests(Ready(pools, slots))), Ready(pools, slots))
      requires NilFree(Rows(), Ready(pools, slots), register(Requests(Ready(pools, slots))), env)
      requires foreign !! registry.Objects() && res.DrawnFrom(foreign)
      modifies this`cachedView, registry, registry.Objects()
      ensures Valid() && foreign !! registry.Objects()
      ensures forall o :: o in registry.Objects() ==> o in old(registry.Objects()) || fresh(o)
      ensures var items := Ready(pools, slots);
              var reg := register(Requests(items));
              && Rows() == After(old(Rows()), items, reg, env, |items|)
              && errs == Errors(old(Rows()), pools, slots, reg, env)
              && if Successes(old(Rows()), items, reg, env, |items|) > 0
                 then Published() == Rows() && fresh(ViewObjects(cachedView))
                 else cachedView == old(cachedView)
    {
      ghost var before := Rows();
      errs := ApplyInitializations(pools, res, register, env, slots, foreign);
      BatchConserves(before, pools, slots, register(Requests(Ready(pools, slots))), env);
      if |pools| - |errs| > 0 {
        UpdateCachedView();
      }
    }

    // ---- reconciliation ----

    /** Looks records up by ID; with distinct IDs this is the snapshot itself as a map. */
    method IndexView(view: seq<PoolView>) returns (byID: map<uint64, PoolView>)
      ensures forall id :: id in byID <==> exists k :: 0 <= k < |view| && view[k].id == id
      ensures forall id :: id in byID ==> byID[id] in view && byID[id].id == id
    {
      byID := map[];
      for i := 0 to |view|
        invariant forall id :: id in byID <==> exists k :: 0 <= k < i && view[k].id == id
        invariant forall id :: id in byID ==> byID[id] in view && byID[id].id == id
      {
        byID := byID[view[i].id := view[i]];
      }
    }

    /** The first snapshot's pools whose address is known: the fetch batch, aligned with their IDs. */
    method ResolveAddresses(prev: seq<PoolView>, addressOf: map<uint64, Address>, ghost rows: Table)
      returns (poolIDs: seq<uint64>, poolAddrs: seq<Address>)
      requires rows == ViewRows(prev)
      ensures poolIDs == Resolvable(rows, addressOf) && |poolAddrs| == |poolIDs|
      ensures forall k :: 0 <= k < |poolIDs| ==> poolIDs[k] in addressOf && poolAddrs[k] == addressOf[poolIDs[k]]
    {
      poolIDs, poolAddrs := [], [];
      for i := 0 to |prev|
        invariant poolIDs == Resolvable(rows[..i], addressOf) && |poolAddrs| == |poolIDs|
        invariant forall k :: 0 <= k < |poolIDs| ==> poolIDs[k] in addressOf && poolAddrs[k] == addressOf[poolIDs[k]]
      {
        assert rows[..i + 1][..i] == rows[..i] && rows[i] == ViewRow(prev[i]);
        if prev[i].id in addressOf {
          poolIDs, poolAddrs := poolIDs + [prev[i].id], poolAddrs + [addressOf[prev[i].id]];
        }
      }
      assert rows[..|prev|] == rows;
    }

    /** The comparison of the two snapshots and the fetched reserves. */
    method SelectChanges(prev: map<uint64, PoolView>, cur: map<uint64, PoolView>, poolIDs: seq<uint64>,
                         r0s: seq<BigInt?>, r1s: seq<BigInt?>, failed: seq<bool>,
                         ghost prevRows: Table, ghost curRows: Table, ghost slots: seq<FetchSlot>)
      returns (changes: seq<PendingChange>)
      requires |poolIDs| == |r0s| == |r1s| == |failed| == |slots|
      requires forall k :: 0 <= k < |slots| ==> slots[k] == FetchSlot(Value(r0s[k]), Value(r1s[k]), failed[k])
      requires forall k :: 0 <= k < |slots| && !failed[k] && poolIDs[k] in cur ==> r0s[k] != null && r1s[k] != null
      requires forall k :: 0 <= k < |poolIDs| ==> poolIDs[k] in prev
      requires forall id :: id in prev ==> Get(prevRows, id) == Some(ViewRow(prev[id]))
      requires forall id :: if id in cur then Get(curRows, id) == Some(ViewRow(cur[id])) else !Has(curRows, id)
      ensures StandFor(changes, Select(prevRows, curRows, poolIDs, slots), set o | o in r0s, set o | o in r1s)
    {
      changes := [];
      ghost var from0, from1 := (set o | o in r0s), (set o | o in r1s);
      for k := 0 to |poolIDs|
        invariant StandFor(changes, Select(prevRows, curRows, poolIDs[..k], slots[..k]), from0, from1)
      {
        ghost var chosen := Select(prevRows, curRows, poolIDs[..k], slots[..k]);
        SelectNext(prevRows, curRows, poolIDs, slots, k);
        changes := SelectAt(changes, prev, cur, poolIDs[k], r0s[k], r1s[k], failed[k],
                            prevRows, curRows, slots[k], chosen, from0, from1);
      }
      assert poolIDs[..|poolIDs|] == poolIDs && slots[..|poolIDs|] == slots;
    }

    /** The body of that loop. */
    method SelectAt(changes: seq<PendingChange>, prev: map<uint64, PoolView>, cur: map<uint64, PoolView>,
                    poolID: uint64, r0: BigInt?, r1: BigInt?, failed: bool,
                    ghost prevRows: Table, ghost curRows: Table, ghost slot: FetchSlot,
                    ghost chosen: seq<Change>, ghost from0: set<BigInt?>, ghost from1: set<BigInt?>)
      returns (changes': seq<PendingChange>)
      requires slot == FetchSlot(Value(r0), Value(r1), failed)
      requires !failed && poolID in cur ==> r0 != null && r1 != null
      requires poolID in prev && Get(prevRows, poolID) == Some(ViewRow(prev[poolID]))
      requires if poolID in cur then Get(curRows, poolID) == Some(ViewRow(cur[poolID])) else !Has(curRows, poolID)
      requires StandFor(changes, chosen, from0, from1) && r0 in from0 && r1 in from1
      ensures StandFor(changes', chosen + SelectOne(prevRows, curRows, poolID, slot), from0, from1)
    {
      changes' := changes;
      assert chosen + [] == chosen;
      if failed || poolID !in cur {
        return;
      }
      var before, now := prev[poolID], cur[poolID];
      var isIdle := before.reserve0.value == now.reserve0.value && before.reserve1.value == now.reserve1.value;
      var isStale := now.reserve0.value != r0.value || now.reserve1.value != r1.value;
      if isIdle && isStale {
        var change := PendingChange(poolID, r0, r1);
        StandForMore(changes, chosen, change, from0, from1);
        changes' := changes + [change];
      }
    }

    /** The second snapshot, and the comparison with the first one and the fetched reserves. */
    method ChooseChanges(prev: seq<PoolView>, poolIDs: seq<uint64>,
                         r0s: seq<BigInt?>, r1s: seq<BigInt?>, failed: seq<bool>,
                         ghost prevRows: Table, ghost curRows: Table, ghost slots: seq<FetchSlot>)
      returns (changes: seq<PendingChange>)
      requires Reads(prev, prevRows) && Distinct(prevRows)
      requires curRows == Published() && Distinct(curRows)
      requires |poolIDs| == |r0s| == |r1s| == |failed| == |slots|
      requires forall k :: 0 <= k < |slots| ==> slots[k] == FetchSlot(Value(r0s[k]), Value(r1s[k]), failed[k])
      requires forall k :: 0 <= k < |slots| && !failed[k] && Has(curRows, poolIDs[k]) ==>
        r0s[k] != null && r1s[k] != null
      requires ListedIn(poolIDs, prev)
      ensures |changes| == |Select(prevRows, curRows, poolIDs, slots)|
      ensures forall j :: 0 <= j < |changes| ==> ChangeOf(changes[j]) == Select(prevRows, curRows, poolIDs, slots)[j]
      ensures forall j :: 0 <= j < |changes| ==> changes[j].reserve0 in r0s && changes[j].reserve1 in r1s
    {
      var cur := View();
      var prevByID := IndexView(prev);
      var curByID := IndexView(cur);
      assert Reads(cur, curRows);
      IndexedView(prev, prevRows, prevByID);
      IndexedView(cur, curRows, curByID);
      changes := SelectChanges(prevByID, curByID, poolIDs, r0s, r1s, failed, prevRows, curRows, slots);
    }

    /** The reconciler's critical section; reports the pools that have gone since. */
    method ApplyReconciliation(changes: seq<PendingChange>, ghost values: seq<Change>) returns (gone: seq<uint64>)
      requires Valid() && |changes| == |values| > 0
      requires forall j :: 0 <= j < |changes| ==> ChangeOf(changes[j]) == values[j]
      requires forall j :: 0 <= j < |changes| ==>
        changes[j].reserve0 !in registry.Objects() && changes[j].reserve1 !in registry.Objects()
      modifies this`cachedView, registry.Objects()
      ensures Valid() && Published() == Rows() && fresh(ViewObjects(cachedView))
      ensures Rows() == ApplyChanges(old(Rows()), values)
      ensures gone == Missing(old(Rows()), values)
    {
      gone := OverwriteEach(changes, values);
      UpdateCachedView();
    }

    method OverwriteEach(changes: seq<PendingChange>, ghost values: seq<Change>) returns (gone: seq<uint64>)
      requires Valid() && |changes| == |values|
      requires forall j :: 0 <= j < |changes| ==> ChangeOf(changes[j]) == values[j]
      requires forall j :: 0 <= j < |changes| ==>
        changes[j].reserve0 !in registry.Objects() && changes[j].reserve1 !in registry.Objects()
      modifies registry.Objects()
      ensures Valid() && Rows() == ApplyChanges(old(Rows()), values)
      ensures gone == Missing(old(Rows()), values)
    {
      gone := [];
      ghost var before := Rows();
      for i := 0 to |changes|
        invariant Valid() && Rows() == ApplyChanges(before, values[..i])
        invariant forall j :: 0 <= j < |changes| ==> ChangeOf(changes[j]) == values[j]
        invariant gone == Missing(before, values[..i])
      {
        assert values[..i + 1][..i] == values[..i];
        var ok := UpdateForeign(changes[i].id, changes[i].reserve0, changes[i].reserve1);
        if !ok {
          gone := gone + [changes[i].id];
        }
      }
      assert values[..|values|] == values;
    }

    // ---- pruning ----

    /** The pruner's pass over its snapshot. */
    method SelectBlocked(view: seq<PoolView>, addressOf: map<uint64, Address>, blocked: set<Address>, ghost rows: Table)
      returns (poolIDs: seq<uint64>)
      requires rows == ViewRows(view)
      ensures poolIDs == BlockedIds(rows, addressOf, blocked)
    {
      poolIDs := [];
      for i := 0 to |view|
        invariant poolIDs == BlockedIds(rows[..i], addressOf, blocked)
      {
        assert rows[..i + 1][..i] == rows[..i] && rows[i] == ViewRow(view[i]);
        var id := view[i].id;
        if id !in addressOf {
          continue;
        }
        if addressOf[id] in blocked {
          poolIDs := poolIDs + [id];
        }
      }
      assert rows[..|view|] == rows;
    }
  }
}
