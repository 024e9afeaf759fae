/**
 Whole executions on the heap: any schedule of the five processes, section by section, with what each
 process keeps between its sections, runs as the state machine does.
 */
module Execution {
  import opened Deletions
  import opened Initializations
  import opened Initializer
  import opened Logs
  import opened Protocol
  import opened Reconciliation
  import opened Refinement
  import opened Registries
  import opened Reserves
  import opened Runs
  import opened Slices
  import opened Systems
  import opened Tables
  import opened Types

  // ---- what the processes hold between their sections ----

  datatype ListenerVars =
    | Waiting
    | Read(number: uint64, logs: seq<Log>, pools: seq<Address>, r0s: seq<BigInt>, r1s: seq<BigInt>, found: seq<Address>)

  datatype InitializerVars =
    | Idle
    | Took(pools: seq<Address>)
    | Vetted(batch: seq<Address>, inputs: seq<InitInput>, res: InitResults)

  datatype ReconcilerVars = Asleep | Looked(prev: seq<PoolView>, ids: seq<uint64>) | Picked(changes: seq<PendingChange>)

  datatype PrunerVars = Still | Marked(ids: seq<uint64>)

  datatype Locals = Locals(received: seq<uint64>, listener: ListenerVars, initializer: InitializerVars,
                           reconciler: ReconcilerVars, pruner: PrunerVars)

  const AT_REST := Locals([], Waiting, Idle, Asleep, Still)

  ghost predicate ListenerKeeps(l: ListenerVars, p: Listener, foreign: set<BigInt>)
    reads foreign
  {
    match l
    case Waiting => p == Listening
    case Read(number, logs, pools, r0s, r1s, found) =>
      && |pools| == |r0s| == |r1s| && Elements(r0s, r1s) <= foreign
      && p == Parsed(number, logs, Zip(pools, r0s, r1s), found)
  }

  ghost predicate InitializerKeeps(l: InitializerVars, p: InitPhase, w: Whitelist, foreign: set<BigInt>)
    reads foreign
  {
    match l
    case Idle => p == NoBatch
    case Took(pools) => p == Drained(pools)
    case Vetted(pools, inputs, res) =>
      && p == Returned(pools, inputs) && |inputs| == |pools|
      && res.Covers(|pools|) && res.DrawnFrom(foreign) && Tells(res, InitAll(w, inputs))
  }

  ghost predicate ReconcilerKeeps(l: ReconcilerVars, p: ReconcilePhase, foreign: set<BigInt>)
    reads foreign
  {
    match l
    case Asleep => p == Resting
    case Looked(prev, ids) =>
      p.Snapped? && p.ids == ids && ViewObjects(prev) <= foreign && Reads(prev, p.prev) && ListedIn(ids, prev)
    case Picked(changes) =>
      && p.Chosen? && |p.fetched| == |p.ids| && |changes| == |Select(p.prev, p.cur, p.ids, p.fetched)| > 0
      && (forall j :: 0 <= j < |changes| ==> changes[j].reserve0 in foreign && changes[j].reserve1 in foreign)
      && (forall j :: 0 <= j < |changes| ==> ChangeOf(changes[j]) == Select(p.prev, p.cur, p.ids, p.fetched)[j])
  }

  ghost predicate PrunerKeeps(l: PrunerVars, p: PrunePhase) {
    match l
    case Still => p == Quiet
    case Marked(ids) => p.Selected? && ids == BlockedIds(p.snapshot, p.addressOf, p.blocked)
  }

  /** The processes' variables stand for the machine's phases; the numbers they hold are among these. */
  ghost predicate Carries(l: Locals, w: Whitelist, a: System, foreign: set<BigInt>)
    reads foreign
  {
    && a.whitelist == w && a.received == l.received
    && ListenerKeeps(l.listener, a.listener, foreign)
    && InitializerKeeps(l.initializer, a.initializer, w, foreign)
    && ReconcilerKeeps(l.reconciler, a.reconciler, foreign)
    && PrunerKeeps(l.pruner, a.pruner)
  }

  /** The heap as a whole stands for the machine's state, and what is held is outside the registry. */
  ghost predicate Linked(s: UniswapV2System, l: Locals, w: Whitelist, a: System, foreign: set<BigInt>)
    reads s, s.registry, s.registry.Objects(), ViewObjects(s.cachedView), foreign
  {
    Matches(s, a) && foreign !! s.registry.Objects() && Carries(l, w, a, foreign)
  }

  /** The machine can take these steps, and they end where the heap is now. */
  ghost predicate Reached(s: UniswapV2System, l: Locals, w: Whitelist, a: System, steps: seq<Step>,
                          foreign: set<BigInt>)
    reads s, s.registry, s.registry.Objects(), ViewObjects(s.cachedView), foreign
  {
    ValidRun(a, steps) && Linked(s, l, w, Exec(a, steps), foreign)
  }

  // ---- schedules ----

  /** One turn of one process, with what comes from outside. */
  datatype Action =
    | SkipBlock(number: uint64)
    | FailBlock(number: uint64)
    | ReadBlock(number: uint64, logs: seq<Log>)
    | HandleBlock(updateIDs: map<Address, uint64>, discoverIDs: map<Address, uint64>, blocked: set<Address>)
    | TakeQueue
    | AbandonBatch
    | CallInitializer(inputs: seq<InitInput>)
    | FinishBatch(reg: Registration, env: Lookups)
    | LookAround(addressOf: map<uint64, Address>)
    | AbandonCycle
    | Compare(answers: seq<FetchInput>)
    | OverwriteChosen
    | MarkBlocked(addressOf: map<uint64, Address>, blocked: set<Address>)
    | PruneMarked
    | DeletePool(id: uint64)
    | DeletePools(ids: seq<uint64>)
  {
    /** The listener's and the initializer's: the rest only tend what those bring in. */
    predicate Feeds() {
      || SkipBlock? || FailBlock? || ReadBlock? || HandleBlock?
      || TakeQueue? || AbandonBatch? || CallInitializer? || FinishBatch?
    }
  }

  /** Whether the action's process is where it can act; when it is not, its turn passes. */
  ghost predicate Due(a: System, action: Action) {
    match action
    case SkipBlock(n) => Next(a, n)
    case FailBlock(n) => Next(a, n)
    case ReadBlock(n, _) => Next(a, n)
    case HandleBlock(_, _, _) => a.listener.Parsed?
    case TakeQueue => a.initializer == NoBatch && a.pending != {}
    case AbandonBatch => a.initializer.Drained?
    case CallInitializer(inputs) => a.initializer.Drained? && |inputs| == |a.initializer.batch|
    case FinishBatch(reg, env) => Enabled(a, ApplyInits(reg, env))
    case LookAround(_) => a.reconciler == Resting && a.view != []
    case AbandonCycle => a.reconciler.Snapped?
    case Compare(answers) => a.reconciler.Snapped? && |answers| == |a.reconciler.ids|
    case OverwriteChosen => Enabled(a, Overwrite)
    case MarkBlocked(_, _) => a.pruner == Quiet && a.view != []
    case PruneMarked => a.pruner.Selected?
    case DeletePool(_) => true
    case DeletePools(_) => true
  }

  /** The machine's steps for an action; the parsers' and the queue's order are theirs to choose. */
  ghost predicate Takes(action: Action, steps: seq<Step>) {
    match action
    case SkipBlock(n) => steps == [Skip(n)]
    case FailBlock(n) => steps == [Fail(n)]
    case ReadBlock(n, logs) => |steps| == 1 && steps[0].Parse? && steps[0].number == n && steps[0].logs == logs
    case HandleBlock(updateIDs, discoverIDs, blocked) =>
      steps == [ApplyBlock(updateIDs, discoverIDs, blocked), StoreLast, Release]
    case TakeQueue => |steps| == 1 && steps[0].Drain?
    case AbandonBatch => steps == [DropBatch]
    case CallInitializer(inputs) => steps == [Initialize(inputs)]
    case FinishBatch(reg, env) => steps == [ApplyInits(reg, env), Release]
    case LookAround(addressOf) => steps == [FirstSnapshot(addressOf)]
    case AbandonCycle => steps == [GiveUp]
    case Compare(answers) => steps == [SecondSnapshot(FetchAll(answers))]
    case OverwriteChosen => steps == [Overwrite, Release]
    case MarkBlocked(addressOf, blocked) => steps == [SelectBlocked(addressOf, blocked)]
    case PruneMarked => steps == [Prune, Release]
    case DeletePool(id) => steps == [DeleteOne(id), Release]
    case DeletePools(ids) => steps == [DeleteMany(ids), Release]
  }

  ghost predicate Performs(a: System, action: Action, steps: seq<Step>) {
    if Due(a, action) then Takes(action, steps) else steps == []
  }

  /** Some list of a set's elements, each once. */
  lemma SomeOrder(s: set<Address>) returns (q: seq<Address>)
    ensures multiset(q) == multiset(s) && |q| == |s|
    ensures forall i, j :: 0 <= i < j < |q| ==> q[i] != q[j]
    ensures forall a :: a in q <==> a in s
  {
    q := [];
    if s != {} {
      var a :| a in s;
      var rest := SomeOrder(s - {a});
      q := rest + [a];
      assert s == (s - {a}) + {a};
    }
  }

  /** Whatever the logs, the parsers have something to return. */
  lemma SomeParse(logs: seq<Log>) returns (updates: seq<Sync>, discovered: seq<Address>)
    ensures IsUpdateBatch(logs, updates) && IsDiscovery(logs, discovered)
  {
    var latest := LatestSyncs(logs);
    var pools := SomeOrder(latest.Keys);
    updates := seq(|pools|, i requires 0 <= i < |pools| => latest[pools[i]]);
    ListedIsBatch(logs, pools, updates);
    discovered := SomeOrder(set log | log in logs && IsSwap(log) :: log.address);
    forall a ensures a in discovered <==> exists k :: 0 <= k < |logs| && IsSwap(logs[k]) && logs[k].address == a
    {
      if k :| 0 <= k < |logs| && IsSwap(logs[k]) && logs[k].address == a {
        assert logs[k] in logs;
      }
    }
  }

  /** A turn passes exactly when the machine, its lock free, cannot take the action's steps. */
  lemma DueIsPossible(a: System, action: Action)
    requires a.lock == Unlocked
    ensures Due(a, action) <==> exists steps :: Takes(action, steps) && ValidRun(a, steps)
  {
    if Due(a, action) {
      var steps := DueSteps(a, action);
    }
    if steps :| Takes(action, steps) && ValidRun(a, steps) {
      assert Enabled(a, steps[0]);
    }
  }

  lemma DueSteps(a: System, action: Action) returns (steps: seq<Step>)
    requires a.lock == Unlocked && Due(a, action)
    ensures Takes(action, steps) && ValidRun(a, steps)
  {
    match action
    case SkipBlock(n) => steps := [Skip(n)]; OneStep(a, steps[0]);
    case FailBlock(n) => steps := [Fail(n)]; OneStep(a, steps[0]);
    case ReadBlock(n, logs) =>
      var updates, discovered := SomeParse(logs);
      steps := [Parse(n, logs, updates, discovered)];
      OneStep(a, steps[0]);
    case HandleBlock(updateIDs, discoverIDs, blocked) =>
      steps := [ApplyBlock(updateIDs, discoverIDs, blocked), StoreLast, Release];
      BlockEnds(a, updateIDs, discoverIDs, blocked);
    case TakeQueue =>
      var batch := SomeOrder(a.pending);
      steps := [Drain(batch)];
      OneStep(a, steps[0]);
    case AbandonBatch => steps := [DropBatch]; OneStep(a, steps[0]);
    case CallInitializer(inputs) => steps := [Initialize(inputs)]; OneStep(a, steps[0]);
    case FinishBatch(reg, env) => steps := [ApplyInits(reg, env), Release]; InitEnds(a, reg, env);
    case LookAround(addressOf) => steps := [FirstSnapshot(addressOf)]; OneStep(a, steps[0]);
    case AbandonCycle => steps := [GiveUp]; OneStep(a, steps[0]);
    case Compare(answers) => steps := [SecondSnapshot(FetchAll(answers))]; OneStep(a, steps[0]);
    case OverwriteChosen => steps := [Overwrite, Release]; ReconcileEnds(a);
    case MarkBlocked(addressOf, blocked) => steps := [SelectBlocked(addressOf, blocked)]; OneStep(a, steps[0]);
    case PruneMarked =>
      steps := [Prune, Release];
      DeletionEnds(a, Prune, BlockedIds(a.pruner.snapshot, a.pruner.addressOf, a.pruner.blocked));
    case DeletePool(id) => steps := [DeleteOne(id), Release]; DeletionEnds(a, DeleteOne(id), [id]);
    case DeletePools(ids) => steps := [DeleteMany(ids), Release]; DeletionEnds(a, DeleteMany(ids), ids);
  }

  /** What the reconciler has chosen to write. */
  function ChosenChanges(r: ReconcilePhase): seq<Change>
    requires r.Chosen? && |r.ids| == |r.fetched|
  {
    Select(r.prev, r.cur, r.ids, r.fetched)
  }

  /** What a turn leaves its process, its caller or the error handler with. */
  datatype Told =
    | Silent
    | InitErrs(errs: seq<Error>)
    | Gone(ids: seq<uint64>)
    | Deleted(ok: bool)
    | DeletedMany(flags: Option<seq<bool>>)

  ghost function Hears(a: System, action: Action): Told {
    if !Due(a, action) then Silent
    else match action
      case FinishBatch(reg, env) => InitErrs(InitErrors(a, reg, env))
      case OverwriteChosen => Gone(Missing(a.rows, ChosenChanges(a.reconciler)))
      case PruneMarked =>
        DeletedMany(DeletionReply(a.rows, BlockedIds(a.pruner.snapshot, a.pruner.addressOf, a.pruner.blocked)))
      case DeletePool(id) => Deleted(Has(a.rows, id))
      case DeletePools(ids) => DeletedMany(DeletionReply(a.rows, ids))
      case _ => Silent
  }

  /** The reconciler's reply names exactly the chosen pools that are gone at the lock. */
  lemma HearsGone(a: System)
    requires Due(a, OverwriteChosen) && TablesOk(a)
    ensures Hears(a, OverwriteChosen).Gone?
    ensures forall id :: id in Hears(a, OverwriteChosen).ids <==>
      !Has(a.rows, id) && Writes(a.reconciler.prev, a.reconciler.cur, a.reconciler.ids, a.reconciler.fetched, id)
  {
    var r := a.reconciler;
    forall id ensures id in Missing(a.rows, ChosenChanges(r)) <==>
                        !Has(a.rows, id) && Writes(r.prev, r.cur, r.ids, r.fetched, id)
    {
      MissingExact(a.rows, ChosenChanges(r), id);
      NamesWritten(r.prev, r.cur, r.ids, r.fetched, id);
    }
  }

  /** A deletion's reply says whether the pool was there. */
  lemma HearsDeleted(a: System, id: uint64)
    ensures Hears(a, DeletePool(id)) == Deleted(id in Ids(a.rows))
  {
    IndexGet(a.rows, id);
  }

  /** A batch deletion's, the pruner's included, says which entries found no pool, and nothing when all did. */
  lemma HearsDeletedMany(a: System, action: Action, ids: seq<uint64>)
    requires Distinct(a.rows)
    requires || action == DeletePools(ids)
             || (action == PruneMarked && a.pruner.Selected?
                 && ids == BlockedIds(a.pruner.snapshot, a.pruner.addressOf, a.pruner.blocked))
    ensures Hears(a, action).DeletedMany?
    ensures var flags := Hears(a, action).flags;
            && (flags.None? <==> forall i :: 0 <= i < |ids| ==> ids[i] in Ids(a.rows) && ids[i] !in ids[..i])
            && (flags.Some? ==>
                  && |flags.value| == |ids|
                  && forall i :: 0 <= i < |ids| ==> (flags.value[i] <==> ids[i] !in Ids(a.rows) || ids[i] in ids[..i]))
  {
    DeletionReplyExact(a.rows, ids);
  }

  /** The initializer's has as many errors as there are pools not counted as successes. */
  lemma HearsInit(a: System, reg: Registration, env: Lookups)
    requires Due(a, FinishBatch(reg, env))
    ensures Hears(a, FinishBatch(reg, env)).InitErrs?
    ensures var items := ReadyItems(a);
            |Hears(a, FinishBatch(reg, env)).errs| + Successes(a.rows, items, reg, env, |items|)
            == |a.initializer.batch|
  {
    BatchConserves(a.rows, a.initializer.batch, InitAll(a.whitelist, a.initializer.inputs), reg, env);
  }

  /** Whether the action is due, as its process answers that from what it holds and sees. */
  predicate MayAct(s: UniswapV2System, l: Locals, w: Whitelist, action: Action)
    reads s
  {
    match action
    case SkipBlock(n) => l.listener.Waiting? && (l.received == [] || l.received[|l.received| - 1] < n)
    case FailBlock(n) => l.listener.Waiting? && (l.received == [] || l.received[|l.received| - 1] < n)
    case ReadBlock(n, _) => l.listener.Waiting? && (l.received == [] || l.received[|l.received| - 1] < n)
    case HandleBlock(_, _, _) => l.listener.Read?
    case TakeQueue => l.initializer.Idle? && s.pendingInit != {}
    case AbandonBatch => l.initializer.Took?
    case CallInitializer(inputs) => l.initializer.Took? && |inputs| == |l.initializer.pools|
    case FinishBatch(reg, env) =>
      l.initializer.Vetted? && |l.initializer.inputs| == |l.initializer.batch| &&
      (AllUsable(w, l.initializer.inputs);
       Honest(Ready(l.initializer.batch, InitAll(w, l.initializer.inputs)), reg, env))
    case LookAround(_) => l.reconciler.Asleep? && |s.cachedView| > 0
    case AbandonCycle => l.reconciler.Looked?
    case Compare(answers) => l.reconciler.Looked? && |answers| == |l.reconciler.ids|
    case OverwriteChosen => l.reconciler.Picked?
    case MarkBlocked(_, _) => l.pruner.Still? && |s.cachedView| > 0
    case PruneMarked => l.pruner.Marked?
    case DeletePool(_) => true
    case DeletePools(_) => true
  }

  lemma DueExactly(s: UniswapV2System, l: Locals, w: Whitelist, action: Action, a: System, foreign: set<BigInt>)
    requires Linked(s, l, w, a, foreign)
    ensures MayAct(s, l, w, action) <==> Due(a, action)
  {
  }

  // ---- the listener ----

  /** Numbers a process brings in from elsewhere leave everything else as it was. */
  lemma Brought(s: UniswapV2System, l: Locals, w: Whitelist, a: System, foreign: set<BigInt>, more: set<BigInt>)
    requires Linked(s, l, w, a, foreign) && more !! s.registry.Objects()
    ensures Linked(s, l, w, a, foreign + more)
  {
  }

  method SkipTurn(s: UniswapV2System, l: Locals, w: Whitelist, number: uint64,
                  ghost a: System, ghost foreign: set<BigInt>)
    returns (l': Locals)
    requires Linked(s, l, w, a, foreign) && Next(a, number)
    modifies s`lastUpdatedAtBlock
    ensures Reached(s, l', w, a, [Skip(number)], foreign)
  {
    SkipSection(s, a, number);
    OneStep(a, Skip(number));
    l' := l.(received := l.received + [number]);
  }

  method FailTurn(s: UniswapV2System, l: Locals, w: Whitelist, number: uint64,
                  ghost a: System, ghost foreign: set<BigInt>)
    returns (l': Locals)
    requires Linked(s, l, w, a, foreign) && Next(a, number)
    ensures Reached(s, l', w, a, [Fail(number)], foreign)
  {
    OneStep(a, Fail(number));
    l' := l.(received := l.received + [number]);
  }

  method ReadTurn(s: UniswapV2System, l: Locals, w: Whitelist, number: uint64, logs: seq<Log>,
                  ghost a: System, ghost foreign: set<BigInt>)
    returns (l': Locals, ghost step: Step, ghost more: set<BigInt>)
    requires Linked(s, l, w, a, foreign) && Next(a, number)
    ensures Takes(ReadBlock(number, logs), [step]) && Reached(s, l', w, a, [step], foreign + more)
  {
    var pools, r0s, r1s, found := ParseSection(s, a, number, logs);
    more := Elements(r0s, r1s);
    Brought(s, l, w, a, foreign, more);
    step := Parse(number, logs, Zip(pools, r0s, r1s), found);
    OneStep(a, step);
    l' := l.(received := l.received + [number], listener := Read(number, logs, pools, r0s, r1s, found));
  }

  method HandleTurn(s: UniswapV2System, l: Locals, w: Whitelist, updateIDs: map<Address, uint64>,
                    discoverIDs: map<Address, uint64>, blocked: set<Address>,
                    ghost a: System, ghost foreign: set<BigInt>)
    returns (l': Locals)
    requires Linked(s, l, w, a, foreign) && a.listener.Parsed?
    modifies s, s.registry.Objects()
    ensures Reached(s, l', w, a, [ApplyBlock(updateIDs, discoverIDs, blocked), StoreLast, Release], foreign)
    ensures s.registry.Objects() == old(s.registry.Objects())
  {
    var Read(number, logs, pools, r0s, r1s, found) := l.listener;
    var added := BlockSection(s, a, pools, r0s, r1s, updateIDs, discoverIDs, blocked, number, found, logs, foreign);
    l' := l.(listener := Waiting);
    BlockMoves(l, w, a, updateIDs, discoverIDs, blocked, foreign);
  }

  lemma BlockMoves(l: Locals, w: Whitelist, a: System, updateIDs: map<Address, uint64>,
                   discoverIDs: map<Address, uint64>, blocked: set<Address>, foreign: set<BigInt>)
    requires Carries(l, w, a, foreign) && a.lock == Unlocked && a.listener.Parsed?
    ensures var steps := [ApplyBlock(updateIDs, discoverIDs, blocked), StoreLast, Release];
            ValidRun(a, steps) && Carries(l.(listener := Waiting), w, Exec(a, steps), foreign)
  {
    BlockEnds(a, updateIDs, discoverIDs, blocked);
  }

  // ---- the initializer ----

  lemma InitializerMoved(l: Locals, l': Locals, w: Whitelist, a: System, e: System, foreign: set<BigInt>)
    requires Carries(l, w, a, foreign) && SameButInitializer(a, e)
    requires l' == l.(initializer := l'.initializer) && InitializerKeeps(l'.initializer, e.initializer, w, foreign)
    ensures Carries(l', w, e, foreign)
  {
  }

  method TakeTurn(s: UniswapV2System, l: Locals, w: Whitelist, ghost a: System, ghost foreign: set<BigInt>)
    returns (l': Locals, ghost step: Step)
    requires Linked(s, l, w, a, foreign) && a.initializer == NoBatch && a.pending != {}
    modifies s`pendingInit
    ensures step.Drain? && Reached(s, l', w, a, [step], foreign)
  {
    var batch := DrainSection(s, a);
    step := Drain(batch);
    OneStep(a, step);
    l' := l.(initializer := Took(batch));
  }

  method AbandonBatchTurn(s: UniswapV2System, l: Locals, w: Whitelist, ghost a: System, ghost foreign: set<BigInt>)
    returns (l': Locals)
    requires Linked(s, l, w, a, foreign) && a.initializer.Drained?
    ensures Reached(s, l', w, a, [DropBatch], foreign)
  {
    OneStep(a, DropBatch);
    l' := l.(initializer := Idle);
  }

  method Allocate(v: Option<int>) returns (o: BigInt?)
    ensures Value(o) == v && (o != null ==> fresh(o))
  {
    if v.None? { return null; }
    o := new BigInt(v.value);
  }

  /** The slices an initializer call returns, whatever the order its workers ran in. */
  method InitializerReturns(w: Whitelist, inputs: seq<InitInput>) returns (res: InitResults)
    ensures res.Covers(|inputs|) && Tells(res, InitAll(w, inputs))
    ensures forall i :: 0 <= i < |res.reserve0s| && res.reserve0s[i] != null ==> fresh(res.reserve0s[i])
    ensures forall i :: 0 <= i < |res.reserve1s| && res.reserve1s[i] != null ==> fresh(res.reserve1s[i])
  {
    var slots := InitAll(w, inputs);
    var r0s: seq<BigInt?>, r1s: seq<BigInt?> := [], [];
    for k := 0 to |slots|
      invariant |r0s| == |r1s| == k
      invariant forall i :: 0 <= i < k ==> (r0s[i] != null ==> fresh(r0s[i])) && (r1s[i] != null ==> fresh(r1s[i]))
      invariant forall i :: 0 <= i < k ==> Value(r0s[i]) == slots[i].reserve0 && Value(r1s[i]) == slots[i].reserve1
    {
      var r0 := Allocate(slots[k].reserve0);
      var r1 := Allocate(slots[k].reserve1);
      r0s, r1s := r0s + [r0], r1s + [r1];
    }
    var n := |slots|;
    res := InitResults(seq(n, i requires 0 <= i < n => slots[i].token0),
                       seq(n, i requires 0 <= i < n => slots[i].token1),
                       seq(n, i requires 0 <= i < n => slots[i].poolType),
                       seq(n, i requires 0 <= i < n => slots[i].fee),
                       r0s, r1s, seq(n, i requires 0 <= i < n => slots[i].err));
    forall i | 0 <= i < n ensures slots[i] == SlotAt(res, i)
    {
      InitOneContract(w, inputs[i]);
    }
  }

  /** A batch taken from the queue gets its results. */
  method CallTurn(s: UniswapV2System, l: Locals, w: Whitelist, inputs: seq<InitInput>,
                  ghost a: System, ghost foreign: set<BigInt>)
    returns (l': Locals, ghost more: set<BigInt>)
    requires Linked(s, l, w, a, foreign) && a.initializer.Drained? && |inputs| == |a.initializer.batch|
    ensures Reached(s, l', w, a, [Initialize(inputs)], foreign + more)
  {
    var res := InitializerReturns(w, inputs);
    more := (set o: BigInt | o in res.reserve0s) + (set o: BigInt | o in res.reserve1s);
    l' := l.(initializer := Vetted(l.initializer.pools, inputs, res));
    CallMoves(s, l, w, inputs, res, a, foreign, more);
  }

  lemma CallMoves(s: UniswapV2System, l: Locals, w: Whitelist, inputs: seq<InitInput>, res: InitResults,
                  a: System, foreign: set<BigInt>, more: set<BigInt>)
    requires Linked(s, l, w, a, foreign) && l.initializer.Took? && |inputs| == |l.initializer.pools|
    requires res.Covers(|inputs|) && Tells(res, InitAll(w, inputs))
    requires res.DrawnFrom(more) && more !! s.registry.Objects()
    ensures Reached(s, l.(initializer := Vetted(l.initializer.pools, inputs, res)), w, a, [Initialize(inputs)],
                    foreign + more)
  {
    Brought(s, l, w, a, foreign, more);
    OneStep(a, Initialize(inputs));
    InitializerMoved(l, l.(initializer := Vetted(l.initializer.pools, inputs, res)), w, a, Do(a, Initialize(inputs)),
                     foreign + more);
  }

  /** The vetted batch goes into the registry, the registrar's reply being an honest one. */
  method FinishTurn(s: UniswapV2System, l: Locals, w: Whitelist, reg: Registration, env: Lookups,
                    ghost a: System, ghost foreign: set<BigInt>)
    returns (l': Locals, errs: seq<Error>)
    requires Linked(s, l, w, a, foreign) && Enabled(a, ApplyInits(reg, env))
    modifies s`cachedView, s.registry, s.registry.Objects()
    ensures errs == InitErrors(a, reg, env)
    ensures Reached(s, l', w, a, [ApplyInits(reg, env), Release], foreign)
    ensures forall o :: o in s.registry.Objects() ==> o in old(s.registry.Objects()) || fresh(o)
  {
    var Vetted(pools, inputs, res) := l.initializer;
    errs := InitSection(s, a, pools, res, _ => reg, env, InitAll(w, inputs), reg, foreign);
    l' := l.(initializer := Idle);
    FinishMoves(l, w, a, reg, env, foreign);
  }

  lemma FinishMoves(l: Locals, w: Whitelist, a: System, reg: Registration, env: Lookups, foreign: set<BigInt>)
    requires Carries(l, w, a, foreign) && Enabled(a, ApplyInits(reg, env))
    ensures var steps := [ApplyInits(reg, env), Release];
            ValidRun(a, steps) && Carries(l.(initializer := Idle), w, Exec(a, steps), foreign)
  {
    InitEnds(a, reg, env);
  }

  // ---- the reconciler ----

  lemma ReconcilerMoved(l: Locals, l': Locals, w: Whitelist, a: System, e: System, foreign: set<BigInt>)
    requires Carries(l, w, a, foreign) && SameButReconciler(a, e)
    requires l' == l.(reconciler := l'.reconciler) && ReconcilerKeeps(l'.reconciler, e.reconciler, foreign)
    ensures Carries(l', w, e, foreign)
  {
  }

  lemma LookMoves(s: UniswapV2System, l: Locals, w: Whitelist, addressOf: map<uint64, Address>, ids: seq<uint64>,
                  a: System, foreign: set<BigInt>)
    requires Linked(s, l, w, a, foreign) && Enabled(a, FirstSnapshot(addressOf))
    requires Reads(s.cachedView, a.view) && ListedIn(ids, s.cachedView) && ids == Resolvable(a.view, addressOf)
    ensures Linked(s, l.(reconciler := Looked(s.cachedView, ids)), w, Do(a, FirstSnapshot(addressOf)),
                   foreign + ViewObjects(s.cachedView))
  {
    var l', foreign' := l.(reconciler := Looked(s.cachedView, ids)), foreign + ViewObjects(s.cachedView);
    Brought(s, l, w, a, foreign, ViewObjects(s.cachedView));
    ReconcilerMoved(l, l', w, a, Do(a, FirstSnapshot(addressOf)), foreign');
  }

  method LookTurn(s: UniswapV2System, l: Locals, w: Whitelist, addressOf: map<uint64, Address>,
                  ghost a: System, ghost foreign: set<BigInt>)
    returns (l': Locals)
    requires Linked(s, l, w, a, foreign) && a.reconciler == Resting && a.view != []
    ensures Reached(s, l', w, a, [FirstSnapshot(addressOf)], foreign + ViewObjects(s.cachedView))
  {
    var prev, ids, addrs := FirstSnapshotSection(s, a, addressOf);
    OneStep(a, FirstSnapshot(addressOf));
    LookMoves(s, l, w, addressOf, ids, a, foreign);
    l' := l.(reconciler := Looked(prev, ids));
  }

  method AbandonCycleTurn(s: UniswapV2System, l: Locals, w: Whitelist, ghost a: System, ghost foreign: set<BigInt>)
    returns (l': Locals)
    requires Linked(s, l, w, a, foreign) && a.reconciler.Snapped?
    ensures Reached(s, l', w, a, [GiveUp], foreign)
  {
    OneStep(a, GiveUp);
    l' := l.(reconciler := Asleep);
  }

  /** The slices a fetch returns, whatever the order its workers ran in. */
  method FetcherReturns(answers: seq<FetchInput>) returns (r0s: seq<BigInt?>, r1s: seq<BigInt?>, failed: seq<bool>)
    ensures |r0s| == |r1s| == |failed| == |answers|
    ensures forall i :: 0 <= i < |answers| ==>
      FetchAll(answers)[i] == FetchSlot(Value(r0s[i]), Value(r1s[i]), failed[i])
    ensures forall i :: 0 <= i < |answers| && !failed[i] ==> r0s[i] != null && r1s[i] != null
    ensures forall i :: 0 <= i < |answers| ==> (r0s[i] != null ==> fresh(r0s[i])) && (r1s[i] != null ==> fresh(r1s[i]))
  {
    var slots := FetchAll(answers);
    r0s, r1s, failed := [], [], seq(|slots|, i requires 0 <= i < |slots| => slots[i].failed);
    for k := 0 to |slots|
      invariant |r0s| == |r1s| == k
      invariant forall i :: 0 <= i < k ==> (r0s[i] != null ==> fresh(r0s[i])) && (r1s[i] != null ==> fresh(r1s[i]))
      invariant forall i :: 0 <= i < k ==> Value(r0s[i]) == slots[i].reserve0 && Value(r1s[i]) == slots[i].reserve1
    {
      var r0 := Allocate(slots[k].reserve0);
      var r1 := Allocate(slots[k].reserve1);
      r0s, r1s := r0s + [r0], r1s + [r1];
    }
  }

  lemma CompareMoves(s: UniswapV2System, l: Locals, w: Whitelist, slots: seq<FetchSlot>, changes: seq<PendingChange>,
                     a: System, foreign: set<BigInt>, more: set<BigInt>)
    requires Linked(s, l, w, a, foreign) && Enabled(a, SecondSnapshot(slots)) && more !! s.registry.Objects()
    requires forall j :: 0 <= j < |changes| ==> changes[j].reserve0 in more && changes[j].reserve1 in more
    requires var values := Select(a.reconciler.prev, a.view, a.reconciler.ids, slots);
             |changes| == |values| && forall j :: 0 <= j < |changes| ==> ChangeOf(changes[j]) == values[j]
    ensures Reached(s, l.(reconciler := if changes == [] then Asleep else Picked(changes)), w, a,
                    [SecondSnapshot(slots)], foreign + more)
  {
    var l' := l.(reconciler := if changes == [] then Asleep else Picked(changes));
    Brought(s, l, w, a, foreign, more);
    OneStep(a, SecondSnapshot(slots));
    ReconcilerMoved(l, l', w, a, Do(a, SecondSnapshot(slots)), foreign + more);
  }

  /** The second snapshot, against the answers for the first one's pools. */
  method Choose(s: UniswapV2System, prev: seq<PoolView>, ids: seq<uint64>, answers: seq<FetchInput>, ghost a: System)
    returns (changes: seq<PendingChange>)
    requires Matches(s, a) && TablesOk(a) && a.reconciler.Snapped? && |answers| == |ids| && a.reconciler.ids == ids
    requires Reads(prev, a.reconciler.prev) && ListedIn(ids, prev)
    ensures var values := Select(a.reconciler.prev, a.view, ids, FetchAll(answers));
            |changes| == |values| && forall j :: 0 <= j < |changes| ==> ChangeOf(changes[j]) == values[j]
    ensures forall j :: 0 <= j < |changes| ==> fresh(changes[j].reserve0) && fresh(changes[j].reserve1)
  {
    var r0s, r1s, failed := FetcherReturns(answers);
    changes := SecondSnapshotSection(s, a, prev, ids, r0s, r1s, failed, FetchAll(answers));
  }

  method CompareTurn(s: UniswapV2System, l: Locals, w: Whitelist, answers: seq<FetchInput>,
                     ghost a: System, ghost foreign: set<BigInt>)
    returns (l': Locals, ghost more: set<BigInt>)
    requires Linked(s, l, w, a, foreign) && TablesOk(a) && a.reconciler.Snapped? && |answers| == |a.reconciler.ids|
    ensures Reached(s, l', w, a, [SecondSnapshot(FetchAll(answers))], foreign + more)
  {
    var changes := Choose(s, l.reconciler.prev, l.reconciler.ids, answers, a);
    more := (set c | c in changes :: c.reserve0) + (set c | c in changes :: c.reserve1);
    l' := l.(reconciler := if changes == [] then Asleep else Picked(changes));
    CompareMoves(s, l, w, FetchAll(answers), changes, a, foreign, more);
  }

  method OverwriteTurn(s: UniswapV2System, l: Locals, w: Whitelist, ghost a: System, ghost foreign: set<BigInt>)
    returns (l': Locals, gone: seq<uint64>)
    requires Linked(s, l, w, a, foreign) && Enabled(a, Overwrite)
    modifies s`cachedView, s.registry.Objects()
    ensures gone == Missing(a.rows, ChosenChanges(a.reconciler))
    ensures Reached(s, l', w, a, [Overwrite, Release], foreign)
    ensures s.registry.Objects() == old(s.registry.Objects())
  {
    ghost var r := a.reconciler;
    gone := OverwriteSection(s, a, l.reconciler.changes, Select(r.prev, r.cur, r.ids, r.fetched), foreign);
    l' := l.(reconciler := Asleep);
    ReconcileEnds(a);
    ReconcilerMoved(l, l', w, a, Exec(a, [Overwrite, Release]), foreign);
  }

  // ---- the pruner and outside callers ----

  lemma PrunerMoved(l: Locals, l': Locals, w: Whitelist, a: System, e: System, foreign: set<BigInt>)
    requires Carries(l, w, a, foreign) && SameButPruner(a, e)
    requires l' == l.(pruner := l'.pruner) && PrunerKeeps(l'.pruner, e.pruner)
    ensures Carries(l', w, e, foreign)
  {
  }

  lemma SingleMoves(l: Locals, w: Whitelist, a: System, id: uint64, foreign: set<BigInt>)
    requires Carries(l, w, a, foreign) && a.lock == Unlocked
    ensures ValidRun(a, [DeleteOne(id), Release]) && Carries(l, w, Exec(a, [DeleteOne(id), Release]), foreign)
  {
    DeletionMoves(l, w, a, DeleteOne(id), [id], foreign);
  }

  /** A deletion concerns no process but the pruner, and that only when it is the pruner's own. */
  lemma DeletionMoves(l: Locals, w: Whitelist, a: System, step: Step, ids: seq<uint64>, foreign: set<BigInt>)
    requires Carries(l, w, a, foreign) && Enabled(a, step) && Deletes(a, step, ids)
    ensures ValidRun(a, [step, Release])
    ensures Carries(if step.Prune? then l.(pruner := Still) else l, w, Exec(a, [step, Release]), foreign)
  {
    DeletionEnds(a, step, ids);
  }

  lemma MarkMoves(s: UniswapV2System, l: Locals, w: Whitelist, addressOf: map<uint64, Address>, blocked: set<Address>,
                  a: System, foreign: set<BigInt>)
    requires Linked(s, l, w, a, foreign) && Enabled(a, SelectBlocked(addressOf, blocked))
    ensures var ids := BlockedIds(a.view, addressOf, blocked);
            Linked(s, l.(pruner := if ids == [] then Still else Marked(ids)), w,
                   Do(a, SelectBlocked(addressOf, blocked)), foreign)
  {
    var ids := BlockedIds(a.view, addressOf, blocked);
    PrunerMoved(l, l.(pruner := if ids == [] then Still else Marked(ids)), w, a,
                Do(a, SelectBlocked(addressOf, blocked)), foreign);
  }

  lemma PruneMoves(l: Locals, w: Whitelist, a: System, foreign: set<BigInt>)
    requires Carries(l, w, a, foreign) && a.lock == Unlocked && a.pruner.Selected?
    ensures ValidRun(a, [Prune, Release]) && Carries(l.(pruner := Still), w, Exec(a, [Prune, Release]), foreign)
  {
    DeletionMoves(l, w, a, Prune, l.pruner.ids, foreign);
  }

  method MarkTurn(s: UniswapV2System, l: Locals, w: Whitelist, addressOf: map<uint64, Address>, blocked: set<Address>,
                  ghost a: System, ghost foreign: set<BigInt>)
    returns (l': Locals)
    requires Linked(s, l, w, a, foreign) && a.pruner == Quiet && a.view != []
    ensures Reached(s, l', w, a, [SelectBlocked(addressOf, blocked)], foreign)
  {
    OneStep(a, SelectBlocked(addressOf, blocked));
    var ids := SelectBlockedSection(s, a, addressOf, blocked);
    l' := l.(pruner := if ids == [] then Still else Marked(ids));
    MarkMoves(s, l, w, addressOf, blocked, a, foreign);
  }

  method PruneTurn(s: UniswapV2System, l: Locals, w: Whitelist, ghost a: System, ghost foreign: set<BigInt>)
    returns (l': Locals, flags: Option<seq<bool>>)
    requires Linked(s, l, w, a, foreign) && a.pruner.Selected?
    modifies s`cachedView, s.registry
    ensures flags == DeletionReply(a.rows, BlockedIds(a.pruner.snapshot, a.pruner.addressOf, a.pruner.blocked))
    ensures Reached(s, l', w, a, [Prune, Release], foreign)
    ensures s.registry.Objects() <= old(s.registry.Objects())
  {
    flags := DeleteManySection(s, a, l.pruner.ids, Prune, foreign);
    PruneMoves(l, w, a, foreign);
    l' := l.(pruner := Still);
  }

  method DeleteTurn(s: UniswapV2System, l: Locals, w: Whitelist, id: uint64,
                    ghost a: System, ghost foreign: set<BigInt>)
    returns (ok: bool)
    requires Linked(s, l, w, a, foreign)
    modifies s`cachedView, s.registry
    ensures ok == Has(a.rows, id)
    ensures Reached(s, l, w, a, [DeleteOne(id), Release], foreign)
    ensures s.registry.Objects() <= old(s.registry.Objects())
  {
    ok := DeleteSection(s, a, id, foreign);
    SingleMoves(l, w, a, id, foreign);
  }

  method DeleteManyTurn(s: UniswapV2System, l: Locals, w: Whitelist, ids: seq<uint64>,
                        ghost a: System, ghost foreign: set<BigInt>)
    returns (flags: Option<seq<bool>>)
    requires Linked(s, l, w, a, foreign)
    modifies s`cachedView, s.registry
    ensures flags == DeletionReply(a.rows, ids)
    ensures Reached(s, l, w, a, [DeleteMany(ids), Release], foreign)
    ensures s.registry.Objects() <= old(s.registry.Objects())
  {
    DeletionMoves(l, w, a, DeleteMany(ids), ids, foreign);
    flags := DeleteManySection(s, a, ids, DeleteMany(ids), foreign);
  }

  // ---- any schedule ----

  /** One turn. Numbers held outside the registry keep their values, and more may join them. */
  method Act(s: UniswapV2System, l: Locals, w: Whitelist, action: Action, ghost a: System, ghost foreign: set<BigInt>)
    returns (l': Locals, told: Told, ghost steps: seq<Step>, ghost foreign': set<BigInt>)
    requires Linked(s, l, w, a, foreign) && TablesOk(a)
    modifies s, s.registry, s.registry.Objects()
    ensures Performs(a, action, steps) && Reached(s, l', w, a, steps, foreign') && told == Hears(a, action)
    ensures foreign <= foreign'
    ensures forall o :: o in s.registry.Objects() ==> o in old(s.registry.Objects()) || fresh(o)
  {
    l', told, steps, foreign' := l, Silent, [], foreign;
    DueExactly(s, l, w, action, a, foreign);
    if MayAct(s, l, w, action) {
      ghost var more;
      if action.Feeds() {
        l', told, steps, more := Feed(s, l, w, action, a, foreign);
      } else {
        l', told, steps, more := Tend(s, l, w, action, a, foreign);
      }
      foreign' := foreign + more;
    }
  }

  /** The listener's and the initializer's actions. */
  method Feed(s: UniswapV2System, l: Locals, w: Whitelist, action: Action, ghost a: System, ghost foreign: set<BigInt>)
    returns (l': Locals, told: Told, ghost steps: seq<Step>, ghost more: set<BigInt>)
    requires Linked(s, l, w, a, foreign) && action.Feeds() && Due(a, action)
    modifies s, s.registry, s.registry.Objects()
    ensures Takes(action, steps) && Reached(s, l', w, a, steps, foreign + more) && told == Hears(a, action)
    ensures forall o :: o in s.registry.Objects() ==> o in old(s.registry.Objects()) || fresh(o)
  {
    ghost var step;
    told, more := Silent, {};
    assert foreign + more == foreign;
    match action
    case SkipBlock(number) => l' := SkipTurn(s, l, w, number, a, foreign); steps := [Skip(number)];
    case FailBlock(number) => l' := FailTurn(s, l, w, number, a, foreign); steps := [Fail(number)];
    case ReadBlock(number, logs) => l', step, more := ReadTurn(s, l, w, number, logs, a, foreign); steps := [step];
    case HandleBlock(updateIDs, discoverIDs, blocked) =>
      l' := HandleTurn(s, l, w, updateIDs, discoverIDs, blocked, a, foreign);
      steps := [ApplyBlock(updateIDs, discoverIDs, blocked), StoreLast, Release];
    case TakeQueue => l', step := TakeTurn(s, l, w, a, foreign); steps := [step];
    case AbandonBatch => l' := AbandonBatchTurn(s, l, w, a, foreign); steps := [DropBatch];
    case CallInitializer(inputs) => l', more := CallTurn(s, l, w, inputs, a, foreign); steps := [Initialize(inputs)];
    case FinishBatch(reg, env) =>
      var errs;
      l', errs := FinishTurn(s, l, w, reg, env, a, foreign);
      told, steps := InitErrs(errs), [ApplyInits(reg, env), Release];
  }

  /** The reconciler's, the pruner's and outside callers' actions. */
  method Tend(s: UniswapV2System, l: Locals, w: Whitelist, action: Action, ghost a: System, ghost foreign: set<BigInt>)
    returns (l': Locals, told: Told, ghost steps: seq<Step>, ghost more: set<BigInt>)
    requires Linked(s, l, w, a, foreign) && TablesOk(a) && !action.Feeds() && Due(a, action)
    modifies s, s.registry, s.registry.Objects()
    ensures Takes(action, steps) && Reached(s, l', w, a, steps, foreign + more) && told == Hears(a, action)
    ensures forall o :: o in s.registry.Objects() ==> o in old(s.registry.Objects()) || fresh(o)
  {
    l', told, more := l, Silent, {};
    assert foreign + more == foreign;
    match action
    case LookAround(addressOf) =>
      more := ViewObjects(s.cachedView);
      l' := LookTurn(s, l, w, addressOf, a, foreign);
      steps := [FirstSnapshot(addressOf)];
    case AbandonCycle => l' := AbandonCycleTurn(s, l, w, a, foreign); steps := [GiveUp];
    case Compare(answers) =>
      l', more := CompareTurn(s, l, w, answers, a, foreign);
      steps := [SecondSnapshot(FetchAll(answers))];
    case OverwriteChosen =>
      var gone;
      l', gone := OverwriteTurn(s, l, w, a, foreign);
      told, steps := Gone(gone), [Overwrite, Release];
    case MarkBlocked(addressOf, blocked) =>
      l' := MarkTurn(s, l, w, addressOf, blocked, a, foreign);
      steps := [SelectBlocked(addressOf, blocked)];
    case PruneMarked =>
      var flags;
      l', flags := PruneTurn(s, l, w, a, foreign);
      told, steps := DeletedMany(flags), [Prune, Release];
    case DeletePool(id) =>
      var ok := DeleteTurn(s, l, w, id, a, foreign);
      told, steps := Deleted(ok), [DeleteOne(id), Release];
    case DeletePools(ids) =>
      var flags := DeleteManyTurn(s, l, w, ids, a, foreign);
      told, steps := DeletedMany(flags), [DeleteMany(ids), Release];
  }

  /**
   What a schedule does to the machine, and what it tells whom: each turn performs its action where the
   one before it ended.
   */
  ghost predicate Follows(a: System, actions: seq<Action>, runs: seq<seq<Step>>, told: seq<Told>)
    decreases |actions|
  {
    && |runs| == |told| == |actions|
    && (actions == [] ||
        (&& Performs(a, actions[0], runs[0]) && ValidRun(a, runs[0]) && told[0] == Hears(a, actions[0])
         && Follows(Exec(a, runs[0]), actions[1..], runs[1..], told[1..])))
  }

  function Flat(runs: seq<seq<Step>>): seq<Step> {
    if runs == [] then [] else runs[0] + Flat(runs[1..])
  }

  lemma FollowsOn(a: System, actions: seq<Action>, steps: seq<Step>, rest: seq<seq<Step>>, told: seq<Told>)
    requires actions != [] && Performs(a, actions[0], steps) && ValidRun(a, steps)
    requires Follows(Exec(a, steps), actions[1..], rest, told) && ValidRun(Exec(a, steps), Flat(rest))
    ensures Follows(a, actions, [steps] + rest, [Hears(a, actions[0])] + told)
    ensures ValidRun(a, Flat([steps] + rest)) && Exec(a, Flat([steps] + rest)) == Exec(Exec(a, steps), Flat(rest))
  {
    assert ([steps] + rest)[1..] == rest && ([Hears(a, actions[0])] + told)[1..] == told;
    Join(a, steps, Flat(rest));
  }

  /** Any number of turns, in any order. */
  method RunAll(s: UniswapV2System, l: Locals, w: Whitelist, actions: seq<Action>,
                ghost a: System, ghost foreign: set<BigInt>)
    returns (l': Locals, told: seq<Told>, ghost runs: seq<seq<Step>>, ghost foreign': set<BigInt>)
    requires Linked(s, l, w, a, foreign) && TablesOk(a)
    modifies s, s.registry, s.registry.Objects()
    ensures Follows(a, actions, runs, told) && Reached(s, l', w, a, Flat(runs), foreign')
    ensures foreign <= foreign' && forall o :: o in foreign ==> o.value == old(o.value)
    ensures forall o :: o in s.registry.Objects() ==> o in old(s.registry.Objects()) || fresh(o)
    decreases |actions|
  {
    if actions == [] {
      return l, [], [], foreign;
    }
    var heard, later;
    ghost var steps, rest, mid;
    l', heard, steps, mid := Act(s, l, w, actions[0], a, foreign);
    RunKeepsTables(a, steps);
    l', later, rest, foreign' := RunAll(s, l', w, actions[1..], Exec(a, steps), mid);
    told, runs := [heard] + later, [steps] + rest;
    FollowsOn(a, actions, steps, rest, later);
  }

  /** A new system over a well-formed registry, its processes at rest. */
  method Boot(registry: Registry, w: Whitelist) returns (s: UniswapV2System)
    requires registry.Valid()
    ensures fresh(s) && s.registry == registry && registry.Rows() == old(registry.Rows())
    ensures Linked(s, AT_REST, w, Start(w, registry.Rows()), {}) && Safe(Start(w, registry.Rows()), registry.Rows())
  {
    s := new UniswapV2System(registry);
    registry.IndexedFinds(0);
    ReachableIsSafe(w, registry.Rows(), []);
  }

  method CopyView(s: UniswapV2System, ghost l: Locals, ghost w: Whitelist, ghost a: System, ghost foreign: set<BigInt>)
    returns (view: seq<PoolView>)
    requires Linked(s, l, w, a, foreign)
    ensures Reads(view, a.view) && Linked(s, l, w, a, foreign + ViewObjects(view))
  {
    view := s.View();
    Brought(s, l, w, a, foreign, ViewObjects(view));
  }

  /** A reader copies the published view; through any schedule it goes on reading what was published then. */
  method RunWhileReading(s: UniswapV2System, l: Locals, w: Whitelist, actions: seq<Action>,
                         ghost a: System, ghost foreign: set<BigInt>)
    returns (view: seq<PoolView>, l': Locals, told: seq<Told>, ghost runs: seq<seq<Step>>, ghost foreign': set<BigInt>)
    requires Linked(s, l, w, a, foreign) && TablesOk(a)
    modifies s, s.registry, s.registry.Objects()
    ensures Follows(a, actions, runs, told) && Reached(s, l', w, a, Flat(runs), foreign')
    ensures Reads(view, a.view)
  {
    view := CopyView(s, l, w, a, foreign);
    l', told, runs, foreign' := RunAll(s, l, w, actions, a, foreign + ViewObjects(view));
  }

  /**
   A whole execution: from a registry, through any schedule, a reader's copy of the published view, and
   any schedule after it. The heap ends where the machine does, in a safe state, and the reader still
   sees what the machine had published when the copy was made, whatever has been written since.
   */
  method Execute(registry: Registry, w: Whitelist, before: seq<Action>, after: seq<Action>)
    returns (s: UniswapV2System, view: seq<PoolView>, l: Locals, told: seq<Told>, toldLater: seq<Told>,
             ghost first: seq<seq<Step>>, ghost second: seq<seq<Step>>, ghost foreign: set<BigInt>)
    requires registry.Valid()
    modifies registry, registry.Objects()
    ensures var a := Start(w, old(registry.Rows()));
            && Follows(a, before, first, told) && ValidRun(a, Flat(first))
            && var mid := Exec(a, Flat(first));
               && Follows(mid, after, second, toldLater) && Reached(s, l, w, mid, Flat(second), foreign)
               && Reads(view, mid.view) && mid.lock == Unlocked
               && mid.viewBlock <= Exec(mid, Flat(second)).viewBlock
               && Safe(Exec(mid, Flat(second)), old(registry.Rows()))
  {
    s := Boot(registry, w);
    ghost var restored := registry.Rows();
    ghost var a := Start(w, restored);
    l, told, first, foreign := RunAll(s, AT_REST, w, before, a, {});
    RunKeepsSafe(a, Flat(first), restored);
    ghost var mid := Exec(a, Flat(first));
    view, l, toldLater, second, foreign := RunWhileReading(s, l, w, after, mid, foreign);
    RunKeepsSafe(mid, Flat(second), restored);
  }
}
