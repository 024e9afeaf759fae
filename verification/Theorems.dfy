/** What the safe states give: the promises a caller of the system can read off. */
module Theorems {
  import opened Deletions
  import opened Initializations
  import opened Initializer
  import opened Logs
  import opened Protocol
  import opened Reconciliation
  import opened Reserves
  import opened Runs
  import opened Tables
  import opened Types
  import opened Updates

  /**
   At every lock release of every run the registry holds each pool once, the published view is the
   registry's own, the stored block number is the latest block skipped or applied, and the block
   behind the view does not exceed it.
   */
  lemma QuietStateIsCoherent(w: Whitelist, restored: Table, steps: seq<Step>)
    requires Distinct(restored) && ValidRun(Start(w, restored), steps)
    ensures var e := Exec(Start(w, restored), steps);
            && Distinct(e.rows)
            && e.viewBlock <= e.last
            && (e.lock == Unlocked ==> e.view == e.rows && e.last == Latest(e.handled) && e.viewBlock == e.rowsBlock)
  {
    ReachableIsSafe(w, restored, steps);
  }

  /** Over any run the stored number and the block behind the published view never fall. */
  lemma ViewsNeverGoBack(w: Whitelist, restored: Table, first: seq<Step>, second: seq<Step>)
    requires Distinct(restored) && ValidRun(Start(w, restored), first)
    requires ValidRun(Exec(Start(w, restored), first), second)
    ensures var m := Exec(Start(w, restored), first);
            var e := Exec(m, second);
            m.viewBlock <= e.viewBlock <= e.last && m.last <= e.last
  {
    ReachableIsSafe(w, restored, first);
    RunKeepsSafe(Exec(Start(w, restored), first), second, restored);
  }

  // ---- a discovered pool ----

  /**
   A block's effect on the queue, from its logs: an address waits afterwards exactly when it did before,
   or emitted a log whose first topic is the Swap event and is neither blocked nor known to the registrar.
   */
  lemma DiscoveredIsQueued(s: System, block: Step, apply: Step, a: Address)
    requires block.Parse? && Enabled(s, block) && apply.ApplyBlock? && Enabled(Do(s, block), apply)
    ensures a in Do(Do(s, block), apply).pending
       <==> || a in s.pending
            || (&& (exists rest, data :: Log(a, [SwapEvent] + rest, data) in block.logs)
                && a !in apply.blocked && a !in apply.discoverIDs)
  {
    SwapsDiscovered(block.logs, block.discovered);
  }

  // ---- the block stream ----

  /** The number a step takes from the stream. */
  function Taken(step: Step): seq<uint64> {
    match step
    case Skip(n) => [n]
    case Fail(n) => [n]
    case Parse(n, _, _, _) => [n]
    case _ => []
  }

  function TakenBy(steps: seq<Step>): seq<uint64> {
    if steps == [] then [] else Taken(steps[0]) + TakenBy(steps[1..])
  }

  lemma StepTakes(s: System, step: Step)
    requires Enabled(s, step)
    ensures Do(s, step).received == s.received + Taken(step)
  {
    assert s.received + [] == s.received;
  }

  lemma Regrouped(a: seq<uint64>, b: seq<uint64>, c: seq<uint64>)
    ensures (a + b) + c == a + (b + c)
  {
  }

  /** Every block is taken once, whether it is skipped, fails or is parsed, and nothing else is recorded as taken. */
  lemma {:induction false} TakenExact(s: System, steps: seq<Step>)
    requires ValidRun(s, steps)
    ensures Exec(s, steps).received == s.received + TakenBy(steps)
    decreases |steps|
  {
    if steps != [] {
      StepTakes(s, steps[0]);
      TakenExact(Do(s, steps[0]), steps[1..]);
      Regrouped(s.received, Taken(steps[0]), TakenBy(steps[1..]));
    }
  }

  // ---- a reconciler that gives up ----

  /** A reconciler that gives up after its first snapshot has changed nothing and can start over. */
  lemma GivenUp(s: System, addressOf: map<uint64, Address>)
    requires Enabled(s, GiveUp) && s.lock == Unlocked && s.view != []
    ensures Do(s, GiveUp) == s.(reconciler := Resting) && Enabled(Do(s, GiveUp), FirstSnapshot(addressOf))
  {
  }

  // ---- a drained batch ----

  /** The initializer is at work on this batch. */
  predicate WorkingOn(p: InitPhase, batch: seq<Address>) {
    match p case NoBatch => false case Drained(b) => b == batch case Returned(b, _) => b == batch
  }

  /** The steps at which the initializer is done with its batch. */
  predicate Settles(step: Step) {
    step.DropBatch? || step.ApplyInits?
  }

  /** How many steps pass before the next such step; all of them when there is none. */
  function UntilSettled(steps: seq<Step>): (j: nat)
    ensures j <= |steps| && (j < |steps| ==> Settles(steps[j]))
    ensures forall i :: 0 <= i < j ==> !Settles(steps[i])
  {
    if steps == [] || Settles(steps[0]) then 0 else 1 + UntilSettled(steps[1..])
  }

  /** Still at work on the same batch, with nothing drained, applied or dropped since `s`. */
  ghost predicate StillWorking(s: System, m: System, batch: seq<Address>) {
    LedgerOk(m) && WorkingOn(m.initializer, batch) && m.ledger.(enqueued := s.ledger.enqueued) == s.ledger
  }

  lemma FlightStep(s: System, batch: seq<Address>, step: Step)
    requires LedgerOk(s) && WorkingOn(s.initializer, batch) && Enabled(s, step) && !Settles(step)
    ensures !step.Drain? && StillWorking(s, Do(s, step), batch)
  {
    StepKeepsLedger(s, step);
  }

  lemma UntilSettledNext(steps: seq<Step>)
    requires steps != [] && !Settles(steps[0])
    ensures UntilSettled(steps) == 1 + UntilSettled(steps[1..])
    ensures steps[..UntilSettled(steps)] == [steps[0]] + steps[1..][..UntilSettled(steps[1..])]
  {
  }

  lemma {:induction false} FlightLasts(s: System, batch: seq<Address>, steps: seq<Step>)
    requires LedgerOk(s) && WorkingOn(s.initializer, batch) && ValidRun(s, steps)
    ensures var j := UntilSettled(steps);
            && ValidRun(s, steps[..j]) && StillWorking(s, Exec(s, steps[..j]), batch)
            && (j < |steps| ==> Enabled(Exec(s, steps[..j]), steps[j]))
    decreases |steps|
  {
    if UntilSettled(steps) == 0 {
      assert steps[..0] == [];
    } else {
      FlightStep(s, batch, steps[0]);
      FlightLasts(Do(s, steps[0]), batch, steps[1..]);
      UntilSettledNext(steps);
      Prepend(s, steps[0], steps[1..][..UntilSettled(steps[1..])]);
    }
  }

  /** Nothing is drained while a batch is in flight. */
  lemma {:induction false} FlightAlone(s: System, batch: seq<Address>, steps: seq<Step>, i: nat)
    requires LedgerOk(s) && WorkingOn(s.initializer, batch) && ValidRun(s, steps) && i < UntilSettled(steps)
    ensures !steps[i].Drain?
    decreases |steps|
  {
    FlightStep(s, batch, steps[0]);
    if i > 0 {
      UntilSettledNext(steps);
      FlightAlone(Do(s, steps[0]), batch, steps[1..], i - 1);
    }
  }

  /**
   The fate of a drained batch, in any run. Until the initializer is done with it, it stays whole and no
   other batch is drained; the first step that is done with it drops all of it or applies all of it, each
   address applied being counted as a success or reported; if the run has no such step it is still in flight.
   */
  lemma BatchFate(s: System, batch: seq<Address>, rest: seq<Step>)
    requires LedgerOk(s) && Enabled(s, Drain(batch)) && ValidRun(Do(s, Drain(batch)), rest)
    ensures var d, j := Do(s, Drain(batch)), UntilSettled(rest);
            && ValidRun(d, rest[..j]) && (forall i :: 0 <= i < j ==> !rest[i].Drain?)
            && var m := Exec(d, rest[..j]);
               && WorkingOn(m.initializer, batch)
               && m.ledger.applied == s.ledger.applied && m.ledger.dropped == s.ledger.dropped
               && (j < |rest| ==>
                     && Enabled(m, rest[j])
                     && var e := Do(m, rest[j]);
                        && e.initializer == NoBatch
                        && e.ledger.applied
                           == s.ledger.applied + (if rest[j].ApplyInits? then multiset(batch) else multiset{})
                        && e.ledger.dropped
                           == s.ledger.dropped + (if rest[j].DropBatch? then multiset(batch) else multiset{})
                        && e.ledger.credited + e.ledger.reported == e.ledger.applied)
  {
    StepKeepsLedger(s, Drain(batch));
    FlightLasts(Do(s, Drain(batch)), batch, rest);
    var j := UntilSettled(rest);
    forall i | 0 <= i < j ensures !rest[i].Drain?
    {
      FlightAlone(Do(s, Drain(batch)), batch, rest, i);
    }
    if j < |rest| {
      StepKeepsLedger(Exec(Do(s, Drain(batch)), rest[..j]), rest[j]);
    }
  }

  // ---- identity of a pool over its life ----

  ghost predicate Kept(t: Table, u: Table, x: uint64) {
    Has(t, x) && Has(u, x) ==> SameStatics(Get(t, x).value, Get(u, x).value)
  }

  lemma ShapeKeeps(t: Table, u: Table, x: uint64)
    requires SameShape(t, u)
    ensures Has(t, x) <==> Has(u, x)
    ensures Kept(t, u, x)
  {
    ShapeKeepsFind(t, u, x);
    if Has(t, x) {
      assert SameStatics(t[Find(t, x)], u[Find(t, x)]);
    }
  }

  /**
   Only the initializer's apply step brings an ID in, only the three deletion steps take one out, and
   no step changes the tokens, type or fee of a pool that is there before and after.
   */
  lemma StepIdentity(s: System, step: Step, x: uint64)
    requires TablesOk(s) && Enabled(s, step)
    ensures !Has(s.rows, x) && Has(Do(s, step).rows, x) ==> step.ApplyInits?
    ensures Has(s.rows, x) && !Has(Do(s, step).rows, x) ==> step.Prune? || step.DeleteOne? || step.DeleteMany?
    ensures Kept(s.rows, Do(s, step).rows, x)
  {
    match step
    case ApplyBlock(updateIDs, _, _) =>
      BatchShape(s.rows, s.listener.updates, updateIDs);
      ShapeKeeps(s.rows, Do(s, step).rows, x);
    case Overwrite =>
      var r := s.reconciler;
      ChangesShape(s.rows, Select(r.prev, r.cur, r.ids, r.fetched));
      ShapeKeeps(s.rows, Do(s, step).rows, x);
    case ApplyInits(reg, env) => if Has(s.rows, x) { InitIdentity(s, reg, env, x); }
    case Prune => DeleteAllGet(s.rows, BlockedIds(s.pruner.snapshot, s.pruner.addressOf, s.pruner.blocked), x);
    case DeleteOne(id) => DeleteAllGet(s.rows, [id], x);
    case DeleteMany(ids) => DeleteAllGet(s.rows, ids, x);
    case _ =>
  }

  lemma InitIdentity(s: System, reg: Registration, env: Lookups, x: uint64)
    requires TablesOk(s) && Enabled(s, ApplyInits(reg, env)) && Has(s.rows, x)
    ensures Get(Do(s, ApplyInits(reg, env)).rows, x) == Get(s.rows, x)
  {
    var items := ReadyItems(s);
    HonestBatch(s.rows, items, reg, env, |items|);
    var u := Do(s, ApplyInits(reg, env)).rows;
    assert u[Find(s.rows, x)] == s.rows[Find(s.rows, x)];
    FindUnique(u, Find(s.rows, x));
  }

  /** The pool is in the registry in every state of the run. */
  ghost predicate AlwaysThere(s: System, steps: seq<Step>, x: uint64)
    requires ValidRun(s, steps)
    decreases |steps|
  {
    Has(s.rows, x) && (steps == [] || AlwaysThere(Do(s, steps[0]), steps[1..], x))
  }

  /** From one deletion to the next, whatever moves its row around, a pool keeps its tokens, type and fee. */
  lemma {:induction false} IdentityUntilDeletion(s: System, steps: seq<Step>, restored: Table, x: uint64)
    requires Safe(s, restored) && ValidRun(s, steps) && AlwaysThere(s, steps, x)
    ensures Has(Exec(s, steps).rows, x)
    ensures SameStatics(Get(s.rows, x).value, Get(Exec(s, steps).rows, x).value)
    decreases |steps|
  {
    if steps != [] {
      StepIdentity(s, steps[0], x);
      RunKeepsSafe(s, [steps[0]], restored);
      OneStep(s, steps[0]);
      IdentityUntilDeletion(Do(s, steps[0]), steps[1..], restored, x);
    }
  }

  // ---- reconciler ----

  /**
   Whatever ran since its snapshots, the reconciler's overwrite leaves every pool in its place with
   its own identity, and writes a pool exactly when its reserves agreed between the two snapshots and
   the fetch succeeded with something else.
   */
  lemma OverwriteInAnyRun(s: System, x: uint64)
    requires TablesOk(s) && Enabled(s, Overwrite)
    ensures var r := s.reconciler;
            && SameShape(s.rows, Do(s, Overwrite).rows)
            && (Has(s.rows, x) && Writes(r.prev, r.cur, r.ids, r.fetched, x) ==>
                  var p := FetchedFor(r.ids, r.fetched, x).value;
                  Get(Do(s, Overwrite).rows, x) == Some(Get(s.rows, x).value.WithReserves(p.reserve0, p.reserve1)))
            && (!Writes(r.prev, r.cur, r.ids, r.fetched, x) ==> Get(Do(s, Overwrite).rows, x) == Get(s.rows, x))
            && (Get(r.prev, x).None? || Get(r.cur, x).None?
                || Get(r.prev, x).value.reserve0 != Get(r.cur, x).value.reserve0
                || Get(r.prev, x).value.reserve1 != Get(r.cur, x).value.reserve1 ==>
                  Get(Do(s, Overwrite).rows, x) == Get(s.rows, x))
  {
    var r := s.reconciler;
    CycleExact(s.rows, r.prev, r.cur, r.ids, r.fetched, x);
  }

  /** The steps of a cycle that nothing interrupts. */
  function CycleSteps(t: Table, addressOf: map<uint64, Address>, fetched: seq<FetchSlot>): seq<Step>
    requires |fetched| == |Resolvable(t, addressOf)|
  {
    [FirstSnapshot(addressOf), SecondSnapshot(fetched)]
    + if Select(t, t, Resolvable(t, addressOf), fetched) == [] then [] else [Overwrite, Release]
  }

  /** The overwrite and the release after it, from a state that has chosen something to write. */
  lemma OverwriteEnds(s: System)
    requires s.lock == Unlocked && s.viewBlock == s.rowsBlock && Enabled(s, Overwrite)
    ensures ValidRun(s, [Overwrite, Release])
    ensures var r := s.reconciler;
            var u := ApplyChanges(s.rows, Select(r.prev, r.cur, r.ids, r.fetched));
            Exec(s, [Overwrite, Release]) == s.(rows := u, view := u, reconciler := Resting)
  {
    OneStep(Do(s, Overwrite), Release);
    Prepend(s, Overwrite, [Release]);
    assert [Overwrite] + [Release] == [Overwrite, Release];
  }

  /** An uninterrupted cycle runs to its end and changes the rows and the view, nothing else. */
  lemma CycleEnds(s: System, restored: Table, addressOf: map<uint64, Address>, fetched: seq<FetchSlot>)
    requires Safe(s, restored) && s.lock == Unlocked && s.reconciler == Resting && s.rows != []
    requires |fetched| == |Resolvable(s.rows, addressOf)|
    ensures ValidRun(s, CycleSteps(s.rows, addressOf, fetched))
    ensures var u := ApplyChanges(s.rows, Select(s.rows, s.rows, Resolvable(s.rows, addressOf), fetched));
            Exec(s, CycleSteps(s.rows, addressOf, fetched)) == s.(rows := u, view := u)
  {
    var ids := Resolvable(s.rows, addressOf);
    var look := [FirstSnapshot(addressOf), SecondSnapshot(fetched)];
    TwoSteps(s, look[0], look[1]);
    if Select(s.rows, s.rows, ids, fetched) == [] {
      assert CycleSteps(s.rows, addressOf, fetched) == look;
    } else {
      OverwriteEnds(s.(reconciler := Chosen(s.rows, s.rows, ids, fetched)));
      Join(s, look, [Overwrite, Release]);
    }
  }

  /** Running the cycle again with the same answers is no change at all. */
  lemma CycleAgain(s: System, restored: Table, addressOf: map<uint64, Address>, fetched: seq<FetchSlot>)
    requires Safe(s, restored) && s.lock == Unlocked && s.reconciler == Resting && s.rows != []
    requires |fetched| == |Resolvable(s.rows, addressOf)|
    requires Select(s.rows, s.rows, Resolvable(s.rows, addressOf), fetched) == []
    ensures CycleSteps(s.rows, addressOf, fetched) == [FirstSnapshot(addressOf), SecondSnapshot(fetched)]
    ensures ValidRun(s, CycleSteps(s.rows, addressOf, fetched)) && Exec(s, CycleSteps(s.rows, addressOf, fetched)) == s
  {
    CycleEnds(s, restored, addressOf, fetched);
  }

  /**
   An uninterrupted cycle, from any quiet state, against a chain that answers for addresses: it runs to
   its end; every pool whose address is known and answered for holds the chain's reserves for that very
   address, in the registry and in the published view; the others keep theirs; and running it again
   with the same answers changes nothing.
   */
  lemma CycleOnChain(s: System, restored: Table, addressOf: map<uint64, Address>, fetched: seq<FetchSlot>,
                 chain: map<Address, Pair>)
    requires Safe(s, restored) && s.lock == Unlocked && s.reconciler == Resting && s.rows != []
    requires Truthful(Resolvable(s.rows, addressOf), addressOf, fetched, chain)
    ensures ValidRun(s, CycleSteps(s.rows, addressOf, fetched))
    ensures var e := Exec(s, CycleSteps(s.rows, addressOf, fetched));
            && e.lock == Unlocked && e.reconciler == Resting && e.view == e.rows && |e.rows| == |s.rows|
            && (forall i :: 0 <= i < |s.rows| ==> e.rows[i] == ChainRow(s.rows[i], addressOf, chain))
            && |fetched| == |Resolvable(e.rows, addressOf)|
            && ValidRun(e, CycleSteps(e.rows, addressOf, fetched))
            && Exec(e, CycleSteps(e.rows, addressOf, fetched)) == e
  {
    CycleEnds(s, restored, addressOf, fetched);
    CycleConverges(s.rows, addressOf, fetched);
    var e := Exec(s, CycleSteps(s.rows, addressOf, fetched));
    RunKeepsSafe(s, CycleSteps(s.rows, addressOf, fetched), restored);
    CycleAgain(e, restored, addressOf, fetched);
    forall i | 0 <= i < |s.rows| ensures e.rows[i] == ChainRow(s.rows[i], addressOf, chain)
    {
      FindUnique(s.rows, i);
      FetchAligned(s.rows, addressOf, fetched, chain, s.rows[i].id);
    }
  }

  /** The record with the reserves that its own address's answer decodes to, or as it was. */
  function FetchedRow(p: Pool, addressOf: map<uint64, Address>, ask: Address -> FetchInput): Pool {
    if p.id !in addressOf || ask(addressOf[p.id]).cancelled then p
    else match DecodeReserves(ask(addressOf[p.id]).answer)
      case None => p
      case Some(r) => Pool(p.id, p.token0, p.token1, r.reserve0, r.reserve1, p.poolType, p.fee)
  }

  /**
   An uninterrupted cycle with the fetcher in its midst, from any quiet state: each pool ends on the
   reserves that the answer for its own address decodes to, in registry and view, or on its own where
   its address is unknown, the context was cancelled or the answer does not decode; and the same cycle
   again changes nothing.
   */
  lemma CycleRun(s: System, restored: Table, addressOf: map<uint64, Address>, ask: Address -> FetchInput,
                 inputs: seq<FetchInput>)
    requires Safe(s, restored) && s.lock == Unlocked && s.reconciler == Resting && s.rows != []
    requires |inputs| == |Resolvable(s.rows, addressOf)|
    requires forall k :: 0 <= k < |inputs| ==>
      var id := Resolvable(s.rows, addressOf)[k]; id in addressOf && inputs[k] == ask(addressOf[id])
    ensures var steps := CycleSteps(s.rows, addressOf, FetchAll(inputs));
            ValidRun(s, steps) &&
            var e := Exec(s, steps);
            && e.lock == Unlocked && e.reconciler == Resting && e.view == e.rows && |e.rows| == |s.rows|
            && (forall i :: 0 <= i < |s.rows| ==> e.rows[i] == FetchedRow(s.rows[i], addressOf, ask))
            && |inputs| == |Resolvable(e.rows, addressOf)|
            && ValidRun(e, CycleSteps(e.rows, addressOf, FetchAll(inputs)))
            && Exec(e, CycleSteps(e.rows, addressOf, FetchAll(inputs))) == e
  {
    var chain := ChainOf(s.rows, addressOf, ask, inputs);
    CycleOnChain(s, restored, addressOf, FetchAll(inputs), chain);
  }

  /** What the answers say of the addresses asked. */
  lemma ChainOf(t: Table, addressOf: map<uint64, Address>, ask: Address -> FetchInput, inputs: seq<FetchInput>)
    returns (chain: map<Address, Pair>)
    requires |inputs| == |Resolvable(t, addressOf)|
    requires forall k :: 0 <= k < |inputs| ==>
      var id := Resolvable(t, addressOf)[k]; id in addressOf && inputs[k] == ask(addressOf[id])
    ensures Truthful(Resolvable(t, addressOf), addressOf, FetchAll(inputs), chain)
    ensures forall i :: 0 <= i < |t| ==> ChainRow(t[i], addressOf, chain) == FetchedRow(t[i], addressOf, ask)
  {
    var ids, fetched := Resolvable(t, addressOf), FetchAll(inputs);
    var asked := set id | id in ids && id in addressOf :: addressOf[id];
    chain := map a | a in asked && !ask(a).cancelled && DecodeReserves(ask(a).answer).Some?
                 :: DecodeReserves(ask(a).answer).value;
    forall k | 0 <= k < |ids|
      ensures SlotPair(fetched[k]) == if addressOf[ids[k]] in chain then Some(chain[addressOf[ids[k]]]) else None
    {
      FetchedPair(inputs[k]);
      assert ids[k] in ids;
    }
    forall i | 0 <= i < |t| ensures ChainRow(t[i], addressOf, chain) == FetchedRow(t[i], addressOf, ask)
    {
      ResolvableExact(t, addressOf, t[i].id);
      assert t[i].id in Ids(t);
    }
  }

  /** The record with the chain's reserves for its address, or as it was. */
  function ChainRow(p: Pool, addressOf: map<uint64, Address>, chain: map<Address, Pair>): Pool {
    match OnChain(addressOf, chain, p.id)
    case Some(pair) => p.WithReserves(pair.reserve0, pair.reserve1)
    case None => p
  }

  // ---- pruner ----

  /** In any interleaving, right after the pruner's delete step its selected pools are gone, the others untouched. */
  lemma PruneInAnyRun(s: System, x: uint64)
    requires TablesOk(s) && Enabled(s, Prune)
    ensures var p := s.pruner;
            Get(Do(s, Prune).rows, x)
            == if Has(p.snapshot, x) && x in p.addressOf && p.addressOf[x] in p.blocked then None else Get(s.rows, x)
  {
    PruneRemovesSelected(s.rows, s.pruner.snapshot, s.pruner.addressOf, s.pruner.blocked, x);
  }

  lemma PruneEnds(s: System, restored: Table, addressOf: map<uint64, Address>, blocked: set<Address>)
    requires Safe(s, restored) && s.lock == Unlocked && s.pruner == Quiet
    requires BlockedIds(s.rows, addressOf, blocked) != []
    ensures var steps := [SelectBlocked(addressOf, blocked), Prune, Release];
            var u := DeleteAll(s.rows, BlockedIds(s.rows, addressOf, blocked));
            ValidRun(s, steps) && Exec(s, steps) == s.(rows := u, view := u)
  {
    var ids := BlockedIds(s.rows, addressOf, blocked);
    ThreeSteps(s, SelectBlocked(addressOf, blocked), Prune, Release);
    if false !in DeleteErrors(s.rows, ids) {
      AllFailedUnchanged(s.rows, ids);
    }
  }

  /**
   An uninterrupted prune of a registry that holds a pool whose known address is blocked: afterwards no
   such pool is left in registry or view, every other one is as it was, and the next prune finds nothing.
   */
  lemma PruneRun(s: System, restored: Table, addressOf: map<uint64, Address>, blocked: set<Address>)
    requires Safe(s, restored) && s.lock == Unlocked && s.pruner == Quiet
    requires exists x :: Has(s.rows, x) && x in addressOf && addressOf[x] in blocked
    ensures var steps := [SelectBlocked(addressOf, blocked), Prune, Release];
            ValidRun(s, steps) &&
            var e := Exec(s, steps);
            && e.lock == Unlocked && e.pruner == Quiet && e.view == e.rows
            && (forall i :: 0 <= i < |e.rows| && e.rows[i].id in addressOf ==> addressOf[e.rows[i].id] !in blocked)
            && (forall x ::
                  Get(e.rows, x) == if x in addressOf && addressOf[x] in blocked then None else Get(s.rows, x))
            && (e.view != [] ==> Do(e, SelectBlocked(addressOf, blocked)) == e)
  {
    var x :| Has(s.rows, x) && x in addressOf && addressOf[x] in blocked;
    BlockedIdsExact(s.rows, addressOf, blocked, x);
    PruneEnds(s, restored, addressOf, blocked);
    PrunedTable(s.rows, addressOf, blocked);
    var u := DeleteAll(s.rows, BlockedIds(s.rows, addressOf, blocked));
    NothingSelected(s.(rows := u, view := u), addressOf, blocked);
  }

  lemma NothingSelected(e: System, addressOf: map<uint64, Address>, blocked: set<Address>)
    requires BlockedIds(e.view, addressOf, blocked) == [] && e.lock == Unlocked && e.pruner == Quiet
    ensures e.view != [] ==> Do(e, SelectBlocked(addressOf, blocked)) == e
  {
  }

  lemma PrunedTable(t: Table, addressOf: map<uint64, Address>, blocked: set<Address>)
    requires Distinct(t)
    ensures var u := DeleteAll(t, BlockedIds(t, addressOf, blocked));
            && BlockedIds(u, addressOf, blocked) == []
            && (forall i :: 0 <= i < |u| && u[i].id in addressOf ==> addressOf[u[i].id] !in blocked)
            && (forall x :: Get(u, x) == if x in addressOf && addressOf[x] in blocked then None else Get(t, x))
  {
    PruneConverges(t, addressOf, blocked);
    var u := DeleteAll(t, BlockedIds(t, addressOf, blocked));
    forall x ensures Get(u, x) == if x in addressOf && addressOf[x] in blocked then None else Get(t, x)
    {
      PruneRemovesSelected(t, t, addressOf, blocked, x);
    }
  }

  // ---- a block's update overwritten ----

  /**
   A pool that has moved since the reconciler's second snapshot keeps its row through the overwrite if
   and only if the snapshots and the fetch did not select it, or the fetch is what it holds already.
   */
  lemma MovedSinceExact(s: System, x: uint64)
    requires TablesOk(s) && Enabled(s, Overwrite) && Has(s.rows, x) && Get(s.rows, x) != Get(s.reconciler.cur, x)
    ensures Get(Do(s, Overwrite).rows, x) == Get(s.rows, x)
       <==> (!Writes(s.reconciler.prev, s.reconciler.cur, s.reconciler.ids, s.reconciler.fetched, x)
             || !Differs(Get(s.rows, x).value, FetchedFor(s.reconciler.ids, s.reconciler.fetched, x).value))
  {
    var r := s.reconciler;
    OverwriteExact(s.rows, r.prev, r.cur, r.ids, r.fetched, x);
  }

  /** The one pool of the run below, at address 7, with reserves `r`. */
  function LonePool(r: int): Table {
    [Pool(1, 0, 1, r, r, 0, 30)]
  }

  lemma LonePoolFacts(r: int, r': int)
    ensures Find(LonePool(r), 1) == 0
    ensures Update(LonePool(r), 1, r', r') == LonePool(r')
  {
    FindUnique(LonePool(r), 0);
  }

  /** The reconciler chooses to write 5, having seen 1 in both snapshots. */
  lemma ChoosesFive()
    ensures var fetched := [FetchSlot(Some(5), Some(5), false)];
            && Resolvable(LonePool(1), map[1 := 7]) == [1]
            && Select(LonePool(1), LonePool(1), [1], fetched) == [Change(1, 5, 5)]
  {
    LonePoolFacts(1, 5);
    var t, slot := LonePool(1), FetchSlot(Some(5), Some(5), false);
    assert t[..0] == [] && Resolvable(t[..0], map[1 := 7]) == [];
    assert Get(t, 1) == Some(t[0]) && SelectOne(t, t, 1, slot) == [Change(1, 5, 5)];
    SelectNext(t, t, [1], [slot], 0);
    assert [1 as uint64][..1] == [1] && [slot][..1] == [slot];
  }

  /** The block's logs carry 9 for the pool. */
  lemma BlockSaysNine() returns (logs: seq<Log>)
    ensures IsUpdateBatch(logs, [Sync(7, 9, 9)]) && IsDiscovery(logs, [])
    ensures ApplyBatch(LonePool(1), [Sync(7, 9, 9)], map[7 := 1]) == LonePool(9)
  {
    var log := SomeSync(7, 9);
    logs := [log];
    LoneLog(log, Sync(7, 9, 9));
    LastSync(LonePool(1), [], Sync(7, 9, 9), map[7 := 1], 0);
    assert [] + [Sync(7, 9, 9)] == [Sync(7, 9, 9)];
  }

  lemma LoneLog(log: Log, sync: Sync)
    requires DecodeSync(log) == Some(sync)
    ensures IsUpdateBatch([log], [sync]) && IsDiscovery([log], [])
  {
    assert LastOfPool([log], 0) && [sync][0] in [sync];
  }

  /** The run below, up to the block's release of the lock, and the two steps after it. */
  function UntilBlock(logs: seq<Log>): seq<Step> {
    [FirstSnapshot(map[1 := 7]), SecondSnapshot([FetchSlot(Some(5), Some(5), false)]),
     Parse(1, logs, [Sync(7, 9, 9)], []), ApplyBlock(map[7 := 1], map[7 := 1], {}), StoreLast, Release]
  }

  /**
   The comment in the code promises that newer block data is never overwritten. It can be. The pool
   holds 1 in both snapshots and the fetch says 5; block one then lands with 9, which the registry and
   every reader of the view see; and the reconciler, its choice already made, puts 5 in its place.
   */
  lemma LostUpdate(w: Whitelist) returns (logs: seq<Log>)
    ensures IsUpdateBatch(logs, [Sync(7, 9, 9)]) && IsDiscovery(logs, [])
    ensures var s, block := Start(w, LonePool(1)), UntilBlock(logs);
            && ValidRun(s, block) && ValidRun(s, block + [Overwrite, Release])
            && var m, e := Exec(s, block), Exec(s, block + [Overwrite, Release]);
               && m.lock == Unlocked && m.rows == m.view == LonePool(9) && m.last == m.viewBlock == 1
               && m.reconciler == Chosen(LonePool(1), LonePool(1), [1], [FetchSlot(Some(5), Some(5), false)])
               && e.lock == Unlocked && e.rows == e.view == LonePool(5) && e.last == e.viewBlock == 1
  {
    var fetched := [FetchSlot(Some(5), Some(5), false)];
    ChoosesFive();
    logs := BlockSaysNine();
    LonePoolFacts(9, 5);
    var before := [FirstSnapshot(map[1 := 7]), SecondSnapshot(fetched)];
    var during := [Parse(1, logs, [Sync(7, 9, 9)], []), ApplyBlock(map[7 := 1], map[7 := 1], {}), StoreLast, Release];
    assert before + during == UntilBlock(logs);
    var s0 := Start(w, LonePool(1));
    TwoSteps(s0, before[0], before[1]);
    var s1 := s0.(reconciler := Chosen(LonePool(1), LonePool(1), [1], fetched));
    BlockRun(s1, logs);
    var s2 := s1.(received := [1], handled := [1], rows := LonePool(9), view := LonePool(9),
                  last := 1, rowsBlock := 1, viewBlock := 1);
    Join(s0, before, during);
    assert [Change(1, 5, 5)][..0] == [];
    assert ApplyChanges(LonePool(9), []) == LonePool(9);
    OverwriteEnds(s2);
    Join(s0, UntilBlock(logs), [Overwrite, Release]);
  }

  /** A quiet system with nothing queued handles that block. */
  lemma BlockRun(s: System, logs: seq<Log>)
    requires s.rows == LonePool(1) && s.pending == {} && s.ledger.enqueued == multiset{}
    requires s.lock == Unlocked && s.listener == Listening && s.received == s.handled == []
    requires IsUpdateBatch(logs, [Sync(7, 9, 9)]) && IsDiscovery(logs, [])
    requires ApplyBatch(LonePool(1), [Sync(7, 9, 9)], map[7 := 1]) == LonePool(9)
    ensures var steps := [Parse(1, logs, [Sync(7, 9, 9)], []),
                          ApplyBlock(map[7 := 1], map[7 := 1], {}), StoreLast, Release];
            && ValidRun(s, steps)
            && Exec(s, steps) == s.(received := [1], handled := [1], rows := LonePool(9), view := LonePool(9),
                                    last := 1, rowsBlock := 1, viewBlock := 1)
  {
    var parse, apply := Parse(1, logs, [Sync(7, 9, 9)], []), ApplyBlock(map[7 := 1], map[7 := 1], {});
    assert s.received + [1] == [1];
    BlockApplied(s.(received := [1], listener := Parsed(1, logs, [Sync(7, 9, 9)], [])), logs);
    Prepend(s, parse, [apply, StoreLast, Release]);
    assert [parse] + [apply, StoreLast, Release] == [parse, apply, StoreLast, Release];
  }

  lemma BlockApplied(s: System, logs: seq<Log>)
    requires s.rows == LonePool(1) && s.pending == {} && s.ledger.enqueued == multiset{}
    requires s.lock == Unlocked && s.listener == Parsed(1, logs, [Sync(7, 9, 9)], []) && s.handled == []
    requires ApplyBatch(LonePool(1), [Sync(7, 9, 9)], map[7 := 1]) == LonePool(9)
    ensures var steps := [ApplyBlock(map[7 := 1], map[7 := 1], {}), StoreLast, Release];
            && ValidRun(s, steps)
            && Exec(s, steps) == s.(listener := Listening, handled := [1], rows := LonePool(9), view := LonePool(9),
                                    last := 1, rowsBlock := 1, viewBlock := 1)
  {
    assert s.handled + [1] == [1];
    assert NewlyQueued(s, [], {}, (map[7 as Address := 1 as uint64]).Keys) == {};
    ThreeSteps(s, ApplyBlock(map[7 := 1], map[7 := 1], {}), StoreLast, Release);
  }
}
