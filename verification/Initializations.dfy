/** Applying a batch of initializer results: filter, register, add, set reserves. */
module Initializations {
  import opened Initializer
  import opened Slices
  import opened Tables
  import opened Types

  /** A pool whose initializer results carry no error; a nil reserve next to a nil error is let through. */
  datatype Item = Item(request: AddRequest, reserve0: Option<int>, reserve1: Option<int>)

  /** What a reserve that is not nil holds. */
  function Number(o: Option<int>): int {
    if o.Some? then o.value else 0
  }

  /**
   The registrar's answer to one batch, two slices indexed by the batch. Either may be short: a missing
   error entry is no error, and the ID of a refused pool is never read.
   */
  datatype Registration = Registration(ids: seq<uint64>, failed: seq<bool>)
  {
    predicate Failed(i: nat) {
      i < |failed| && failed[i]
    }

    function Id(i: nat): uint64 {
      if i < |ids| then ids[i] else 0
    }
  }

  /** What the registrar's two lookups answer while the lock is held. */
  datatype Lookups = Lookups(tokenIDs: map<Address, uint64>, poolIDs: map<Address, uint64>)

  datatype Error =
    | InitializationFailed(pool: Address)
    | RegistrationFailed(pool: Address)
    | AddRejected(pool: Address, why: AddError)
    | ReservesNotSet(pool: Address)

  /** What the initializer promises: reserves are present wherever the error is nil. */
  ghost predicate Usable(slots: seq<InitSlot>) {
    forall i :: 0 <= i < |slots| && slots[i].err.None? ==> slots[i].reserve0.Some? && slots[i].reserve1.Some?
  }

  /** The pools to register, in batch order. */
  function Ready(pools: seq<Address>, slots: seq<InitSlot>): (items: seq<Item>)
    requires |pools| == |slots|
  {
    if pools == [] then []
    else
      var n := |pools| - 1;
      var s := slots[n];
      Ready(pools[..n], slots[..n])
      + if s.err.None?
        then [Item(AddRequest(s.token0, s.token1, pools[n], s.poolType, s.fee), s.reserve0, s.reserve1)]
        else []
  }

  function InitFailures(pools: seq<Address>, slots: seq<InitSlot>): seq<Error>
    requires |pools| == |slots|
  {
    if pools == [] then []
    else
      var n := |pools| - 1;
      InitFailures(pools[..n], slots[..n]) + if slots[n].err.None? then [] else [InitializationFailed(pools[n])]
  }

  /** The registrar's answer can be read: an ID for each pool it did not refuse, no error beyond the batch. */
  predicate Answers(reg: Registration, items: seq<Item>) {
    && (forall i :: 0 <= i < |items| && !reg.Failed(i) ==> i < |reg.ids|)
    && (forall i :: |items| <= i < |reg.failed| ==> !reg.failed[i])
  }

  /**
   What becomes of one ready pool. The last two are added; the reserves then go to whatever pool the
   registrar's ID names, if it names one, which only an honest registrar makes the pool just added.
   */
  datatype Outcome = NotRegistered | Rejected(why: AddError) | ReservesUnset | ReservesSet

  /** Adding one registered pool: the row is appended with zero reserves, then updated under the registrar's ID. */
  function AddOne(t: Table, item: Item, newID: uint64, failed: bool, env: Lookups): (Table, Outcome) {
    var verdict := AddVerdict(t, item.request, env.tokenIDs, env.poolIDs);
    var t' := Add(t, item.request, env.tokenIDs, env.poolIDs);
    if failed then (t, NotRegistered)
    else if verdict != Added then (t, Rejected(verdict))
    else if Has(t', newID) then (Update(t', newID, Number(item.reserve0), Number(item.reserve1)), ReservesSet)
    else (t', ReservesUnset)
  }

  /** The table after the first `n` ready pools. */
  function After(t: Table, items: seq<Item>, reg: Registration, env: Lookups, n: nat): Table
    requires Answers(reg, items) && n <= |items|
  {
    if n == 0 then t
    else AddOne(After(t, items, reg, env, n - 1), items[n - 1], reg.Id(n - 1), reg.Failed(n - 1), env).0
  }

  function OutcomeOf(t: Table, items: seq<Item>, reg: Registration, env: Lookups, i: nat): Outcome
    requires Answers(reg, items) && i < |items|
  {
    AddOne(After(t, items, reg, env, i), items[i], reg.Id(i), reg.Failed(i), env).1
  }

  /** The outcomes of the first `n` ready pools, in order. */
  function Outcomes(t: Table, items: seq<Item>, reg: Registration, env: Lookups, n: nat): (os: seq<Outcome>)
    requires Answers(reg, items) && n <= |items|
    ensures |os| == n
  {
    seq(n, i requires 0 <= i < n => OutcomeOf(t, items, reg, env, i))
  }

  function RegFailures(items: seq<Item>, reg: Registration, n: nat): seq<Error>
    requires Answers(reg, items) && n <= |items|
  {
    if n == 0 then []
    else
      RegFailures(items, reg, n - 1)
      + if reg.Failed(n - 1) then [RegistrationFailed(items[n - 1].request.pool)] else []
  }

  /** Past the error slice nothing more is captured. */
  lemma {:induction false} RegFailuresTail(items: seq<Item>, reg: Registration, k: nat, n: nat)
    requires Answers(reg, items) && k <= n <= |items| && forall i :: k <= i < n ==> !reg.Failed(i)
    ensures RegFailures(items, reg, n) == RegFailures(items, reg, k)
  {
    if k < n {
      RegFailuresTail(items, reg, k, n - 1);
    }
  }

  /** What the add loop captures for one outcome; refused registrations are captured before it. */
  function OutcomeErrors(pool: Address, outcome: Outcome): seq<Error> {
    match outcome
    case Rejected(why) => [AddRejected(pool, why)]
    case ReservesUnset => [ReservesNotSet(pool)]
    case _ => []
  }

  function FailuresOf(items: seq<Item>, os: seq<Outcome>): seq<Error>
    requires |os| <= |items|
  {
    if os == [] then []
    else FailuresOf(items, os[..|os| - 1]) + OutcomeErrors(items[|os| - 1].request.pool, os[|os| - 1])
  }

  /** What the add loop captures over the first `n` ready pools. */
  function AddFailures(t: Table, items: seq<Item>, reg: Registration, env: Lookups, n: nat): seq<Error>
    requires Answers(reg, items) && n <= |items|
  {
    FailuresOf(items, Outcomes(t, items, reg, env, n))
  }

  lemma AddFailuresNext(t: Table, items: seq<Item>, reg: Registration, env: Lookups, n: nat)
    requires Answers(reg, items) && n < |items|
    ensures AddFailures(t, items, reg, env, n + 1)
         == AddFailures(t, items, reg, env, n)
            + OutcomeErrors(items[n].request.pool, OutcomeOf(t, items, reg, env, n))
  {
    assert Outcomes(t, items, reg, env, n + 1)[..n] == Outcomes(t, items, reg, env, n);
  }

  /** The captured errors, in the order they are captured. */
  function Errors(t: Table, pools: seq<Address>, slots: seq<InitSlot>, reg: Registration, env: Lookups): seq<Error>
    requires |pools| == |slots| && Answers(reg, Ready(pools, slots))
  {
    var items := Ready(pools, slots);
    InitFailures(pools, slots) + (RegFailures(items, reg, |items|) + AddFailures(t, items, reg, env, |items|))
  }

  /** No reserve that the add loop reads is nil: it reads those of the pools whose returned ID it finds. */
  ghost predicate NilFree(t: Table, items: seq<Item>, reg: Registration, env: Lookups)
    requires Answers(reg, items)
  {
    forall i :: 0 <= i < |items| && OutcomeOf(t, items, reg, env, i) == ReservesSet ==>
      items[i].reserve0.Some? && items[i].reserve1.Some?
  }

  /** Under the initializer's promise there is no nil to read. */
  lemma {:induction false} UsableItems(pools: seq<Address>, slots: seq<InitSlot>)
    requires |pools| == |slots| && Usable(slots)
    ensures forall i :: 0 <= i < |Ready(pools, slots)| ==>
      Ready(pools, slots)[i].reserve0.Some? && Ready(pools, slots)[i].reserve1.Some?
  {
    if pools != [] {
      UsableItems(pools[..|pools| - 1], slots[..|pools| - 1]);
    }
  }

  // ---- counting ----

  function CountSuccesses(os: seq<Outcome>): nat {
    if os == [] then 0
    else CountSuccesses(os[..|os| - 1]) + if os[|os| - 1] == ReservesSet then 1 else 0
  }

  /** How many of the first `n` ready pools are added and reserves set under their returned IDs. */
  function Successes(t: Table, items: seq<Item>, reg: Registration, env: Lookups, n: nat): nat
    requires Answers(reg, items) && n <= |items|
  {
    CountSuccesses(Outcomes(t, items, reg, env, n))
  }

  lemma SuccessesNext(t: Table, items: seq<Item>, reg: Registration, env: Lookups, n: nat)
    requires Answers(reg, items) && n < |items|
    ensures Successes(t, items, reg, env, n + 1)
         == Successes(t, items, reg, env, n) + if OutcomeOf(t, items, reg, env, n) == ReservesSet then 1 else 0
  {
    assert Outcomes(t, items, reg, env, n + 1)[..n] == Outcomes(t, items, reg, env, n);
  }

  /** How often a list of errors reports this address. */
  function Reports(errs: seq<Error>, a: Address): nat {
    if errs == [] then 0 else Reports(errs[..|errs| - 1], a) + One(errs[|errs| - 1].pool, a)
  }

  /** How often this address is among the first `n` ready pools. */
  function Listings(items: seq<Item>, n: nat, a: Address): nat
    requires n <= |items|
  {
    if n == 0 then 0 else Listings(items, n - 1, a) + One(items[n - 1].request.pool, a)
  }

  /** How often this address is added and reserves set under the ID returned for it. */
  function CreditedOf(items: seq<Item>, os: seq<Outcome>, a: Address): nat
    requires |os| <= |items|
  {
    if os == [] then 0
    else
      var n := |os| - 1;
      CreditedOf(items, os[..n], a) + if os[n] == ReservesSet then One(items[n].request.pool, a) else 0
  }

  function Credited(t: Table, items: seq<Item>, reg: Registration, env: Lookups, a: Address): nat
    requires Answers(reg, items)
  {
    CreditedOf(items, Outcomes(t, items, reg, env, |items|), a)
  }

  function One(b: Address, a: Address): nat {
    if b == a then 1 else 0
  }

  lemma {:induction false} ReportsConcat(first: seq<Error>, second: seq<Error>, a: Address)
    ensures Reports(first + second, a) == Reports(first, a) + Reports(second, a)
  {
    var all := first + second;
    if second == [] {
      assert all == first;
    } else {
      ReportsConcat(first, second[..|second| - 1], a);
      assert all[..|all| - 1] == first + second[..|second| - 1];
    }
  }

  lemma ReportsOne(e: Error, a: Address)
    ensures Reports([e], a) == One(e.pool, a)
  {
    assert [e][..0] == [];
  }

  lemma {:induction false} ListingsPrefix(items: seq<Item>, more: seq<Item>, n: nat, a: Address)
    requires n <= |items|
    ensures Listings(items + more, n, a) == Listings(items, n, a)
  {
    if n > 0 {
      ListingsPrefix(items, more, n - 1, a);
    }
  }

  /** How often the filter drops this address. */
  function Drops(pools: seq<Address>, slots: seq<InitSlot>, a: Address): nat
    requires |pools| == |slots|
  {
    if pools == [] then 0
    else
      var n := |pools| - 1;
      Drops(pools[..n], slots[..n], a) + if slots[n].err.Some? then One(pools[n], a) else 0
  }

  /** How often the filter lets it through. */
  function Passes(pools: seq<Address>, slots: seq<InitSlot>, a: Address): nat
    requires |pools| == |slots|
  {
    if pools == [] then 0
    else
      var n := |pools| - 1;
      Passes(pools[..n], slots[..n], a) + if slots[n].err.None? then One(pools[n], a) else 0
  }

  lemma {:induction false} FilterConserves(pools: seq<Address>, slots: seq<InitSlot>, a: Address)
    requires |pools| == |slots|
    ensures Passes(pools, slots, a) + Drops(pools, slots, a) == multiset(pools)[a]
  {
    if pools != [] {
      var n := |pools| - 1;
      FilterConserves(pools[..n], slots[..n], a);
      assert pools == pools[..n] + [pools[n]];
    }
  }

  lemma {:induction false} DropsReported(pools: seq<Address>, slots: seq<InitSlot>, a: Address)
    requires |pools| == |slots|
    ensures Reports(InitFailures(pools, slots), a) == Drops(pools, slots, a)
  {
    if pools != [] {
      var n := |pools| - 1;
      var before, e := InitFailures(pools[..n], slots[..n]), InitializationFailed(pools[n]);
      DropsReported(pools[..n], slots[..n], a);
      if slots[n].err.None? {
        assert InitFailures(pools, slots) == before + [] == before;
      } else {
        ReportsConcat(before, [e], a);
        ReportsOne(e, a);
      }
    }
  }

  lemma {:induction false} PassesListed(pools: seq<Address>, slots: seq<InitSlot>, a: Address)
    requires |pools| == |slots|
    ensures Listings(Ready(pools, slots), |Ready(pools, slots)|, a) == Passes(pools, slots, a)
  {
    if pools != [] {
      var n := |pools| - 1;
      var front, items := Ready(pools[..n], slots[..n]), Ready(pools, slots);
      PassesListed(pools[..n], slots[..n], a);
      if slots[n].err.None? {
        assert items == front + items[|front|..];
        ListingsPrefix(front, items[|front|..], |front|, a);
      } else {
        assert items == front + [] == front;
      }
    }
  }

  lemma {:induction false} FilterLength(pools: seq<Address>, slots: seq<InitSlot>)
    requires |pools| == |slots|
    ensures |Ready(pools, slots)| + |InitFailures(pools, slots)| == |pools|
  {
    if pools != [] {
      FilterLength(pools[..|pools| - 1], slots[..|pools| - 1]);
    }
  }

  /** The pools not registered are those the registrar refused. */
  predicate Obeys(os: seq<Outcome>, reg: Registration) {
    forall i :: 0 <= i < |os| ==> (os[i] == NotRegistered <==> reg.Failed(i))
  }

  lemma {:induction false} AddConserves(items: seq<Item>, os: seq<Outcome>, reg: Registration)
    requires Answers(reg, items) && |os| <= |items| && Obeys(os, reg)
    ensures |RegFailures(items, reg, |os|)| + |FailuresOf(items, os)| + CountSuccesses(os) == |os|
  {
    if os != [] {
      AddConserves(items, os[..|os| - 1], reg);
    }
  }

  lemma {:induction false} SomeSuccess(os: seq<Outcome>) returns (i: nat)
    requires CountSuccesses(os) > 0
    ensures i < |os| && os[i] == ReservesSet
  {
    i := |os| - 1;
    if os[i] != ReservesSet {
      i := SomeSuccess(os[..i]);
    }
  }

  lemma {:induction false} SuccessCounts(os: seq<Outcome>, i: nat)
    requires i < |os| && os[i] == ReservesSet
    ensures CountSuccesses(os) > 0
  {
    if i < |os| - 1 {
      SuccessCounts(os[..|os| - 1], i);
    }
  }

  /** How often the registrar refuses this address. */
  function Refusals(items: seq<Item>, reg: Registration, n: nat, a: Address): nat
    requires n <= |items|
  {
    if n == 0 then 0
    else Refusals(items, reg, n - 1, a) + if reg.Failed(n - 1) then One(items[n - 1].request.pool, a) else 0
  }

  /** How often the second loop neither skips it nor adds it with reserves set. */
  function Rejections(items: seq<Item>, os: seq<Outcome>, a: Address): nat
    requires |os| <= |items|
  {
    if os == [] then 0
    else
      var n := |os| - 1;
      Rejections(items, os[..n], a)
      + if os[n].Rejected? || os[n].ReservesUnset? then One(items[n].request.pool, a) else 0
  }

  lemma {:induction false} AddConservesPools(items: seq<Item>, os: seq<Outcome>, reg: Registration, a: Address)
    requires |os| <= |items| && Obeys(os, reg)
    ensures Refusals(items, reg, |os|, a) + Rejections(items, os, a) + CreditedOf(items, os, a)
         == Listings(items, |os|, a)
  {
    if os != [] {
      AddConservesPools(items, os[..|os| - 1], reg, a);
    }
  }

  lemma {:induction false} RefusalsReported(items: seq<Item>, reg: Registration, n: nat, a: Address)
    requires Answers(reg, items) && n <= |items|
    ensures Reports(RegFailures(items, reg, n), a) == Refusals(items, reg, n, a)
  {
    if n > 0 {
      var e, before := RegistrationFailed(items[n - 1].request.pool), RegFailures(items, reg, n - 1);
      RefusalsReported(items, reg, n - 1, a);
      if reg.Failed(n - 1) {
        ReportsConcat(before, [e], a);
        ReportsOne(e, a);
      } else {
        assert RegFailures(items, reg, n) == before + [] == before;
      }
    }
  }

  lemma OutcomeReported(pool: Address, outcome: Outcome, a: Address)
    ensures Reports(OutcomeErrors(pool, outcome), a)
         == if outcome.Rejected? || outcome.ReservesUnset? then One(pool, a) else 0
  {
    match outcome
    case Rejected(why) => ReportsOne(AddRejected(pool, why), a);
    case ReservesUnset => ReportsOne(ReservesNotSet(pool), a);
    case _ =>
  }

  lemma {:induction false} RejectionsReported(items: seq<Item>, os: seq<Outcome>, a: Address)
    requires |os| <= |items|
    ensures Reports(FailuresOf(items, os), a) == Rejections(items, os, a)
  {
    if os != [] {
      var n := |os| - 1;
      RejectionsReported(items, os[..n], a);
      ReportsConcat(FailuresOf(items, os[..n]), OutcomeErrors(items[n].request.pool, os[n]), a);
      OutcomeReported(items[n].request.pool, os[n], a);
    }
  }

  /**
   Each address of the batch has exactly one outcome: as often as the batch lists it, it is either
   reported, or added and reserves set under the ID the registrar returned for it, never both and
   never neither. So the applier's subtraction counts the latter. `RowsExact` says whose reserves
   those then are.
   */
  lemma BatchConserves(t: Table, pools: seq<Address>, slots: seq<InitSlot>, reg: Registration, env: Lookups)
    requires |pools| == |slots| && Answers(reg, Ready(pools, slots))
    ensures var items, errs := Ready(pools, slots), Errors(t, pools, slots, reg, env);
            && (forall a :: Reports(errs, a) + Credited(t, items, reg, env, a) == multiset(pools)[a])
            && |errs| + Successes(t, items, reg, env, |items|) == |pools|
  {
    var items := Ready(pools, slots);
    FilterLength(pools, slots);
    OutcomesObey(t, items, reg, env);
    AddConserves(items, Outcomes(t, items, reg, env, |items|), reg);
    forall a
      ensures Reports(Errors(t, pools, slots, reg, env), a) + Credited(t, items, reg, env, a) == multiset(pools)[a]
    {
      AddressConserves(t, pools, slots, reg, env, a);
    }
  }

  lemma OutcomesObey(t: Table, items: seq<Item>, reg: Registration, env: Lookups)
    requires Answers(reg, items)
    ensures Obeys(Outcomes(t, items, reg, env, |items|), reg)
  {
  }

  lemma AddressConserves(t: Table, pools: seq<Address>, slots: seq<InitSlot>, reg: Registration, env: Lookups,
                         a: Address)
    requires |pools| == |slots| && Answers(reg, Ready(pools, slots))
    ensures Reports(Errors(t, pools, slots, reg, env), a) + Credited(t, Ready(pools, slots), reg, env, a)
         == multiset(pools)[a]
  {
    var items := Ready(pools, slots);
    var os := Outcomes(t, items, reg, env, |items|);
    var initial, refused := InitFailures(pools, slots), RegFailures(items, reg, |items|);
    OutcomesObey(t, items, reg, env);
    ReportsConcat(initial, refused + FailuresOf(items, os), a);
    ReportsConcat(refused, FailuresOf(items, os), a);
    DropsReported(pools, slots, a);
    RefusalsReported(items, reg, |items|, a);
    RejectionsReported(items, os, a);
    AddConservesPools(items, os, reg, a);
    PassesListed(pools, slots, a);
    FilterConserves(pools, slots, a);
  }

  // ---- the same by lists of addresses ----

  /** The addresses a list of errors reports. */
  function ErrorPools(errs: seq<Error>): seq<Address> {
    seq(|errs|, i requires 0 <= i < |errs| => errs[i].pool)
  }

  /** The addresses of the pools added with reserves set. */
  function CreditedPools(items: seq<Item>, os: seq<Outcome>): seq<Address>
    requires |os| <= |items|
  {
    if os == [] then []
    else
      var n := |os| - 1;
      CreditedPools(items, os[..n]) + if os[n] == ReservesSet then [items[n].request.pool] else []
  }

  lemma {:induction false} ErrorPoolsCount(errs: seq<Error>, a: Address)
    ensures multiset(ErrorPools(errs))[a] == Reports(errs, a)
  {
    if errs != [] {
      var n := |errs| - 1;
      ErrorPoolsCount(errs[..n], a);
      assert ErrorPools(errs) == ErrorPools(errs[..n]) + [errs[n].pool];
    }
  }

  lemma {:induction false} CreditedPoolsCount(items: seq<Item>, os: seq<Outcome>, a: Address)
    requires |os| <= |items|
    ensures multiset(CreditedPools(items, os))[a] == CreditedOf(items, os, a)
  {
    if os != [] {
      CreditedPoolsCount(items, os[..|os| - 1], a);
    }
  }

  /** The batch is the pools counted as successes and those reported, with multiplicity. */
  lemma BatchAccounts(t: Table, pools: seq<Address>, slots: seq<InitSlot>, reg: Registration, env: Lookups)
    requires |pools| == |slots| && Answers(reg, Ready(pools, slots))
    ensures var items := Ready(pools, slots);
            multiset(CreditedPools(items, Outcomes(t, items, reg, env, |items|)))
            + multiset(ErrorPools(Errors(t, pools, slots, reg, env))) == multiset(pools)
  {
    var items := Ready(pools, slots);
    var credited := multiset(CreditedPools(items, Outcomes(t, items, reg, env, |items|)));
    var reported := multiset(ErrorPools(Errors(t, pools, slots, reg, env)));
    BatchConserves(t, pools, slots, reg, env);
    forall a ensures (credited + reported)[a] == multiset(pools)[a]
    {
      ErrorPoolsCount(Errors(t, pools, slots, reg, env), a);
      CreditedPoolsCount(items, Outcomes(t, items, reg, env, |items|), a);
    }
  }

  // ---- which pools get in ----

  /** Registered, resolvable, and not in the registry before the batch. */
  predicate Candidate(t: Table, items: seq<Item>, reg: Registration, env: Lookups, i: nat)
    requires Answers(reg, items) && i < |items|
  {
    var q := items[i].request;
    && !reg.Failed(i) && q.pool in env.poolIDs && !Has(t, env.poolIDs[q.pool])
    && q.token0 in env.tokenIDs && q.token1 in env.tokenIDs
  }

  function IdOf(items: seq<Item>, env: Lookups, i: nat): uint64
    requires i < |items| && items[i].request.pool in env.poolIDs
  {
    env.poolIDs[items[i].request.pool]
  }

  /** Some candidate before place `n` resolves to `x`. */
  ghost predicate Claimed(t: Table, items: seq<Item>, reg: Registration, env: Lookups, n: nat, x: uint64)
    requires Answers(reg, items) && n <= |items|
  {
    exists j :: 0 <= j < n && Candidate(t, items, reg, env, j) && IdOf(items, env, j) == x
  }

  /** The first candidate for its ID: these are the pools that get in. */
  ghost predicate Addable(t: Table, items: seq<Item>, reg: Registration, env: Lookups, i: nat)
    requires Answers(reg, items) && i < |items|
  {
    Candidate(t, items, reg, env, i) && !Claimed(t, items, reg, env, i, IdOf(items, env, i))
  }

  lemma {:induction false} AfterIds(t: Table, items: seq<Item>, reg: Registration, env: Lookups, n: nat, x: uint64)
    requires Distinct(t) && Answers(reg, items) && n <= |items|
    ensures Distinct(After(t, items, reg, env, n))
    ensures Has(After(t, items, reg, env, n), x) <==> Has(t, x) || Claimed(t, items, reg, env, n, x)
  {
    if n > 0 {
      AfterIds(t, items, reg, env, n - 1, x);
      AddOneIds(After(t, items, reg, env, n - 1), items[n - 1], reg.Id(n - 1), reg.Failed(n - 1), env, x);
      if items[n - 1].request.pool in env.poolIDs {
        AfterIds(t, items, reg, env, n - 1, IdOf(items, env, n - 1));
      }
    }
  }

  lemma AddOneIds(t: Table, item: Item, newID: uint64, failed: bool, env: Lookups, x: uint64)
    requires Distinct(t)
    ensures Distinct(AddOne(t, item, newID, failed, env).0)
    ensures AddOne(t, item, newID, failed, env).1.Rejected? || AddOne(t, item, newID, failed, env).1.NotRegistered?
        ==> AddOne(t, item, newID, failed, env).0 == t
    ensures Has(AddOne(t, item, newID, failed, env).0, x)
       <==> (Has(t, x)
             || (!failed && AddVerdict(t, item.request, env.tokenIDs, env.poolIDs) == Added
                 && env.poolIDs[item.request.pool] == x))
  {
    if !failed && AddVerdict(t, item.request, env.tokenIDs, env.poolIDs) == Added {
      var t' := Add(t, item.request, env.tokenIDs, env.poolIDs);
      GetAppend(t, t'[|t|], x);
      GetUpdate(t', newID, Number(item.reserve0), Number(item.reserve1), x);
    }
  }

  /** What becomes of each ready pool, read off the inputs. */
  lemma OutcomeExact(t: Table, items: seq<Item>, reg: Registration, env: Lookups, i: nat)
    requires Distinct(t) && Answers(reg, items) && i < |items|
    ensures OutcomeOf(t, items, reg, env, i) in {ReservesUnset, ReservesSet} <==> Addable(t, items, reg, env, i)
    ensures OutcomeOf(t, items, reg, env, i) == ReservesSet
       <==> Addable(t, items, reg, env, i) && Findable(t, items, reg, env, i)
  {
    var u := After(t, items, reg, env, i);
    if items[i].request.pool in env.poolIDs {
      AfterIds(t, items, reg, env, i, IdOf(items, env, i));
    }
    if Addable(t, items, reg, env, i) {
      AfterIds(t, items, reg, env, i, reg.Id(i));
      GetAppend(u, Add(u, items[i].request, env.tokenIDs, env.poolIDs)[|u|], reg.Id(i));
    }
  }

  lemma {:induction false} AfterGrows(t: Table, items: seq<Item>, reg: Registration, env: Lookups, n: nat)
    requires Answers(reg, items) && n <= |items|
    ensures |t| <= |After(t, items, reg, env, n)|
  {
    if n > 0 {
      AfterGrows(t, items, reg, env, n - 1);
    }
  }

  lemma {:induction false} AddableGrows(t: Table, items: seq<Item>, reg: Registration, env: Lookups, n: nat, i: nat)
    requires Distinct(t) && Answers(reg, items) && i < n <= |items| && Addable(t, items, reg, env, i)
    ensures |After(t, items, reg, env, n)| > |t|
  {
    if i < n - 1 {
      AddableGrows(t, items, reg, env, n - 1, i);
    } else {
      AfterGrows(t, items, reg, env, i);
      OutcomeExact(t, items, reg, env, i);
    }
  }

  lemma {:induction false} SomeAddable(t: Table, items: seq<Item>, reg: Registration, env: Lookups, n: nat)
    returns (i: nat)
    requires Distinct(t) && Answers(reg, items) && n <= |items| && After(t, items, reg, env, n) != t
    ensures i < n && Addable(t, items, reg, env, i)
  {
    i := n - 1;
    if !Addable(t, items, reg, env, i) {
      OutcomeExact(t, items, reg, env, i);
      i := SomeAddable(t, items, reg, env, n - 1);
    }
  }

  /** The registrar's ID for a ready pool is that of some pool once the ready pools up to it are in. */
  ghost predicate Findable(t: Table, items: seq<Item>, reg: Registration, env: Lookups, i: nat)
    requires Answers(reg, items) && i < |items|
  {
    i < |reg.ids| && (Has(t, reg.ids[i]) || Claimed(t, items, reg, env, i + 1, reg.ids[i]))
  }

  /**
   The batch applier publishes a new view only when it counts a success. That leaves a stale view
   exactly when some pool gets in while no pool that gets in can be found under the ID the registrar
   returned for it.
   */
  lemma StaleViewExact(t: Table, items: seq<Item>, reg: Registration, env: Lookups)
    requires Distinct(t) && Answers(reg, items)
    ensures Successes(t, items, reg, env, |items|) == 0 && After(t, items, reg, env, |items|) != t
       <==> && (exists i :: 0 <= i < |items| && Addable(t, items, reg, env, i))
            && (forall i :: 0 <= i < |items| && Addable(t, items, reg, env, i) ==> !Findable(t, items, reg, env, i))
  {
    if Successes(t, items, reg, env, |items|) > 0 {
      var i := SomeSuccess(Outcomes(t, items, reg, env, |items|));
      OutcomeExact(t, items, reg, env, i);
    } else {
      forall i | 0 <= i < |items| && Addable(t, items, reg, env, i) ensures !Findable(t, items, reg, env, i)
      {
        OutcomeExact(t, items, reg, env, i);
        if Findable(t, items, reg, env, i) {
          SuccessCounts(Outcomes(t, items, reg, env, |items|), i);
        }
      }
      if i :| 0 <= i < |items| && Addable(t, items, reg, env, i) {
        AddableGrows(t, items, reg, env, |items|, i);
      } else if After(t, items, reg, env, |items|) != t {
        var i := SomeAddable(t, items, reg, env, |items|);
      }
    }
  }

  /** Such a batch exists: a registrar that returns one ID and then resolves the address to another. */
  lemma StaleViewHappens() returns (items: seq<Item>, reg: Registration, env: Lookups)
    ensures |items| == 1 && Answers(reg, items) && !reg.Failed(0)
    ensures Successes([], items, reg, env, |items|) == 0 && |After([], items, reg, env, |items|)| == 1
  {
    items := [Item(AddRequest(1, 2, 5, 0, 30), Some(100), Some(200))];
    reg, env := Registration([8], [false]), Lookups(map[1 := 10, 2 := 20], map[5 := 3]);
    assert Addable([], items, reg, env, 0);
    StaleViewExact([], items, reg, env);
  }

  // ---- whose reserves end up where ----

  function NewRow(item: Item, env: Lookups, r0: int, r1: int): Pool
    requires item.request.pool in env.poolIDs
    requires item.request.token0 in env.tokenIDs && item.request.token1 in env.tokenIDs
  {
    Pool(env.poolIDs[item.request.pool], env.tokenIDs[item.request.token0], env.tokenIDs[item.request.token1],
         r0, r1, item.request.poolType, item.request.fee)
  }

  /** The finished row of an addable pool: its own tokens, type, fee and reserves. */
  function FullRow(item: Item, env: Lookups): Pool
    requires item.request.pool in env.poolIDs
    requires item.request.token0 in env.tokenIDs && item.request.token1 in env.tokenIDs
  {
    NewRow(item, env, Number(item.reserve0), Number(item.reserve1))
  }

  /** The last of the first `n` ready pools that gets in with `x` returned for it, `x` being then some pool's ID. */
  ghost function Writer(t: Table, items: seq<Item>, reg: Registration, env: Lookups, n: nat, x: uint64): Option<nat>
    requires Answers(reg, items) && n <= |items|
  {
    if n == 0 then None
    else if Addable(t, items, reg, env, n - 1) && Findable(t, items, reg, env, n - 1) && reg.ids[n - 1] == x
    then Some(n - 1)
    else Writer(t, items, reg, env, n - 1, x)
  }

  /** The one of the first `n` ready pools that gets in under `x`. */
  ghost function Born(t: Table, items: seq<Item>, reg: Registration, env: Lookups, n: nat, x: uint64): Option<nat>
    requires Answers(reg, items) && n <= |items|
  {
    if n == 0 then None
    else if Addable(t, items, reg, env, n - 1) && IdOf(items, env, n - 1) == x then Some(n - 1)
    else Born(t, items, reg, env, n - 1, x)
  }

  lemma {:induction false} WriterIs(t: Table, items: seq<Item>, reg: Registration, env: Lookups, n: nat, x: uint64)
    requires Answers(reg, items) && n <= |items| && Writer(t, items, reg, env, n, x).Some?
    ensures var j := Writer(t, items, reg, env, n, x).value;
            j < n && Addable(t, items, reg, env, j) && Findable(t, items, reg, env, j) && reg.ids[j] == x
    ensures Has(t, x) || Claimed(t, items, reg, env, n, x)
  {
    if !(Addable(t, items, reg, env, n - 1) && Findable(t, items, reg, env, n - 1) && reg.ids[n - 1] == x) {
      WriterIs(t, items, reg, env, n - 1, x);
    }
  }

  lemma {:induction false} BornIs(t: Table, items: seq<Item>, reg: Registration, env: Lookups, n: nat, x: uint64)
    requires Answers(reg, items) && n <= |items| && Born(t, items, reg, env, n, x).Some?
    ensures var i := Born(t, items, reg, env, n, x).value;
            i < n && Addable(t, items, reg, env, i) && IdOf(items, env, i) == x
  {
    if !(Addable(t, items, reg, env, n - 1) && IdOf(items, env, n - 1) == x) {
      BornIs(t, items, reg, env, n - 1, x);
    }
  }

  /** The row the batch finds or makes for `x`, before any reserves are set. */
  ghost function BaseRow(t: Table, items: seq<Item>, reg: Registration, env: Lookups, n: nat, x: uint64): Option<Pool>
    requires Answers(reg, items) && n <= |items|
  {
    if Has(t, x) then Get(t, x)
    else match Born(t, items, reg, env, n, x)
      case None => None
      case Some(i) => BornIs(t, items, reg, env, n, x); Some(NewRow(items[i], env, 0, 0))
  }

  /** That row with the reserves of the last ready pool for which `x` was returned. */
  ghost function FinalRow(t: Table, items: seq<Item>, reg: Registration, env: Lookups, n: nat, x: uint64): Option<Pool>
    requires Answers(reg, items) && n <= |items|
  {
    var base, writer := BaseRow(t, items, reg, env, n, x), Writer(t, items, reg, env, n, x);
    if base.None? || writer.None? then base
    else
      WriterIs(t, items, reg, env, n, x);
      Some(base.value.WithReserves(Number(items[writer.value].reserve0), Number(items[writer.value].reserve1)))
  }

  /** One round on one row, whatever ID the registrar returned. */
  lemma RoundRow(t: Table, items: seq<Item>, reg: Registration, env: Lookups, i: nat, x: uint64)
    requires Distinct(t) && Answers(reg, items) && i < |items|
    ensures var u, u' := After(t, items, reg, env, i), After(t, items, reg, env, i + 1);
            var r0, r1 := Number(items[i].reserve0), Number(items[i].reserve1);
            && (!Addable(t, items, reg, env, i) ==> u' == u)
            && (Addable(t, items, reg, env, i) ==>
                  && !Has(u, IdOf(items, env, i))
                  && var base := if x == IdOf(items, env, i) then Some(NewRow(items[i], env, 0, 0)) else Get(u, x);
                     Get(u', x) == if Findable(t, items, reg, env, i) && reg.ids[i] == x && base.Some?
                                   then Some(base.value.WithReserves(r0, r1))
                                   else base)
  {
    var u := After(t, items, reg, env, i);
    AfterIds(t, items, reg, env, i, 0);
    OutcomeExact(t, items, reg, env, i);
    AddOneIds(u, items[i], reg.Id(i), reg.Failed(i), env, x);
    if Addable(t, items, reg, env, i) {
      var added := Add(u, items[i].request, env.tokenIDs, env.poolIDs);
      GetAppend(u, added[|u|], x);
      GetUpdate(added, reg.Id(i), Number(items[i].reserve0), Number(items[i].reserve1), x);
    }
  }

  /** One round on the row read off the inputs. */
  lemma FinalRowNext(t: Table, items: seq<Item>, reg: Registration, env: Lookups, i: nat, x: uint64)
    requires Answers(reg, items) && i < |items|
    requires Addable(t, items, reg, env, i) && IdOf(items, env, i) == x ==>
      !Has(t, x) && Born(t, items, reg, env, i, x).None? && Writer(t, items, reg, env, i, x).None?
    ensures var row, row' := FinalRow(t, items, reg, env, i, x), FinalRow(t, items, reg, env, i + 1, x);
            var r0, r1 := Number(items[i].reserve0), Number(items[i].reserve1);
            && (!Addable(t, items, reg, env, i) ==> row' == row)
            && (Addable(t, items, reg, env, i) ==>
                  var base := if x == IdOf(items, env, i) then Some(NewRow(items[i], env, 0, 0)) else row;
                  row' == if Findable(t, items, reg, env, i) && reg.ids[i] == x && base.Some?
                          then Some(base.value.WithReserves(r0, r1))
                          else base)
  {
  }

  /** A pool gets in only under an ID that nothing before it was found or made for. */
  lemma FreshUnder(t: Table, items: seq<Item>, reg: Registration, env: Lookups, i: nat)
    requires Answers(reg, items) && i < |items| && Addable(t, items, reg, env, i)
    ensures var x := IdOf(items, env, i);
            !Has(t, x) && Born(t, items, reg, env, i, x).None? && Writer(t, items, reg, env, i, x).None?
  {
    var x := IdOf(items, env, i);
    if Born(t, items, reg, env, i, x).Some? {
      BornIs(t, items, reg, env, i, x);
      assert false;
    }
    if Writer(t, items, reg, env, i, x).Some? {
      WriterIs(t, items, reg, env, i, x);
      assert false;
    }
  }

  lemma RowNext(t: Table, items: seq<Item>, reg: Registration, env: Lookups, i: nat, n: nat, x: uint64)
    requires Distinct(t) && Answers(reg, items) && i < |items| && n == i + 1
    requires Get(After(t, items, reg, env, i), x) == FinalRow(t, items, reg, env, i, x)
    ensures Get(After(t, items, reg, env, n), x) == FinalRow(t, items, reg, env, n, x)
  {
    RoundRow(t, items, reg, env, i, x);
    if Addable(t, items, reg, env, i) {
      FreshUnder(t, items, reg, env, i);
    }
    FinalRowNext(t, items, reg, env, i, x);
  }

  /** Every row after any part of the batch, for any reply of the registrar, read off the inputs. */
  lemma {:induction false} RowsExact(t: Table, items: seq<Item>, reg: Registration, env: Lookups, n: nat, x: uint64)
    requires Distinct(t) && Answers(reg, items) && n <= |items|
    ensures Get(After(t, items, reg, env, n), x) == FinalRow(t, items, reg, env, n, x)
  {
    if n > 0 {
      RowsExact(t, items, reg, env, n - 1, x);
      RowNext(t, items, reg, env, n - 1, n, x);
    }
  }

  /** Every pool that got in carries its own data, and every pool that was there is as it was. */
  ghost predicate Intended(t: Table, items: seq<Item>, reg: Registration, env: Lookups)
    requires Answers(reg, items)
  {
    var u := After(t, items, reg, env, |items|);
    && (forall i :: 0 <= i < |items| && Addable(t, items, reg, env, i) ==>
          Get(u, IdOf(items, env, i)) == Some(FullRow(items[i], env)))
    && (forall x :: Has(t, x) ==> Get(u, x) == Get(t, x))
  }

  ghost predicate Brings(items: seq<Item>, writer: Option<nat>, r0: int, r1: int) {
    writer.Some? ==>
      && writer.value < |items|
      && Number(items[writer.value].reserve0) == r0 && Number(items[writer.value].reserve1) == r1
  }

  /** The reserves set under its ID are a new pool's own, or there are none to set and it keeps its zeros. */
  ghost predicate OwnReserves(t: Table, items: seq<Item>, reg: Registration, env: Lookups, i: nat)
    requires Answers(reg, items) && i < |items| && Addable(t, items, reg, env, i)
  {
    var writer := Writer(t, items, reg, env, |items|, IdOf(items, env, i));
    && Brings(items, writer, Number(items[i].reserve0), Number(items[i].reserve1))
    && (writer.None? ==> Number(items[i].reserve0) == Number(items[i].reserve1) == 0)
  }

  /** The reserves set under an old pool's ID, if any are, are those it holds. */
  ghost predicate OldReserves(t: Table, items: seq<Item>, reg: Registration, env: Lookups, x: uint64)
    requires Answers(reg, items) && Has(t, x)
  {
    Brings(items, Writer(t, items, reg, env, |items|, x), Get(t, x).value.reserve0, Get(t, x).value.reserve1)
  }

  lemma {:induction false} BornUnder(t: Table, items: seq<Item>, reg: Registration, env: Lookups, n: nat, i: nat)
    requires Answers(reg, items) && i < n <= |items| && Addable(t, items, reg, env, i)
    ensures Born(t, items, reg, env, n, IdOf(items, env, i)) == Some(i)
  {
    if i < n - 1 {
      BornUnder(t, items, reg, env, n - 1, i);
    }
  }

  /**
   Without the registrar's contract a batch can put one pool's reserves on another, old or new, and
   report nothing. It does as intended if and only if what is set last under each ID is what belongs there.
   */
  lemma IntendedExact(t: Table, items: seq<Item>, reg: Registration, env: Lookups)
    requires Distinct(t) && Answers(reg, items)
    ensures Intended(t, items, reg, env)
       <==> && (forall i :: 0 <= i < |items| && Addable(t, items, reg, env, i) ==> OwnReserves(t, items, reg, env, i))
            && (forall x :: Has(t, x) ==> OldReserves(t, items, reg, env, x))
  {
    var u := After(t, items, reg, env, |items|);
    forall i | 0 <= i < |items| && Addable(t, items, reg, env, i)
      ensures Get(u, IdOf(items, env, i)) == Some(FullRow(items[i], env)) <==> OwnReserves(t, items, reg, env, i)
    {
      OwnExact(t, items, reg, env, i);
    }
    forall x | Has(t, x) ensures Get(u, x) == Get(t, x) <==> OldReserves(t, items, reg, env, x)
    {
      OldExact(t, items, reg, env, x);
    }
  }

  lemma OwnExact(t: Table, items: seq<Item>, reg: Registration, env: Lookups, i: nat)
    requires Distinct(t) && Answers(reg, items) && i < |items| && Addable(t, items, reg, env, i)
    ensures Get(After(t, items, reg, env, |items|), IdOf(items, env, i)) == Some(FullRow(items[i], env))
       <==> OwnReserves(t, items, reg, env, i)
  {
    var x := IdOf(items, env, i);
    RowsExact(t, items, reg, env, |items|, x);
    BornUnder(t, items, reg, env, |items|, i);
    if Writer(t, items, reg, env, |items|, x).Some? {
      WriterIs(t, items, reg, env, |items|, x);
    }
  }

  lemma OldExact(t: Table, items: seq<Item>, reg: Registration, env: Lookups, x: uint64)
    requires Distinct(t) && Answers(reg, items) && Has(t, x)
    ensures Get(After(t, items, reg, env, |items|), x) == Get(t, x) <==> OldReserves(t, items, reg, env, x)
  {
    RowsExact(t, items, reg, env, |items|, x);
    if Writer(t, items, reg, env, |items|, x).Some? {
      WriterIs(t, items, reg, env, |items|, x);
    }
  }

  /** The same ready pools with other reserves. */
  function Repriced(items: seq<Item>, rs: seq<(int, int)>): (r: seq<Item>)
    requires |rs| == |items|
    ensures |r| == |items|
    ensures forall i :: 0 <= i < |items| ==> r[i] == Item(items[i].request, Some(rs[i].0), Some(rs[i].1))
  {
    seq(|items|, i requires 0 <= i < |items| => Item(items[i].request, Some(rs[i].0), Some(rs[i].1)))
  }

  lemma RepricedAddable(t: Table, items: seq<Item>, rs: seq<(int, int)>, reg: Registration, env: Lookups, i: nat)
    requires Answers(reg, items) && |rs| == |items| && i < |items|
    ensures Answers(reg, Repriced(items, rs))
    ensures Addable(t, Repriced(items, rs), reg, env, i) <==> Addable(t, items, reg, env, i)
  {
    var r := Repriced(items, rs);
    assert forall j :: 0 <= j < |items| ==> (Candidate(t, r, reg, env, j) <==> Candidate(t, items, reg, env, j));
  }

  /** The registrar returned for every pool that gets in the ID its address resolves to. */
  ghost predicate Trusted(t: Table, items: seq<Item>, reg: Registration, env: Lookups)
    requires Answers(reg, items)
  {
    forall i :: 0 <= i < |items| && Addable(t, items, reg, env, i) ==>
      i < |reg.ids| && reg.ids[i] == IdOf(items, env, i)
  }

  /** Under those IDs each pool that gets in is its own and only writer. */
  lemma {:induction false} TrustedWriter(t: Table, items: seq<Item>, reg: Registration, env: Lookups, n: nat, x: uint64)
    requires Answers(reg, items) && n <= |items| && Trusted(t, items, reg, env)
    ensures Writer(t, items, reg, env, n, x) == Born(t, items, reg, env, n, x)
  {
    if n > 0 {
      TrustedWriter(t, items, reg, env, n - 1, x);
    }
  }

  lemma TrustedIntended(t: Table, items: seq<Item>, reg: Registration, env: Lookups)
    requires Distinct(t) && Answers(reg, items) && Trusted(t, items, reg, env)
    ensures Intended(t, items, reg, env)
  {
    forall i | 0 <= i < |items| && Addable(t, items, reg, env, i) ensures OwnReserves(t, items, reg, env, i)
    {
      TrustedWriter(t, items, reg, env, |items|, IdOf(items, env, i));
      BornUnder(t, items, reg, env, |items|, i);
    }
    forall x | Has(t, x) ensures OldReserves(t, items, reg, env, x)
    {
      TrustedWriter(t, items, reg, env, |items|, x);
      if Born(t, items, reg, env, |items|, x).Some? {
        BornIs(t, items, reg, env, |items|, x);
      }
    }
    IntendedExact(t, items, reg, env);
  }

  /** Otherwise reserves that are all different and not zero show it. */
  lemma Betraying(t: Table, items: seq<Item>, reg: Registration, env: Lookups, i: nat) returns (rs: seq<(int, int)>)
    requires Distinct(t) && Answers(reg, items)
    requires i < |items| && Addable(t, items, reg, env, i) && !(i < |reg.ids| && reg.ids[i] == IdOf(items, env, i))
    ensures |rs| == |items| && Answers(reg, Repriced(items, rs)) && !Intended(t, Repriced(items, rs), reg, env)
  {
    rs := seq(|items|, k requires 0 <= k < |items| => (k + 1, k + 1));
    var r := Repriced(items, rs);
    RepricedAddable(t, items, rs, reg, env, i);
    OwnExact(t, r, reg, env, i);
    if Writer(t, r, reg, env, |r|, IdOf(r, env, i)).Some? {
      WriterIs(t, r, reg, env, |r|, IdOf(r, env, i));
    }
  }

  /**
   Whatever the reserves are, the batch does as intended, if and only if the registrar returned for
   every pool that gets in the very ID its address then resolves to.
   */
  lemma TrustExact(t: Table, items: seq<Item>, reg: Registration, env: Lookups)
    requires Distinct(t) && Answers(reg, items)
    ensures Trusted(t, items, reg, env)
       <==> forall rs: seq<(int, int)> :: |rs| == |items| ==>
              Answers(reg, Repriced(items, rs)) && Intended(t, Repriced(items, rs), reg, env)
  {
    if Trusted(t, items, reg, env) {
      forall rs: seq<(int, int)> | |rs| == |items|
        ensures Answers(reg, Repriced(items, rs)) && Intended(t, Repriced(items, rs), reg, env)
      {
        forall i | 0 <= i < |items|
          ensures Addable(t, Repriced(items, rs), reg, env, i) <==> Addable(t, items, reg, env, i)
        {
          RepricedAddable(t, items, rs, reg, env, i);
        }
        TrustedIntended(t, Repriced(items, rs), reg, env);
      }
    } else {
      var i :| 0 <= i < |items| && Addable(t, items, reg, env, i)
               && !(i < |reg.ids| && reg.ids[i] == IdOf(items, env, i));
      var rs := Betraying(t, items, reg, env, i);
    }
  }

  /**
   Such a batch exists too: the registrar returns an old pool's ID, nothing is reported, the old pool
   is overwritten with the new one's reserves and the new one is left at zero.
   */
  lemma MisplacedHappens() returns (t: Table, items: seq<Item>, reg: Registration, env: Lookups)
    ensures Distinct(t) && |t| == |items| == 1 && Answers(reg, items) && !reg.Failed(0)
    ensures Successes(t, items, reg, env, 1) == 1 && AddFailures(t, items, reg, env, 1) == []
    ensures Get(After(t, items, reg, env, 1), t[0].id) == Some(t[0].WithReserves(100, 200)) != Get(t, t[0].id)
    ensures Get(After(t, items, reg, env, 1), 8) == Some(Pool(8, 10, 20, 0, 0, 0, 30))
  {
    t, items := [Pool(3, 0, 1, 1, 1, 0, 30)], [Item(AddRequest(1, 2, 5, 0, 30), Some(100), Some(200))];
    reg, env := Registration([3], [false]), Lookups(map[1 := 10, 2 := 20], map[5 := 8]);
    FindUnique(t, 0);
    assert Addable(t, items, reg, env, 0) && Findable(t, items, reg, env, 0);
    OutcomeExact(t, items, reg, env, 0);
    RowsExact(t, items, reg, env, 1, 3);
    RowsExact(t, items, reg, env, 1, 8);
    assert Outcomes(t, items, reg, env, 1) == [ReservesSet] && [ReservesSet][..0] == [];
  }

  // ---- under the registrar's contract ----

  /** A pool registered without error resolves to the ID that was returned for it. */
  predicate Honest(items: seq<Item>, reg: Registration, env: Lookups) {
    && Answers(reg, items)
    && forall i :: 0 <= i < |items| && !reg.Failed(i) ==>
         && i < |reg.ids| && items[i].request.pool in env.poolIDs
         && env.poolIDs[items[i].request.pool] == reg.ids[i]
  }

  lemma HonestStep(t: Table, item: Item, newID: uint64, failed: bool, env: Lookups)
    requires Distinct(t)
    requires !failed ==> item.request.pool in env.poolIDs && env.poolIDs[item.request.pool] == newID
    ensures AddOne(t, item, newID, failed, env).1 != ReservesUnset
    ensures AddOne(t, item, newID, failed, env).0
         == if !failed && AddVerdict(t, item.request, env.tokenIDs, env.poolIDs) == Added
            then t + [FullRow(item, env)] else t
  {
    if !failed && AddVerdict(t, item.request, env.tokenIDs, env.poolIDs) == Added {
      var t' := Add(t, item.request, env.tokenIDs, env.poolIDs);
      GetAppend(t, t'[|t|], newID);
      FindUnique(t', |t|);
      assert t'[|t| := t'[|t|].WithReserves(Number(item.reserve0), Number(item.reserve1))] == t + [FullRow(item, env)];
    }
  }

  /** The rows of the addable pools, in batch order. */
  ghost function NewRows(t: Table, items: seq<Item>, reg: Registration, env: Lookups, n: nat): seq<Pool>
    requires Answers(reg, items) && n <= |items|
  {
    if n == 0 then []
    else
      NewRows(t, items, reg, env, n - 1)
      + if Addable(t, items, reg, env, n - 1) then [FullRow(items[n - 1], env)] else []
  }

  ghost predicate IsNewRow(t: Table, items: seq<Item>, reg: Registration, env: Lookups, n: nat, row: Pool)
    requires Answers(reg, items) && n <= |items|
  {
    exists i :: 0 <= i < n && Addable(t, items, reg, env, i) && row == FullRow(items[i], env)
  }

  lemma {:induction false} NewRowsExact(t: Table, items: seq<Item>, reg: Registration, env: Lookups, n: nat, row: Pool)
    requires Answers(reg, items) && n <= |items|
    ensures row in NewRows(t, items, reg, env, n) <==> IsNewRow(t, items, reg, env, n, row)
  {
    if n > 0 {
      NewRowsExact(t, items, reg, env, n - 1, row);
    }
  }

  /** One round under the contract. */
  lemma HonestRound(t: Table, items: seq<Item>, reg: Registration, env: Lookups, n: nat)
    requires Distinct(t) && Honest(items, reg, env) && 0 < n <= |items|
    ensures After(t, items, reg, env, n)
         == After(t, items, reg, env, n - 1)
            + if Addable(t, items, reg, env, n - 1) then [FullRow(items[n - 1], env)] else []
    ensures OutcomeOf(t, items, reg, env, n - 1) == ReservesSet <==> Addable(t, items, reg, env, n - 1)
  {
    AfterIds(t, items, reg, env, n - 1, 0);
    HonestStep(After(t, items, reg, env, n - 1), items[n - 1], reg.Id(n - 1), reg.Failed(n - 1), env);
    OutcomeExact(t, items, reg, env, n - 1);
  }

  /**
   Under the contract: the rows that were there stay put, exactly the first candidate for each ID is
   appended with its own initializer results, every one of them counts as a success, and so the view
   is left alone only if the table is.
   */
  lemma HonestBatch(t: Table, items: seq<Item>, reg: Registration, env: Lookups, n: nat)
    requires Distinct(t) && Honest(items, reg, env) && n <= |items|
    ensures After(t, items, reg, env, n) == t + NewRows(t, items, reg, env, n)
    ensures Successes(t, items, reg, env, n) == |NewRows(t, items, reg, env, n)|
    ensures Distinct(After(t, items, reg, env, n))
    ensures forall row :: row in NewRows(t, items, reg, env, n) <==> IsNewRow(t, items, reg, env, n, row)
  {
    AfterIds(t, items, reg, env, n, 0);
    HonestAppends(t, items, reg, env, n);
    forall row ensures row in NewRows(t, items, reg, env, n) <==> IsNewRow(t, items, reg, env, n, row)
    {
      NewRowsExact(t, items, reg, env, n, row);
    }
  }

  lemma {:induction false} HonestAppends(t: Table, items: seq<Item>, reg: Registration, env: Lookups, n: nat)
    requires Distinct(t) && Honest(items, reg, env) && n <= |items|
    ensures After(t, items, reg, env, n) == t + NewRows(t, items, reg, env, n)
    ensures Successes(t, items, reg, env, n) == |NewRows(t, items, reg, env, n)|
  {
    if n > 0 {
      HonestAppends(t, items, reg, env, n - 1);
      HonestRound(t, items, reg, env, n);
      SuccessesNext(t, items, reg, env, n - 1);
    }
  }

  // ---- read off the slices ----

  /** The indices of a batch whose error is nil. */
  ghost function NilErrors(slots: seq<InitSlot>): set<nat> {
    set i: nat | i < |slots| && slots[i].err.None?
  }

  /**
   What the filter lets through, and so what the registrar is handed: the pools whose error is nil, in
   batch order, each with its own address and the values found at its own index.
   */
  lemma {:induction false} ReadyExact(pools: seq<Address>, slots: seq<InitSlot>) returns (at: seq<nat>)
    requires |pools| == |slots|
    ensures Positions(at, |pools|, NilErrors(slots))
    ensures |Ready(pools, slots)| == |at|
    ensures forall k :: 0 <= k < |at| ==>
      var s := slots[at[k]];
      Ready(pools, slots)[k]
      == Item(AddRequest(s.token0, s.token1, pools[at[k]], s.poolType, s.fee), s.reserve0, s.reserve1)
  {
    at := [];
    if pools != [] {
      var n := |pools| - 1;
      var before := ReadyExact(pools[..n], slots[..n]);
      at := before + if slots[n].err.None? then [n] else [];
      PositionsNext(before, n, NilErrors(slots[..n]), NilErrors(slots));
      forall k | 0 <= k < |before|
        ensures slots[..n][before[k]] == slots[before[k]] && pools[..n][before[k]] == pools[before[k]]
      {
      }
    }
  }

  /** A dropped pool is reported under the tag of the filter, and nothing else is. */
  lemma {:induction false} DroppedTag(pools: seq<Address>, slots: seq<InitSlot>, e: Error)
    requires |pools| == |slots|
    ensures e in InitFailures(pools, slots)
       <==> exists i :: 0 <= i < |pools| && slots[i].err.Some? && e == InitializationFailed(pools[i])
  {
    if pools != [] {
      var n := |pools| - 1;
      DroppedTag(pools[..n], slots[..n], e);
      assert forall i :: 0 <= i < n ==> slots[..n][i] == slots[i] && pools[..n][i] == pools[i];
    }
  }

  /** A refused pool is reported under the tag of the registration. */
  lemma {:induction false} RefusedTag(items: seq<Item>, reg: Registration, n: nat, e: Error)
    requires Answers(reg, items) && n <= |items|
    ensures e in RegFailures(items, reg, n)
       <==> exists i :: 0 <= i < n && i < |reg.failed| && reg.failed[i]
                        && e == RegistrationFailed(items[i].request.pool)
  {
    if n > 0 {
      RefusedTag(items, reg, n - 1, e);
    }
  }

  /** A pool that cannot be added is reported with the reason, one that is added bare as such. */
  lemma {:induction false} AddedTag(items: seq<Item>, os: seq<Outcome>, e: Error)
    requires |os| <= |items|
    ensures e in FailuresOf(items, os)
       <==> exists i :: 0 <= i < |os|
                        && ((os[i].Rejected? && e == AddRejected(items[i].request.pool, os[i].why))
                            || (os[i] == ReservesUnset && e == ReservesNotSet(items[i].request.pool)))
  {
    if os != [] {
      var n := |os| - 1;
      AddedTag(items, os[..n], e);
      assert forall i :: 0 <= i < n ==> os[..n][i] == os[i];
    }
  }

  function Stage(e: Error): nat {
    match e case InitializationFailed(_) => 0 case RegistrationFailed(_) => 1 case _ => 2
  }

  /** The filter's errors come first, then the refusals, then those of the add loop. */
  lemma ErrorsInOrder(t: Table, pools: seq<Address>, slots: seq<InitSlot>, reg: Registration, env: Lookups,
                      i: nat, j: nat)
    requires |pools| == |slots| && Answers(reg, Ready(pools, slots))
    requires i < j < |Errors(t, pools, slots, reg, env)|
    ensures Stage(Errors(t, pools, slots, reg, env)[i]) <= Stage(Errors(t, pools, slots, reg, env)[j])
  {
    var items := Ready(pools, slots);
    var a, b := InitFailures(pools, slots), RegFailures(items, reg, |items|);
    var c := AddFailures(t, items, reg, env, |items|);
    forall e | e in a ensures Stage(e) == 0 { DroppedTag(pools, slots, e); }
    forall e | e in b ensures Stage(e) == 1 { RefusedTag(items, reg, |items|, e); }
    forall e | e in c ensures Stage(e) == 2 { AddedTag(items, Outcomes(t, items, reg, env, |items|), e); }
    assert Errors(t, pools, slots, reg, env) == a + (b + c);
  }

  /** Why a registered pool is turned away, in the order in which the registry looks. */
  lemma RejectionExact(t: Table, items: seq<Item>, reg: Registration, env: Lookups, i: nat)
    requires Distinct(t) && Answers(reg, items) && i < |items|
    ensures var q, outcome := items[i].request, OutcomeOf(t, items, reg, env, i);
            && (outcome == NotRegistered <==> i < |reg.failed| && reg.failed[i])
            && (outcome != NotRegistered ==>
                  && (outcome == Rejected(PoolLookupFailed) <==> q.pool !in env.poolIDs)
                  && (outcome == Rejected(PoolExists) <==>
                        && q.pool in env.poolIDs
                        && (Has(t, env.poolIDs[q.pool]) || Claimed(t, items, reg, env, i, env.poolIDs[q.pool])))
                  && (outcome == Rejected(Token0LookupFailed) <==>
                        && q.pool in env.poolIDs && q.token0 !in env.tokenIDs
                        && !(Has(t, env.poolIDs[q.pool]) || Claimed(t, items, reg, env, i, env.poolIDs[q.pool])))
                  && (outcome == Rejected(Token1LookupFailed) <==>
                        && q.pool in env.poolIDs && q.token0 in env.tokenIDs && q.token1 !in env.tokenIDs
                        && !(Has(t, env.poolIDs[q.pool]) || Claimed(t, items, reg, env, i, env.poolIDs[q.pool]))))
  {
    if items[i].request.pool in env.poolIDs {
      AfterIds(t, items, reg, env, i, env.poolIDs[items[i].request.pool]);
    }
  }

  /** The registrar's contract over its two slices: an address accepted at an index resolves to the ID there. */
  ghost predicate Resolving(items: seq<Item>, reg: Registration, env: Lookups) {
    && (forall k :: |items| <= k < |reg.failed| ==> !reg.failed[k])
    && forall k :: 0 <= k < |items| ==>
         || (k < |reg.failed| && reg.failed[k])
         || (k < |reg.ids| && items[k].request.pool in env.poolIDs && env.poolIDs[items[k].request.pool] == reg.ids[k])
  }

  lemma HonestExact(items: seq<Item>, reg: Registration, env: Lookups)
    ensures Honest(items, reg, env) <==> Resolving(items, reg, env)
  {
    if Resolving(items, reg, env) {
      forall k | 0 <= k < |items| && !reg.Failed(k)
        ensures k < |reg.ids| && items[k].request.pool in env.poolIDs
        ensures env.poolIDs[items[k].request.pool] == reg.ids[k]
      {
        assert items[k] == items[k];
      }
    }
    if Honest(items, reg, env) {
      forall k | 0 <= k < |items|
        ensures || (k < |reg.failed| && reg.failed[k])
                || (k < |reg.ids| && items[k].request.pool in env.poolIDs
                    && env.poolIDs[items[k].request.pool] == reg.ids[k])
      {
        assert reg.Failed(k) || !reg.Failed(k);
      }
    }
  }

  /** A pool marked as refused at its index is not added, and is reported as refused. */
  lemma RefusalRead(t: Table, items: seq<Item>, reg: Registration, env: Lookups, i: nat)
    requires Answers(reg, items) && i < |items| && i < |reg.failed| && reg.failed[i]
    ensures After(t, items, reg, env, i + 1) == After(t, items, reg, env, i)
    ensures RegistrationFailed(items[i].request.pool) in RegFailures(items, reg, |items|)
  {
    RefusedTag(items, reg, |items|, RegistrationFailed(items[i].request.pool));
  }

  /**
   The registrar's IDs read plainly. When every accepted pool resolves to the ID at its own index, one
   that is not in the registry, whose tokens are known and whose ID no earlier index carries, ends under
   the ID at its index on its own data.
   */
  lemma ReplyRead(t: Table, items: seq<Item>, reg: Registration, env: Lookups, i: nat)
    requires Distinct(t) && Resolving(items, reg, env)
    requires i < |items| && !(i < |reg.failed| && reg.failed[i])
    requires i < |reg.ids| && !Has(t, reg.ids[i])
    requires forall k :: 0 <= k < i && k < |reg.ids| && !(k < |reg.failed| && reg.failed[k]) ==>
      reg.ids[k] != reg.ids[i]
    requires items[i].request.token0 in env.tokenIDs && items[i].request.token1 in env.tokenIDs
    ensures Answers(reg, items) && OutcomeOf(t, items, reg, env, i) == ReservesSet
    ensures var item := items[i];
            Get(After(t, items, reg, env, |items|), reg.ids[i])
            == Some(Pool(reg.ids[i], env.tokenIDs[item.request.token0], env.tokenIDs[item.request.token1],
                         Number(item.reserve0), Number(item.reserve1), item.request.poolType, item.request.fee))
  {
    HonestExact(items, reg, env);
    assert items[i] == items[i] && Candidate(t, items, reg, env, i);
    forall k | 0 <= k < i && Candidate(t, items, reg, env, k) ensures IdOf(items, env, k) != IdOf(items, env, i)
    {
      assert reg.ids[k] != reg.ids[i];
    }
    assert Addable(t, items, reg, env, i);
    OutcomeExact(t, items, reg, env, i);
    TrustedIntended(t, items, reg, env);
  }
}
