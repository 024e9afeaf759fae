/** Any sequence of registry operations: against a plain finite map, and against a restored copy. */
module RegistryRuns {
  import opened Registries
  import opened Tables
  import opened Types

  datatype Op =
    | OpAdd(request: AddRequest, tokenIDs: map<Address, uint64>, poolIDs: map<Address, uint64>)
    | OpUpdate(id: uint64, reserve0: int, reserve1: int)
    | OpDelete(id: uint64)
    | OpGet(id: uint64)
    | OpHas(id: uint64)

  datatype Reply = Verdict(err: AddError) | Flag(ok: bool) | Found(pool: Option<Pool>)

  // ---- on tables ----

  function Step(t: Table, op: Op): (Table, Reply) {
    match op
    case OpAdd(q, tokenIDs, poolIDs) => (Add(t, q, tokenIDs, poolIDs), Verdict(AddVerdict(t, q, tokenIDs, poolIDs)))
    case OpUpdate(id, r0, r1) => (Update(t, id, r0, r1), Flag(Has(t, id)))
    case OpDelete(id) => (Delete(t, id), Flag(Has(t, id)))
    case OpGet(id) => (t, Found(Get(t, id)))
    case OpHas(id) => (t, Flag(Has(t, id)))
  }

  function After(t: Table, ops: seq<Op>): Table {
    if ops == [] then t else Step(After(t, ops[..|ops| - 1]), ops[|ops| - 1]).0
  }

  function Replies(t: Table, ops: seq<Op>): seq<Reply> {
    if ops == [] then []
    else var front := ops[..|ops| - 1]; Replies(t, front) + [Step(After(t, front), ops[|ops| - 1]).1]
  }

  // ---- on finite maps ----

  type PoolMap = map<uint64, Pool>

  function MapVerdict(m: PoolMap, op: Op): AddError
    requires op.OpAdd?
  {
    if op.request.pool !in op.poolIDs then PoolLookupFailed
    else if op.poolIDs[op.request.pool] in m then PoolExists
    else if op.request.token0 !in op.tokenIDs then Token0LookupFailed
    else if op.request.token1 !in op.tokenIDs then Token1LookupFailed
    else Added
  }

  /** The plain map a reader would expect the registry to be. */
  function MapStep(m: PoolMap, op: Op): (PoolMap, Reply) {
    match op
    case OpAdd(q, tokenIDs, poolIDs) =>
      (if MapVerdict(m, op) != Added then m
       else
         var id := poolIDs[q.pool];
         m[id := Pool(id, tokenIDs[q.token0], tokenIDs[q.token1], 0, 0, q.poolType, q.fee)],
       Verdict(MapVerdict(m, op)))
    case OpUpdate(id, r0, r1) => (if id in m then m[id := m[id].WithReserves(r0, r1)] else m, Flag(id in m))
    case OpDelete(id) => (m - {id}, Flag(id in m))
    case OpGet(id) => (m, Found(Lookup(m, id)))
    case OpHas(id) => (m, Flag(id in m))
  }

  function MapAfter(m: PoolMap, ops: seq<Op>): PoolMap {
    if ops == [] then m else MapStep(MapAfter(m, ops[..|ops| - 1]), ops[|ops| - 1]).0
  }

  function MapReplies(m: PoolMap, ops: seq<Op>): seq<Reply> {
    if ops == [] then []
    else var front := ops[..|ops| - 1]; MapReplies(m, front) + [MapStep(MapAfter(m, front), ops[|ops| - 1]).1]
  }

  lemma StepRefinesMap(t: Table, op: Op)
    requires Distinct(t)
    ensures Distinct(Step(t, op).0)
    ensures Index(Step(t, op).0) == MapStep(Index(t), op).0 && Step(t, op).1 == MapStep(Index(t), op).1
  {
    match op
    case OpAdd(q, tokenIDs, poolIDs) =>
      AddRefines(t, q, tokenIDs, poolIDs);
      if q.pool in poolIDs { IndexGet(t, poolIDs[q.pool]); }
    case OpUpdate(id, r0, r1) => UpdateRefines(t, id, r0, r1); IndexGet(t, id);
    case OpDelete(id) => DeleteRefines(t, id); IndexGet(t, id);
    case OpGet(id) => IndexGet(t, id);
    case OpHas(id) => IndexGet(t, id);
  }

  /** Over any operations, swap-and-pop slices answer as the map does and stand for the map it becomes. */
  lemma {:induction false} TableRefinesMap(t: Table, ops: seq<Op>)
    requires Distinct(t)
    ensures Distinct(After(t, ops)) && Index(After(t, ops)) == MapAfter(Index(t), ops)
    ensures Replies(t, ops) == MapReplies(Index(t), ops)
  {
    if ops != [] {
      TableRefinesMap(t, ops[..|ops| - 1]);
      StepRefinesMap(After(t, ops[..|ops| - 1]), ops[|ops| - 1]);
    }
  }

  // ---- on the heap ----

  /** Performs one operation; numbers outside the registry keep their values and stay outside. */
  method Perform(r: Registry, op: Op, ghost outside: set<BigInt>) returns (reply: Reply)
    requires r.Valid() && outside !! r.Objects()
    modifies r, r.Objects()
    ensures r.Valid() && outside !! r.Objects()
    ensures forall o :: o in r.Objects() ==> o in old(r.Objects()) || fresh(o)
    ensures (r.Rows(), reply) == Step(old(r.Rows()), op)
  {
    match op
    case OpAdd(q, tokenIDs, poolIDs) =>
      var err := r.AddPool(q, tokenIDs, poolIDs);
      reply := Verdict(err);
    case OpUpdate(id, v0, v1) =>
      var ok := UpdateWith(r, id, v0, v1);
      reply := Flag(ok);
    case OpDelete(id) =>
      var ok := r.DeletePool(id);
      reply := Flag(ok);
    case OpGet(id) =>
      var found := ReadPool(r, id);
      reply := Found(found);
    case OpHas(id) =>
      var ok := r.HasPool(id);
      reply := Flag(ok);
  }

  method UpdateWith(r: Registry, id: uint64, v0: int, v1: int) returns (ok: bool)
    requires r.Valid()
    modifies r.Objects()
    ensures ok == Has(old(r.Rows()), id) && r.Rows() == Update(old(r.Rows()), id, v0, v1)
  {
    var r0 := new BigInt(v0);
    var r1 := new BigInt(v1);
    ok := r.UpdatePool(r0, r1, id);
  }

  method ReadPool(r: Registry, id: uint64) returns (found: Option<Pool>)
    requires r.Valid()
    ensures found == Get(r.Rows(), id)
  {
    var view := r.GetPoolById(id);
    if view.None? { return None; }
    var v := view.value;
    found := Some(Pool(v.id, v.token0, v.token1, v.reserve0.value, v.reserve1.value, v.poolType, v.fee));
  }

  /** Performs any operations; a view taken earlier keeps every value through all of them. */
  method Run(r: Registry, ops: seq<Op>, ghost held: seq<PoolView>) returns (replies: seq<Reply>)
    requires r.Valid() && ViewObjects(held) !! r.Objects()
    modifies r, r.Objects()
    ensures r.Valid() && ViewObjects(held) !! r.Objects()
    ensures forall o :: o in r.Objects() ==> o in old(r.Objects()) || fresh(o)
    ensures r.Rows() == After(old(r.Rows()), ops) && replies == Replies(old(r.Rows()), ops)
    ensures ViewRows(held) == old(ViewRows(held))
  {
    replies := [];
    ghost var before := r.Rows();
    ghost var outside := ViewObjects(held);
    for i := 0 to |ops|
      invariant r.Valid() && outside !! r.Objects()
      invariant forall o :: o in r.Objects() ==> o in old(r.Objects()) || fresh(o)
      invariant r.Rows() == After(before, ops[..i]) && replies == Replies(before, ops[..i])
    {
      assert ops[..i + 1][..i] == ops[..i];
      var reply := Perform(r, ops[i], outside);
      replies := replies + [reply];
    }
    assert ops[..|ops|] == ops;
  }

  /**
   Restoring from a view gives a registry that cannot be told from the original by any later
   operations on both, shares no reserve number with it, and views back as the same snapshot.
   */
  method RestoredIsEquivalent(r: Registry, ops: seq<Op>) returns (copy: Registry, mine: seq<Reply>, theirs: seq<Reply>)
    requires r.Valid()
    modifies r, r.Objects()
    ensures r.Valid() && copy.Valid() && fresh(copy) && copy.Objects() !! r.Objects()
    ensures copy.Rows() == r.Rows() && theirs == mine == Replies(old(r.Rows()), ops)
  {
    copy := Restore(r);
    mine, theirs := RunBoth(r, copy, ops);
  }

  method RunBoth(r: Registry, copy: Registry, ops: seq<Op>) returns (mine: seq<Reply>, theirs: seq<Reply>)
    requires r.Valid() && copy.Valid() && r != copy && copy.Objects() !! r.Objects() && copy.Rows() == r.Rows()
    modifies r, r.Objects(), copy, copy.Objects()
    ensures r.Valid() && copy.Valid() && copy.Objects() !! r.Objects()
    ensures copy.Rows() == r.Rows() && theirs == mine == Replies(old(r.Rows()), ops)
  {
    mine, theirs := [], [];
    ghost var before := r.Rows();
    for i := 0 to |ops|
      invariant r.Valid() && copy.Valid() && copy.Objects() !! r.Objects()
      invariant forall o :: o in r.Objects() ==> o in old(r.Objects()) || fresh(o)
      invariant forall o :: o in copy.Objects() ==> o in old(copy.Objects()) || fresh(o)
      invariant copy.Rows() == r.Rows() == After(before, ops[..i])
      invariant theirs == mine == Replies(before, ops[..i])
    {
      assert ops[..i + 1][..i] == ops[..i];
      var a, b := PerformBoth(r, copy, ops[i]);
      mine, theirs := mine + [a], theirs + [b];
    }
    assert ops[..|ops|] == ops;
  }

  method PerformBoth(r: Registry, copy: Registry, op: Op) returns (a: Reply, b: Reply)
    requires r.Valid() && copy.Valid() && r != copy && copy.Objects() !! r.Objects() && copy.Rows() == r.Rows()
    modifies r, r.Objects(), copy, copy.Objects()
    ensures r.Valid() && copy.Valid() && copy.Objects() !! r.Objects()
    ensures forall o :: o in r.Objects() ==> o in old(r.Objects()) || fresh(o)
    ensures forall o :: o in copy.Objects() ==> o in old(copy.Objects()) || fresh(o)
    ensures copy.Rows() == r.Rows() == Step(old(r.Rows()), op).0
    ensures a == b == Step(old(r.Rows()), op).1
  {
    ghost var before := copy.Rows();
    a := Perform(r, op, copy.Objects());
    assert copy.Rows() == before;
    ghost var after := r.Rows();
    b := Perform(copy, op, r.Objects());
    assert r.Rows() == after;
  }

  method Restore(r: Registry) returns (copy: Registry)
    requires r.Valid()
    ensures copy.Valid() && fresh(copy) && fresh(copy.Objects()) && copy.Rows() == r.Rows()
  {
    var view := r.View();
    r.IndexedFinds(0);
    copy := new Registry.FromViews(view);
  }
}
