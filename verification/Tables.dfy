/** The registry as a value: its rows in physical order, and the finite map they stand for. */
module Tables {
  import opened Types

  type Table = seq<Pool>

  ghost predicate Distinct(t: Table) {
    forall i, j :: 0 <= i < j < |t| ==> t[i].id != t[j].id
  }

  /** Position of the first row with this ID; the length when there is none. */
  function Find(t: Table, id: uint64): (k: nat)
    ensures k <= |t|
    ensures k < |t| ==> t[k].id == id
    ensures forall j :: 0 <= j < k ==> t[j].id != id
  {
    if t == [] || t[0].id == id then 0 else 1 + Find(t[1..], id)
  }

  predicate Has(t: Table, id: uint64) {
    Find(t, id) < |t|
  }

  function Get(t: Table, id: uint64): Option<Pool> {
    if Has(t, id) then Some(t[Find(t, id)]) else None
  }

  function Ids(t: Table): set<uint64> {
    set i | 0 <= i < |t| :: t[i].id
  }

  /** The finite map from pool ID to pool record that a table stands for. */
  function Index(t: Table): map<uint64, Pool> {
    map id | id in Ids(t) :: t[Find(t, id)]
  }

  // ---- the three mutations, as the registry performs them on its rows ----

  datatype AddError = Added | PoolLookupFailed | PoolExists | Token0LookupFailed | Token1LookupFailed

  datatype AddRequest = AddRequest(token0: Address, token1: Address, pool: Address, poolType: uint8, fee: uint16)

  /** Which check of an add request fires first, in the order the checks are made. */
  function AddVerdict(t: Table, q: AddRequest, tokenIDs: map<Address, uint64>, poolIDs: map<Address, uint64>)
    : AddError
  {
    if q.pool !in poolIDs then PoolLookupFailed
    else if Has(t, poolIDs[q.pool]) then PoolExists
    else if q.token0 !in tokenIDs then Token0LookupFailed
    else if q.token1 !in tokenIDs then Token1LookupFailed
    else Added
  }

  function Add(t: Table, q: AddRequest, tokenIDs: map<Address, uint64>, poolIDs: map<Address, uint64>): Table {
    if AddVerdict(t, q, tokenIDs, poolIDs) != Added then t
    else t + [Pool(poolIDs[q.pool], tokenIDs[q.token0], tokenIDs[q.token1], 0, 0, q.poolType, q.fee)]
  }

  function Update(t: Table, id: uint64, r0: int, r1: int): Table {
    if Has(t, id) then var k := Find(t, id); t[k := t[k].WithReserves(r0, r1)] else t
  }

  /** Swap-and-pop: the last row takes the place of the deleted one. */
  function Delete(t: Table, id: uint64): Table {
    if !Has(t, id) then t
    else
      var last := |t| - 1;
      t[Find(t, id) := t[last]][..last]
  }

  // ---- the table refines a finite map ----

  lemma FindUnique(t: Table, i: nat)
    requires Distinct(t) && i < |t|
    ensures Find(t, t[i].id) == i
  {
  }

  lemma IndexGet(t: Table, id: uint64)
    ensures id in Index(t) <==> Get(t, id).Some?
    ensures id in Index(t) ==> Index(t)[id] == Get(t, id).value
    ensures Has(t, id) <==> id in Ids(t)
  {
    if id in Ids(t) {
      var i :| 0 <= i < |t| && t[i].id == id;
      assert Find(t, id) <= i;
    }
  }

  lemma GetUpdate(t: Table, id: uint64, r0: int, r1: int, x: uint64)
    requires Distinct(t)
    ensures Distinct(Update(t, id, r0, r1))
    ensures Get(Update(t, id, r0, r1), x)
         == if x == id && Has(t, id) then Some(Get(t, id).value.WithReserves(r0, r1)) else Get(t, x)
  {
    var u := Update(t, id, r0, r1);
    assert forall i :: 0 <= i < |t| ==> u[i].id == t[i].id;
    assert Find(u, x) == Find(t, x);
  }

  lemma GetAppend(t: Table, p: Pool, x: uint64)
    requires Distinct(t) && !Has(t, p.id)
    ensures Distinct(t + [p])
    ensures Get(t + [p], x) == if x == p.id then Some(p) else Get(t, x)
  {
    var u := t + [p];
    assert forall i :: 0 <= i < |t| ==> u[i] == t[i];
    if Has(t, x) {
      FindUnique(u, Find(t, x));
    } else if x == p.id {
      FindUnique(u, |t|);
    }
  }

  lemma DeleteRows(t: Table, id: uint64)
    requires Distinct(t) && Has(t, id)
    ensures |Delete(t, id)| == |t| - 1
    ensures forall i :: 0 <= i < |t| - 1 ==> Delete(t, id)[i] == t[if i == Find(t, id) then |t| - 1 else i]
    ensures Distinct(Delete(t, id))
  {
  }

  lemma GetDelete(t: Table, id: uint64, x: uint64)
    requires Distinct(t)
    ensures Distinct(Delete(t, id))
    ensures Get(Delete(t, id), x) == if x == id then None else Get(t, x)
  {
    if Has(t, id) {
      DeleteRows(t, id);
      var k, last, u := Find(t, id), |t| - 1, Delete(t, id);
      if x != id && Has(t, x) {
        var i := Find(t, x);
        FindUnique(u, if i == last then k else i);
      } else if Has(u, x) {
        var i := Find(u, x);
        FindUnique(t, if i == k then last else i);
      }
    }
  }

  function Lookup(m: map<uint64, Pool>, id: uint64): Option<Pool> {
    if id in m then Some(m[id]) else None
  }

  /** A table stands for the map that answers every lookup the same way. */
  lemma IndexIs(t: Table, m: map<uint64, Pool>)
    requires forall x :: Get(t, x) == Lookup(m, x)
    ensures Index(t) == m
  {
    forall x ensures x in Index(t) <==> x in m
    {
      IndexGet(t, x);
      assert Get(t, x) == Lookup(m, x);
    }
    forall x | x in m ensures Index(t)[x] == m[x]
    {
      IndexGet(t, x);
      assert Get(t, x) == Lookup(m, x);
    }
  }

  lemma AddRefines(t: Table, q: AddRequest, tokenIDs: map<Address, uint64>, poolIDs: map<Address, uint64>)
    requires Distinct(t)
    ensures Distinct(Add(t, q, tokenIDs, poolIDs))
    ensures AddVerdict(t, q, tokenIDs, poolIDs) == Added
       <==> q.pool in poolIDs && poolIDs[q.pool] !in Index(t) && {q.token0, q.token1} <= tokenIDs.Keys
    ensures Index(Add(t, q, tokenIDs, poolIDs))
         == if AddVerdict(t, q, tokenIDs, poolIDs) == Added
            then Index(t)[poolIDs[q.pool] :=
                            Pool(poolIDs[q.pool], tokenIDs[q.token0], tokenIDs[q.token1], 0, 0, q.poolType, q.fee)]
            else Index(t)
  {
    if q.pool in poolIDs {
      IndexGet(t, poolIDs[q.pool]);
    }
    if AddVerdict(t, q, tokenIDs, poolIDs) == Added {
      var p := Pool(poolIDs[q.pool], tokenIDs[q.token0], tokenIDs[q.token1], 0, 0, q.poolType, q.fee);
      forall x ensures Distinct(t + [p]) && Get(t + [p], x) == Lookup(Index(t)[p.id := p], x)
      {
        GetAppend(t, p, x);
        IndexGet(t, x);
      }
      IndexIs(t + [p], Index(t)[p.id := p]);
    }
  }

  lemma UpdateRefines(t: Table, id: uint64, r0: int, r1: int)
    requires Distinct(t)
    ensures Distinct(Update(t, id, r0, r1))
    ensures Index(Update(t, id, r0, r1))
         == if id in Index(t) then Index(t)[id := Index(t)[id].WithReserves(r0, r1)] else Index(t)
  {
    IndexGet(t, id);
    if Has(t, id) {
      var m := Index(t)[id := Index(t)[id].WithReserves(r0, r1)];
      forall x ensures Distinct(Update(t, id, r0, r1)) && Get(Update(t, id, r0, r1), x) == Lookup(m, x)
      {
        GetUpdate(t, id, r0, r1, x);
        IndexGet(t, x);
      }
      IndexIs(Update(t, id, r0, r1), m);
    }
  }

  lemma DeleteRefines(t: Table, id: uint64)
    requires Distinct(t)
    ensures Distinct(Delete(t, id))
    ensures Index(Delete(t, id)) == Index(t) - {id}
    ensures Has(t, id) <==> |Delete(t, id)| == |t| - 1
  {
    forall x ensures Distinct(Delete(t, id)) && Get(Delete(t, id), x) == Lookup(Index(t) - {id}, x)
    {
      GetDelete(t, id, x);
      IndexGet(t, x);
    }
    IndexIs(Delete(t, id), Index(t) - {id});
  }
}
