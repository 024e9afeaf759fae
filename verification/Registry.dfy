/**
 The struct-of-arrays registry: seven parallel slices, an ID-to-index map, and heap-allocated
 reserve numbers that are mutated in place.
 */
module Registries {
  import opened Slices
  import opened Tables
  import opened Types

  /** A mutable integer, as `big.Int`. */
  class BigInt {
    var value: int

    constructor (v: int)
      ensures value == v
    {
      value := v;
    }

    method Set(x: BigInt)
      modifies this
      ensures value == old(x.value)
    {
      value := x.value;
    }
  }

  /** A published record. Its reserves point to numbers that every copy of the record shares. */
  datatype PoolView = PoolView(id: uint64, token0: uint64, token1: uint64,
                               reserve0: BigInt, reserve1: BigInt, poolType: uint8, fee: uint16)

  ghost function ViewRow(v: PoolView): Pool
    reads v.reserve0, v.reserve1
  {
    Pool(v.id, v.token0, v.token1, v.reserve0.value, v.reserve1.value, v.poolType, v.fee)
  }

  /** The reserve numbers a published slice points to. */
  ghost function ViewObjects(vs: seq<PoolView>): set<BigInt> {
    (set v | v in vs :: v.reserve0) + (set v | v in vs :: v.reserve1)
  }

  lemma ViewObjectsAppend(vs: seq<PoolView>, v: PoolView)
    ensures ViewObjects(vs + [v]) == ViewObjects(vs) + {v.reserve0, v.reserve1}
  {
    assert forall w :: w in vs + [v] <==> w in vs || w == v;
  }

  /** The values a reader of the published slice sees. */
  ghost function ViewRows(vs: seq<PoolView>): (t: Table)
    reads ViewObjects(vs)
    ensures |t| == |vs|
    ensures forall i :: 0 <= i < |vs| ==> t[i] == ViewRow(vs[i])
  {
    seq(|vs|, i requires 0 <= i < |vs| reads ViewObjects(vs) => ViewRow(vs[i]))
  }

  /** What overwriting an index entry per row leaves behind: for each key, a position it holds, none later. */
  ghost predicate LastIndex(keys: seq<uint64>, index: map<uint64, nat>) {
    && (forall x :: x in index ==> index[x] < |keys| && keys[index[x]] == x)
    && (forall i :: 0 <= i < |keys| ==> keys[i] in index && i <= index[keys[i]])
  }

  lemma LastIndexInverse(t: Table, keys: seq<uint64>, index: map<uint64, nat>)
    requires LastIndex(keys, index) && |t| == |keys|
    requires forall i :: 0 <= i < |t| ==> t[i].id == keys[i]
    ensures Inverse(keys, index) <==> Distinct(t)
    ensures index.Keys == Ids(t)
  {
    if Inverse(keys, index) {
      forall i, j | 0 <= i < j < |t| ensures t[i].id != t[j].id
      {
        assert index[keys[i]] == i && index[keys[j]] == j;
      }
    }
    if Distinct(t) {
      forall i | 0 <= i < |keys| ensures index[keys[i]] == i
      {
        assert t[i].id == t[index[keys[i]]].id;
      }
    }
    forall x | x in index ensures x in Ids(t) {
      assert t[index[x]].id == x;
    }
  }

  class Registry {
    var id: seq<uint64>
    var token0: seq<uint64>
    var token1: seq<uint64>
    var reserve0: seq<BigInt>
    var reserve1: seq<BigInt>
    var poolType: seq<uint8>
    var fee: seq<uint16>
    var idToIndex: map<uint64, nat>

    predicate Aligned()
      reads this
    {
      |id| == |token0| == |token1| == |reserve0| == |reserve1| == |poolType| == |fee|
    }

    ghost function Objects(): set<BigInt>
      reads this
    {
      Elements(reserve0, reserve1)
    }

    /** Slices of one length, reserve numbers all distinct objects, `id` and `idToIndex` mutually inverse. */
    ghost predicate Valid()
      reads this
    {
      && Aligned()
      && Unshared(reserve0, reserve1)
      && Inverse(id, idToIndex)
    }

    ghost function Row(i: nat): Pool
      requires Aligned() && i < |id|
      reads this, reserve0, reserve1
    {
      Pool(id[i], token0[i], token1[i], reserve0[i].value, reserve1[i].value, poolType[i], fee[i])
    }

    /** The abstract value of the registry. */
    ghost function Rows(): (t: Table)
      requires Aligned()
      reads this, reserve0, reserve1
      ensures |t| == |id|
      ensures forall i :: 0 <= i < |id| ==> t[i] == Row(i)
    {
      seq(|id|, i requires 0 <= i < |id| && Aligned() reads this, reserve0, reserve1 => Row(i))
    }

    /** In a valid registry the index map answers exactly as a search of the rows does. */
    lemma IndexedFinds(x: uint64)
      requires Valid()
      ensures Distinct(Rows())
      ensures Has(Rows(), x) <==> x in idToIndex
      ensures x in idToIndex ==> Find(Rows(), x) == idToIndex[x]
    {
      if x in idToIndex {
        FindUnique(Rows(), idToIndex[x]);
      }
    }

    constructor Empty()
      ensures Valid() && Rows() == [] && Objects() == {}
    {
      id, token0, token1, reserve0, reserve1, poolType, fee := [], [], [], [], [], [], [];
      idToIndex := map[];
    }

    /**
     Rebuilds a registry from a snapshot with copied reserves. It is well formed exactly when the
     snapshot's IDs are distinct; a repeated ID leaves an index map that forgets the earlier row.
     */
    constructor FromViews(views: seq<PoolView>)
      ensures Aligned() && Unshared(reserve0, reserve1) && fresh(Objects())
      ensures Rows() == ViewRows(views)
      ensures Valid() <==> Distinct(Rows())
      ensures idToIndex.Keys == Ids(Rows())
    {
      id, token0, token1, reserve0, reserve1, poolType, fee := [], [], [], [], [], [], [];
      idToIndex := map[];
      new;
      assert Objects() == {} && Rows() == [];
      RestoreRows(views);
      LastIndexInverse(Rows(), id, idToIndex);
    }

    /** Appends one entry to each slice. */
    method AppendRow(row: PoolView)
      modifies this
      ensures id == old(id) + [row.id] && token0 == old(token0) + [row.token0] && token1 == old(token1) + [row.token1]
      ensures reserve0 == old(reserve0) + [row.reserve0] && reserve1 == old(reserve1) + [row.reserve1]
      ensures poolType == old(poolType) + [row.poolType] && fee == old(fee) + [row.fee]
      ensures idToIndex == old(idToIndex)[row.id := |old(id)|]
    {
      id, token0, token1 := id + [row.id], token0 + [row.token0], token1 + [row.token1];
      reserve0, reserve1 := reserve0 + [row.reserve0], reserve1 + [row.reserve1];
      poolType, fee := poolType + [row.poolType], fee + [row.fee];
      idToIndex := idToIndex[row.id := |id| - 1];
    }

    /** Appends a copy of a published record, with reserve numbers of its own. */
    method RestoreRow(view: PoolView)
      requires Aligned() && Unshared(reserve0, reserve1) && LastIndex(id, idToIndex)
      modifies this
      ensures Aligned() && Unshared(reserve0, reserve1) && LastIndex(id, idToIndex)
      ensures fresh(Objects() - old(Objects()))
      ensures Rows() == old(Rows()) + [old(ViewRow(view))]
    {
      ghost var before := Rows();
      var r0 := new BigInt(view.reserve0.value);
      var r1 := new BigInt(view.reserve1.value);
      UnsharedAppend(reserve0, reserve1, r0, r1);
      AppendRow(PoolView(view.id, view.token0, view.token1, r0, r1, view.poolType, view.fee));
      assert Rows() == before + [old(ViewRow(view))];
    }

    method RestoreRows(views: seq<PoolView>)
      requires Aligned() && id == [] && idToIndex == map[]
      modifies this
      ensures Aligned() && Unshared(reserve0, reserve1) && LastIndex(id, idToIndex) && fresh(Objects())
      ensures Rows() == ViewRows(views)
    {
      for i := 0 to |views|
        invariant Aligned() && Unshared(reserve0, reserve1) && LastIndex(id, idToIndex) && fresh(Objects())
        invariant Rows() == ViewRows(views)[..i]
      {
        RestoreRow(views[i]);
      }
    }

    /** Copies the last entry of each slice over the entry at `index`. */
    method MoveLastRow(index: nat)
      requires Aligned() && index < |id|
      modifies this
      ensures id == old(id[index := id[|id| - 1]])
      ensures token0 == old(token0[index := token0[|id| - 1]]) && token1 == old(token1[index := token1[|id| - 1]])
      ensures reserve0 == old(reserve0[index := reserve0[|id| - 1]])
      ensures reserve1 == old(reserve1[index := reserve1[|id| - 1]])
      ensures poolType == old(poolType[index := poolType[|id| - 1]]) && fee == old(fee[index := fee[|id| - 1]])
      ensures idToIndex == old(idToIndex[id[|id| - 1] := index])
    {
      var last := |id| - 1;
      var lastPoolID := id[last];
      id := id[index := lastPoolID];
      token0 := token0[index := token0[last]];
      token1 := token1[index := token1[last]];
      reserve0 := reserve0[index := reserve0[last]];
      reserve1 := reserve1[index := reserve1[last]];
      poolType := poolType[index := poolType[last]];
      fee := fee[index := fee[last]];
      idToIndex := idToIndex[lastPoolID := index];
    }

    /** Drops the last entry of each slice and the deleted ID's index entry. */
    method DropLastRow(poolID: uint64)
      requires Aligned() && id != []
      modifies this
      ensures id == old(id[..|id| - 1])
      ensures token0 == old(token0[..|id| - 1]) && token1 == old(token1[..|id| - 1])
      ensures reserve0 == old(reserve0[..|id| - 1]) && reserve1 == old(reserve1[..|id| - 1])
      ensures poolType == old(poolType[..|id| - 1]) && fee == old(fee[..|id| - 1])
      ensures idToIndex == old(idToIndex - {poolID})
    {
      var last := |id| - 1;
      idToIndex := idToIndex - {poolID};
      id, token0, token1 := id[..last], token0[..last], token1[..last];
      reserve0, reserve1 := reserve0[..last], reserve1[..last];
      poolType, fee := poolType[..last], fee[..last];
    }

    /** Takes the row at `index` out of each slice, the last row moving into its place. */
    method SwapPopRow(index: nat)
      requires Aligned() && index < |id|
      modifies this
      ensures id == SwapPop(old(id), index)
      ensures token0 == SwapPop(old(token0), index) && token1 == SwapPop(old(token1), index)
      ensures reserve0 == SwapPop(old(reserve0), index) && reserve1 == SwapPop(old(reserve1), index)
      ensures poolType == SwapPop(old(poolType), index) && fee == SwapPop(old(fee), index)
      ensures idToIndex == (if index == |old(id)| - 1 then old(idToIndex) else old(idToIndex)[old(id)[|id|] := index])
                           - {old(id)[index]}
    {
      var poolID := id[index];
      if index != |id| - 1 {
        MoveLastRow(index);
      }
      DropLastRow(poolID);
    }

    method AddPool(q: AddRequest, tokenIDs: map<Address, uint64>, poolIDs: map<Address, uint64>)
      returns (err: AddError)
      requires Valid()
      modifies this
      ensures Valid() && fresh(Objects() - old(Objects())) && old(Objects()) <= Objects()
      ensures err == AddVerdict(old(Rows()), q, tokenIDs, poolIDs)
      ensures Rows() == Add(old(Rows()), q, tokenIDs, poolIDs)
      ensures err != Added ==> unchanged(this)
      ensures err == Added ==>
        && id == old(id) + [poolIDs[q.pool]] && poolType == old(poolType) + [q.poolType] && fee == old(fee) + [q.fee]
        && token0 == old(token0) + [tokenIDs[q.token0]] && token1 == old(token1) + [tokenIDs[q.token1]]
    {
      if q.pool !in poolIDs { return PoolLookupFailed; }
      var poolID := poolIDs[q.pool];
      IndexedFinds(poolID);
      if poolID in idToIndex { return PoolExists; }
      if q.token0 !in tokenIDs { return Token0LookupFailed; }
      if q.token1 !in tokenIDs { return Token1LookupFailed; }
      ghost var before := Rows();
      var zero0 := new BigInt(0);
      var zero1 := new BigInt(0);
      UnsharedAppend(reserve0, reserve1, zero0, zero1);
      InverseAppend(id, idToIndex, poolID);
      AppendRow(PoolView(poolID, tokenIDs[q.token0], tokenIDs[q.token1], zero0, zero1, q.poolType, q.fee));
      assert Rows() == Add(before, q, tokenIDs, poolIDs);
      return Added;
    }

    /**
     Overwrites both reserve numbers in place, the first before the second is read: a second source
     number that is the pool's own first reserve object has the first source's value by then. A nil
     source is never read for an unknown ID.
     */
    method UpdatePool(r0: BigInt?, r1: BigInt?, poolID: uint64) returns (ok: bool)
      requires Valid()
      requires Has(Rows(), poolID) ==> r0 != null && r1 != null
      modifies Objects()
      ensures ok == Has(old(Rows()), poolID)
      ensures !ok ==> Rows() == old(Rows())
      ensures ok ==> Rows() == Update(old(Rows()), poolID, old(r0.value),
                                      if r1 == reserve0[idToIndex[poolID]] then old(r0.value) else old(r1.value))
      ensures ok && poolID in idToIndex && r1 != reserve0[idToIndex[poolID]] ==>
        && reserve0[idToIndex[poolID]].value == old(r0.value) && reserve1[idToIndex[poolID]].value == old(r1.value)
    {
      IndexedFinds(poolID);
      if poolID !in idToIndex { return false; }
      var index := idToIndex[poolID];
      ghost var before := Rows();
      ghost var v0, v1 := r0.value, if r1 == reserve0[index] then r0.value else r1.value;
      reserve0[index].Set(r0);
      reserve1[index].Set(r1);
      assert Rows() == Update(before, poolID, v0, v1);
      return true;
    }

    /** Swap-and-pop deletion. */
    method DeletePool(poolID: uint64) returns (ok: bool)
      requires Valid()
      modifies this
      ensures Valid() && Objects() <= old(Objects())
      ensures ok == Has(old(Rows()), poolID)
      ensures Rows() == Delete(old(Rows()), poolID)
      ensures !ok ==> unchanged(this)
    {
      IndexedFinds(poolID);
      if poolID !in idToIndex { return false; }
      ghost var before := Rows();
      var index := idToIndex[poolID];
      UnsharedSwapPop(reserve0, reserve1, index);
      InverseSwapPop(id, idToIndex, index);
      SwapPopRow(index);
      assert Rows() == Delete(before, poolID);
      return true;
    }

    /** A copy of every row with reserve numbers of its own. */
    method View() returns (views: seq<PoolView>)
      requires Aligned()
      ensures ViewRows(views) == Rows()
      ensures |views| == |id| && forall i :: 0 <= i < |id| ==>
        && views[i].id == id[i] && views[i].token0 == token0[i] && views[i].token1 == token1[i]
        && views[i].reserve0.value == reserve0[i].value && views[i].reserve1.value == reserve1[i].value
        && views[i].poolType == poolType[i] && views[i].fee == fee[i]
      ensures fresh(ViewObjects(views))
    {
      views := [];
      var i := 0;
      while i < |id|
        invariant 0 <= i <= |id| && |views| == i
        invariant forall o :: o in ViewObjects(views) ==> fresh(o)
        invariant forall j :: 0 <= j < i ==>
          && views[j].id == id[j] && views[j].token0 == token0[j] && views[j].token1 == token1[j]
          && views[j].reserve0.value == reserve0[j].value && views[j].reserve1.value == reserve1[j].value
          && views[j].poolType == poolType[j] && views[j].fee == fee[j]
      {
        var r0 := new BigInt(reserve0[i].value);
        var r1 := new BigInt(reserve1[i].value);
        var view := PoolView(id[i], token0[i], token1[i], r0, r1, poolType[i], fee[i]);
        ViewObjectsAppend(views, view);
        views := views + [view];
        i := i + 1;
      }
      assert ViewRows(views) == Rows();
    }

    method GetPoolById(poolID: uint64) returns (found: Option<PoolView>)
      requires Valid()
      ensures found.Some? <==> Has(Rows(), poolID)
      ensures found.Some? ==> Get(Rows(), poolID) == Some(ViewRow(found.value))
      ensures found.Some? ==> fresh(found.value.reserve0) && fresh(found.value.reserve1)
    {
      IndexedFinds(poolID);
      if poolID !in idToIndex { return None; }
      var i := idToIndex[poolID];
      var r0 := new BigInt(reserve0[i].value);
      var r1 := new BigInt(reserve1[i].value);
      return Some(PoolView(id[i], token0[i], token1[i], r0, r1, poolType[i], fee[i]));
    }

    method HasPool(poolID: uint64) returns (found: bool)
      requires Valid()
      ensures found == Has(Rows(), poolID)
    {
      IndexedFinds(poolID);
      found := poolID in idToIndex;
    }
  }
}
