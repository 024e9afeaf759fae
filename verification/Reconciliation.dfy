/** One reconciliation cycle: two snapshots around a fetch, then a locked overwrite. */
module Reconciliation {
  import opened Reserves
  import opened Slices
  import opened Tables
  import opened Types
  import opened Updates

  /** The IDs of a snapshot whose address is known, in snapshot order. */
  function Resolvable(prev: Table, addressOf: map<uint64, Address>): seq<uint64> {
    if prev == [] then []
    else
      var last := prev[|prev| - 1].id;
      Resolvable(prev[..|prev| - 1], addressOf) + if last in addressOf then [last] else []
  }

  lemma {:induction false} ResolvableExact(prev: Table, addressOf: map<uint64, Address>, id: uint64)
    ensures id in Resolvable(prev, addressOf) <==> id in addressOf && id in Ids(prev)
  {
    if prev != [] {
      var front := prev[..|prev| - 1];
      ResolvableExact(front, addressOf, id);
      assert id in Ids(prev) <==> id in Ids(front) || id == prev[|prev| - 1].id;
    }
  }

  /** The positions of the pools whose address is known. */
  ghost function KnownPlaces(prev: Table, addressOf: map<uint64, Address>): set<nat> {
    set i: nat | i < |prev| && prev[i].id in addressOf
  }

  /** The fetch batch lists them in snapshot order. */
  lemma {:induction false} ResolvableInOrder(prev: Table, addressOf: map<uint64, Address>) returns (at: seq<nat>)
    ensures Positions(at, |prev|, KnownPlaces(prev, addressOf))
    ensures |Resolvable(prev, addressOf)| == |at|
    ensures forall k :: 0 <= k < |at| ==> Resolvable(prev, addressOf)[k] == prev[at[k]].id
  {
    at := [];
    if prev != [] {
      var n := |prev| - 1;
      var before := ResolvableInOrder(prev[..n], addressOf);
      at := before + if prev[n].id in addressOf then [n] else [];
      PositionsNext(before, n, KnownPlaces(prev[..n], addressOf), KnownPlaces(prev, addressOf));
      forall k | 0 <= k < |before| ensures prev[..n][before[k]] == prev[before[k]] { }
    }
  }

  datatype Change = Change(id: uint64, reserve0: int, reserve1: int)

  /** Unchanged between the two snapshots, as far as reserves show. */
  predicate Idle(prev: Table, cur: Table, id: uint64) {
    && Has(prev, id) && Has(cur, id)
    && Get(prev, id).value.reserve0 == Get(cur, id).value.reserve0
    && Get(prev, id).value.reserve1 == Get(cur, id).value.reserve1
  }

  predicate Differs(p: Pool, fetched: Pair) {
    p.reserve0 != fetched.reserve0 || p.reserve1 != fetched.reserve1
  }

  function SlotPair(slot: FetchSlot): Option<Pair> {
    if slot.failed || slot.reserve0.None? || slot.reserve1.None? then None
    else Some(Pair(slot.reserve0.value, slot.reserve1.value))
  }

  /** What a fetch brings is what its answer decodes to, unless the context was cancelled. */
  lemma FetchedPair(q: FetchInput)
    ensures SlotPair(FetchOne(q)) == if q.cancelled then None else DecodeReserves(q.answer)
  {
  }

  /** What one fetched index contributes. */
  function SelectOne(prev: Table, cur: Table, id: uint64, slot: FetchSlot): seq<Change> {
    var pair := SlotPair(slot);
    if pair.Some? && Idle(prev, cur, id) && Differs(Get(cur, id).value, pair.value)
    then [Change(id, pair.value.reserve0, pair.value.reserve1)] else []
  }

  /** What the loop over the fetched indices selects for overwriting. */
  function Select(prev: Table, cur: Table, ids: seq<uint64>, fetched: seq<FetchSlot>): seq<Change>
    requires |ids| == |fetched|
  {
    if ids == [] then []
    else
      var n := |ids| - 1;
      Select(prev, cur, ids[..n], fetched[..n]) + SelectOne(prev, cur, ids[n], fetched[n])
  }

  /** Unchanged between the snapshots, and not what the second one holds. */
  ghost predicate Wanted(prev: Table, cur: Table, c: Change) {
    && Has(prev, c.id) && Has(cur, c.id)
    && var p, q := Get(prev, c.id).value, Get(cur, c.id).value;
       && p.reserve0 == q.reserve0 && p.reserve1 == q.reserve1
       && (q.reserve0 != c.reserve0 || q.reserve1 != c.reserve1)
  }

  ghost predicate Brought(ids: seq<uint64>, fetched: seq<FetchSlot>, c: Change)
    requires |ids| == |fetched|
  {
    exists k :: 0 <= k < |ids| && ids[k] == c.id && fetched[k] == FetchSlot(Some(c.reserve0), Some(c.reserve1), false)
  }

  lemma SelectOneExact(prev: Table, cur: Table, id: uint64, slot: FetchSlot, c: Change)
    ensures c in SelectOne(prev, cur, id, slot)
       <==> Wanted(prev, cur, c) && id == c.id && slot == FetchSlot(Some(c.reserve0), Some(c.reserve1), false)
  {
  }

  lemma BroughtNext(ids: seq<uint64>, fetched: seq<FetchSlot>, c: Change)
    requires |ids| == |fetched| > 0
    ensures var n := |ids| - 1;
            Brought(ids, fetched, c)
            <==> Brought(ids[..n], fetched[..n], c)
                 || (ids[n] == c.id && fetched[n] == FetchSlot(Some(c.reserve0), Some(c.reserve1), false))
  {
    var n := |ids| - 1;
    assert forall k :: 0 <= k < n ==> ids[..n][k] == ids[k] && fetched[..n][k] == fetched[k];
  }

  lemma {:induction false} SelectedIs(prev: Table, cur: Table, ids: seq<uint64>, fetched: seq<FetchSlot>, c: Change)
    requires |ids| == |fetched|
    ensures c in Select(prev, cur, ids, fetched) <==> Wanted(prev, cur, c) && Brought(ids, fetched, c)
  {
    if ids != [] {
      var n := |ids| - 1;
      SelectedIs(prev, cur, ids[..n], fetched[..n], c);
      SelectOneExact(prev, cur, ids[n], fetched[n], c);
      BroughtNext(ids, fetched, c);
    }
  }

  /**
   Selected is exactly what was fetched without an error for a pool whose reserves agree in the two
   snapshots and differ from it in either number.
   */
  lemma SelectExact(prev: Table, cur: Table, ids: seq<uint64>, fetched: seq<FetchSlot>, c: Change)
    requires |ids| == |fetched|
    ensures c in Select(prev, cur, ids, fetched)
       <==> && Has(prev, c.id) && Has(cur, c.id)
            && (var p, q := Get(prev, c.id).value, Get(cur, c.id).value;
                && p.reserve0 == q.reserve0 && p.reserve1 == q.reserve1
                && (q.reserve0 != c.reserve0 || q.reserve1 != c.reserve1))
            && (exists k :: 0 <= k < |ids| && ids[k] == c.id
                            && fetched[k] == FetchSlot(Some(c.reserve0), Some(c.reserve1), false))
  {
    SelectedIs(prev, cur, ids, fetched, c);
  }

  lemma SelectNext(prev: Table, cur: Table, ids: seq<uint64>, fetched: seq<FetchSlot>, k: nat)
    requires |ids| == |fetched| && k < |ids|
    ensures Select(prev, cur, ids[..k + 1], fetched[..k + 1])
         == Select(prev, cur, ids[..k], fetched[..k]) + SelectOne(prev, cur, ids[k], fetched[k])
  {
    assert ids[..k + 1][..k] == ids[..k] && fetched[..k + 1][..k] == fetched[..k];
  }

  function ApplyChanges(t: Table, changes: seq<Change>): Table {
    if changes == [] then t
    else
      var c := changes[|changes| - 1];
      Update(ApplyChanges(t, changes[..|changes| - 1]), c.id, c.reserve0, c.reserve1)
  }

  /** The changes whose pool is gone by the time they are applied. */
  function Missing(t: Table, changes: seq<Change>): seq<uint64> {
    if changes == [] then []
    else
      var front, id := changes[..|changes| - 1], changes[|changes| - 1].id;
      Missing(t, front) + if Has(ApplyChanges(t, front), id) then [] else [id]
  }

  /** The reserves fetched for an ID, if it was fetched and the fetch succeeded. */
  function FetchedFor(ids: seq<uint64>, fetched: seq<FetchSlot>, id: uint64): Option<Pair>
    requires |ids| == |fetched|
  {
    if ids == [] then None
    else
      var n := |ids| - 1;
      if ids[n] == id then SlotPair(fetched[n]) else FetchedFor(ids[..n], fetched[..n], id)
  }

  /** The exact condition under which a cycle writes a pool: it depends on the two snapshots and the fetch alone. */
  predicate Writes(prev: Table, cur: Table, ids: seq<uint64>, fetched: seq<FetchSlot>, id: uint64)
    requires |ids| == |fetched|
  {
    && FetchedFor(ids, fetched, id).Some?
    && Idle(prev, cur, id)
    && Differs(Get(cur, id).value, FetchedFor(ids, fetched, id).value)
  }

  ghost predicate NoRepeats(ids: seq<uint64>) {
    forall i, j :: 0 <= i < j < |ids| ==> ids[i] != ids[j]
  }

  lemma {:induction false} ResolvableOnce(prev: Table, addressOf: map<uint64, Address>)
    requires Distinct(prev)
    ensures NoRepeats(Resolvable(prev, addressOf))
  {
    if prev != [] {
      var front := prev[..|prev| - 1];
      ResolvableOnce(front, addressOf);
      ResolvableExact(front, addressOf, prev[|prev| - 1].id);
    }
  }

  lemma {:induction false} ResolvableShape(t: Table, u: Table, addressOf: map<uint64, Address>)
    requires SameShape(t, u)
    ensures Resolvable(t, addressOf) == Resolvable(u, addressOf)
  {
    if t != [] {
      ResolvableShape(t[..|t| - 1], u[..|u| - 1], addressOf);
      assert SameStatics(t[|t| - 1], u[|u| - 1]);
    }
  }

  lemma {:induction false} ChangesShape(t: Table, changes: seq<Change>)
    requires Distinct(t)
    ensures SameShape(t, ApplyChanges(t, changes)) && Distinct(ApplyChanges(t, changes))
  {
    if changes != [] {
      var front := changes[..|changes| - 1];
      ChangesShape(t, front);
      GetUpdate(ApplyChanges(t, front), changes[|changes| - 1].id,
                changes[|changes| - 1].reserve0, changes[|changes| - 1].reserve1, 0);
    }
  }

  /** What one more index does to a pool, if it contributes anything. */
  lemma RoundExact(t: Table, front: seq<Change>, one: seq<Change>, id: uint64, x: uint64)
    requires Distinct(t) && (one == [] || (|one| == 1 && one[0].id == id))
    ensures Has(t, x) <==> Has(ApplyChanges(t, front), x)
    ensures Get(ApplyChanges(t, front + one), x)
         == if one != [] && x == id && Has(ApplyChanges(t, front), x)
            then Some(Get(ApplyChanges(t, front), x).value.WithReserves(one[0].reserve0, one[0].reserve1))
            else Get(ApplyChanges(t, front), x)
  {
    var u := ApplyChanges(t, front);
    ChangesShape(t, front);
    ShapeKeepsFind(t, u, x);
    if one == [] {
      assert front + one == front;
    } else {
      assert (front + one)[..|front|] == front;
      GetUpdate(u, id, one[0].reserve0, one[0].reserve1, x);
    }
  }

  /** The last index decides for its own pool, the ones before it for the others. */
  lemma WritesNext(prev: Table, cur: Table, ids: seq<uint64>, fetched: seq<FetchSlot>, x: uint64)
    requires |ids| == |fetched| > 0 && NoRepeats(ids)
    ensures var n := |ids| - 1;
            var one := SelectOne(prev, cur, ids[n], fetched[n]);
            if x == ids[n] then
              && !Writes(prev, cur, ids[..n], fetched[..n], x)
              && (Writes(prev, cur, ids, fetched, x) <==> one != [])
              && (one != [] ==> FetchedFor(ids, fetched, x) == Some(Pair(one[0].reserve0, one[0].reserve1)))
            else
              && (Writes(prev, cur, ids, fetched, x) <==> Writes(prev, cur, ids[..n], fetched[..n], x))
              && FetchedFor(ids, fetched, x) == FetchedFor(ids[..n], fetched[..n], x)
  {
    var n := |ids| - 1;
    if x == ids[n] {
      FetchedAbsent(ids[..n], fetched[..n], x);
    }
  }

  /**
   What a whole cycle does to each pool of the table it finds under the lock, which may have moved
   on since the second snapshot: no pool appears, disappears or changes anything but its reserves,
   and a pool is overwritten with its own fetched reserves exactly under `Writes`.
   */
  lemma {:induction false} CycleExact(t: Table, prev: Table, cur: Table, ids: seq<uint64>, fetched: seq<FetchSlot>,
                                      x: uint64)
    requires Distinct(t) && |ids| == |fetched| && NoRepeats(ids)
    ensures SameShape(t, ApplyChanges(t, Select(prev, cur, ids, fetched)))
    ensures Get(ApplyChanges(t, Select(prev, cur, ids, fetched)), x)
         == if Has(t, x) && Writes(prev, cur, ids, fetched, x)
            then var p := FetchedFor(ids, fetched, x).value; Some(Get(t, x).value.WithReserves(p.reserve0, p.reserve1))
            else Get(t, x)
  {
    ChangesShape(t, Select(prev, cur, ids, fetched));
    if ids != [] {
      var n := |ids| - 1;
      CycleExact(t, prev, cur, ids[..n], fetched[..n], x);
      RoundExact(t, Select(prev, cur, ids[..n], fetched[..n]), SelectOne(prev, cur, ids[n], fetched[n]), ids[n], x);
      WritesNext(prev, cur, ids, fetched, x);
    }
  }

  lemma {:induction false} FetchedAbsent(ids: seq<uint64>, fetched: seq<FetchSlot>, x: uint64)
    requires |ids| == |fetched| && x !in ids
    ensures FetchedFor(ids, fetched, x) == None
  {
    if ids != [] {
      FetchedAbsent(ids[..|ids| - 1], fetched[..|ids| - 1], x);
    }
  }

  lemma {:induction false} FetchedAt(ids: seq<uint64>, fetched: seq<FetchSlot>, k: nat)
    requires |ids| == |fetched| && k < |ids| && NoRepeats(ids)
    ensures FetchedFor(ids, fetched, ids[k]) == SlotPair(fetched[k])
  {
    if k < |ids| - 1 {
      FetchedAt(ids[..|ids| - 1], fetched[..|ids| - 1], k);
    }
  }

  /** A pool that either snapshot lacks, or whose reserves differ between them in either number, is never written. */
  lemma MovedPoolIsProtected(t: Table, prev: Table, cur: Table, ids: seq<uint64>, fetched: seq<FetchSlot>, x: uint64)
    requires Distinct(t) && |ids| == |fetched| && NoRepeats(ids)
    requires Get(prev, x).None? || Get(cur, x).None?
      || Get(prev, x).value.reserve0 != Get(cur, x).value.reserve0
      || Get(prev, x).value.reserve1 != Get(cur, x).value.reserve1
    ensures Get(ApplyChanges(t, Select(prev, cur, ids, fetched)), x) == Get(t, x)
  {
    CycleExact(t, prev, cur, ids, fetched, x);
  }

  /**
   The window after the second snapshot is unprotected, and exactly so: whatever reserves a pool has
   reached by the time of the lock, the cycle replaces them if and only if the pool is still there,
   `Writes` holds of the two earlier snapshots, and the fetched reserves differ.
   */
  lemma OverwriteExact(t: Table, prev: Table, cur: Table, ids: seq<uint64>, fetched: seq<FetchSlot>, x: uint64)
    requires Distinct(t) && |ids| == |fetched| && NoRepeats(ids)
    ensures Get(ApplyChanges(t, Select(prev, cur, ids, fetched)), x) != Get(t, x)
       <==> && Has(t, x) && Writes(prev, cur, ids, fetched, x)
            && Differs(Get(t, x).value, FetchedFor(ids, fetched, x).value)
  {
    CycleExact(t, prev, cur, ids, fetched, x);
  }

  /** What the chain holds for a pool, given its ID: nothing when its address is unknown or the call fails. */
  function OnChain(addressOf: map<uint64, Address>, chain: map<Address, Pair>, id: uint64): Option<Pair> {
    if id in addressOf && addressOf[id] in chain then Some(chain[addressOf[id]]) else None
  }

  /** Each slot of the batch is what the chain answers for the address asked at its place. */
  ghost predicate Truthful(ids: seq<uint64>, addressOf: map<uint64, Address>, fetched: seq<FetchSlot>,
                           chain: map<Address, Pair>) {
    && |fetched| == |ids| && (forall id :: id in ids ==> id in addressOf)
    && forall k :: 0 <= k < |ids| ==>
         SlotPair(fetched[k]) == if addressOf[ids[k]] in chain then Some(chain[addressOf[ids[k]]]) else None
  }

  /** Each fetched slot belongs to the pool whose address was asked, however many pools were skipped before it. */
  lemma FetchAligned(prev: Table, addressOf: map<uint64, Address>, fetched: seq<FetchSlot>, chain: map<Address, Pair>,
                     id: uint64)
    requires Distinct(prev) && Truthful(Resolvable(prev, addressOf), addressOf, fetched, chain)
    ensures FetchedFor(Resolvable(prev, addressOf), fetched, id)
         == if Has(prev, id) then OnChain(addressOf, chain, id) else None
  {
    var ids := Resolvable(prev, addressOf);
    ResolvableOnce(prev, addressOf);
    if id in ids {
      var k :| 0 <= k < |ids| && ids[k] == id;
      FetchedAt(ids, fetched, k);
    } else {
      FetchedAbsent(ids, fetched, id);
    }
    IndexGet(prev, id);
    ResolvableExact(prev, addressOf, id);
  }

  /**
   A cycle with nothing else running: every pool whose fetch succeeded ends on its fetched reserves,
   the rest are untouched, and a second cycle over the same answers selects nothing.
   */
  lemma CycleConverges(t: Table, addressOf: map<uint64, Address>, fetched: seq<FetchSlot>)
    requires Distinct(t) && |fetched| == |Resolvable(t, addressOf)|
    ensures var ids := Resolvable(t, addressOf);
            var u := ApplyChanges(t, Select(t, t, ids, fetched));
            && SameShape(t, u) && Distinct(u)
            && (forall i :: 0 <= i < |t| ==>
                  u[i] == match FetchedFor(ids, fetched, t[i].id)
                          case Some(p) => t[i].WithReserves(p.reserve0, p.reserve1)
                          case None => t[i])
            && Resolvable(u, addressOf) == ids
            && Select(u, u, ids, fetched) == []
  {
    var ids := Resolvable(t, addressOf);
    ResolvableOnce(t, addressOf);
    var u := ApplyChanges(t, Select(t, t, ids, fetched));
    ChangesShape(t, Select(t, t, ids, fetched));
    ResolvableShape(t, u, addressOf);
    forall i | 0 <= i < |t|
      ensures u[i] == match FetchedFor(ids, fetched, t[i].id)
                      case Some(p) => t[i].WithReserves(p.reserve0, p.reserve1)
                      case None => t[i]
    {
      CycleRow(t, ids, fetched, i);
    }
    forall k | 0 <= k < |ids| && SlotPair(fetched[k]).Some? && Has(u, ids[k])
      ensures !Differs(Get(u, ids[k]).value, SlotPair(fetched[k]).value)
    {
      var i := Find(u, ids[k]);
      assert SameStatics(t[i], u[i]);
      FetchedAt(ids, fetched, k);
      CycleRow(t, ids, fetched, i);
    }
    SelectNothing(u, ids, fetched);
  }

  lemma CycleRow(t: Table, ids: seq<uint64>, fetched: seq<FetchSlot>, i: nat)
    requires Distinct(t) && |ids| == |fetched| && NoRepeats(ids) && i < |t|
    ensures var u := ApplyChanges(t, Select(t, t, ids, fetched));
            && SameShape(t, u)
            && u[i] == match FetchedFor(ids, fetched, t[i].id)
                       case Some(p) => t[i].WithReserves(p.reserve0, p.reserve1)
                       case None => t[i]
  {
    var u := ApplyChanges(t, Select(t, t, ids, fetched));
    CycleExact(t, t, t, ids, fetched, t[i].id);
    FindUnique(t, i);
    ShapeKeepsFind(t, u, t[i].id);
    assert Get(u, t[i].id) == Some(u[i]);
  }

  lemma {:induction false} SelectNothing(u: Table, ids: seq<uint64>, fetched: seq<FetchSlot>)
    requires |ids| == |fetched|
    requires forall k :: 0 <= k < |ids| && SlotPair(fetched[k]).Some? && Has(u, ids[k]) ==>
      !Differs(Get(u, ids[k]).value, SlotPair(fetched[k]).value)
    ensures Select(u, u, ids, fetched) == []
  {
    if ids != [] {
      SelectNothing(u, ids[..|ids| - 1], fetched[..|ids| - 1]);
    }
  }

  /** Some change is for this pool. */
  ghost predicate Names(changes: seq<Change>, id: uint64) {
    exists j :: 0 <= j < |changes| && changes[j].id == id
  }

  lemma NamesLast(changes: seq<Change>, id: uint64)
    requires changes != []
    ensures Names(changes, id) <==> Names(changes[..|changes| - 1], id) || changes[|changes| - 1].id == id
  {
    var front := changes[..|changes| - 1];
    if Names(changes, id) && changes[|changes| - 1].id != id {
      var j :| 0 <= j < |changes| && changes[j].id == id;
      assert front[j].id == id;
    }
    if Names(front, id) {
      var j :| 0 <= j < |front| && front[j].id == id;
      assert changes[j].id == id;
    }
  }

  /** Applying changes removes no pool, so a change is reported exactly when its pool was not there at the lock. */
  lemma {:induction false} MissingExact(t: Table, changes: seq<Change>, id: uint64)
    requires Distinct(t)
    ensures id in Missing(t, changes) <==> !Has(t, id) && Names(changes, id)
  {
    if changes != [] {
      var front, last := changes[..|changes| - 1], changes[|changes| - 1].id;
      MissingExact(t, front, id);
      NamesLast(changes, id);
      ChangesShape(t, front);
      ShapeKeepsFind(t, ApplyChanges(t, front), last);
    }
  }

  /** The selection has a change for a pool exactly under `Writes`. */
  lemma {:induction false} NamesWritten(prev: Table, cur: Table, ids: seq<uint64>, fetched: seq<FetchSlot>, x: uint64)
    requires |ids| == |fetched| && NoRepeats(ids)
    ensures Names(Select(prev, cur, ids, fetched), x) <==> Writes(prev, cur, ids, fetched, x)
  {
    if ids != [] {
      var n := |ids| - 1;
      var front, one := Select(prev, cur, ids[..n], fetched[..n]), SelectOne(prev, cur, ids[n], fetched[n]);
      NamesWritten(prev, cur, ids[..n], fetched[..n], x);
      WritesNext(prev, cur, ids, fetched, x);
      if one != [] {
        NamesLast(front + one, x);
        assert (front + one)[..|front|] == front;
      } else {
        assert front + one == front;
      }
    }
  }
}
