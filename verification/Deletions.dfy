/** Batch deletion over a table. */
module Deletions {
  import opened Slices
  import opened Tables
  import opened Types

  /** Deletes the listed IDs, first to last; unknown ones are skipped. */
  function DeleteAll(t: Table, ids: seq<uint64>): Table {
    if ids == [] then t else Delete(DeleteAll(t, ids[..|ids| - 1]), ids[|ids| - 1])
  }

  /** The error slice: entry `i` is set when deleting `ids[i]`, after the earlier ones, finds no pool. */
  function DeleteErrors(t: Table, ids: seq<uint64>): (errs: seq<bool>)
    ensures |errs| == |ids|
  {
    if ids == [] then []
    else
      var front := ids[..|ids| - 1];
      DeleteErrors(t, front) + [!Has(DeleteAll(t, front), ids[|ids| - 1])]
  }

  /** What the batch deletion returns: nil when every entry succeeded, otherwise the error slice. */
  function DeletionReply(t: Table, ids: seq<uint64>): Option<seq<bool>> {
    if true in DeleteErrors(t, ids) then Some(DeleteErrors(t, ids)) else None
  }

  /**
   That reply over the registry before it: nil exactly when every listed pool is there and listed once;
   otherwise entry `i` is set exactly when its pool was absent to begin with or is listed earlier.
   */
  lemma DeletionReplyExact(t: Table, ids: seq<uint64>)
    requires Distinct(t)
    ensures DeletionReply(t, ids).None? <==> forall i :: 0 <= i < |ids| ==> ids[i] in Ids(t) && ids[i] !in ids[..i]
    ensures DeletionReply(t, ids).Some? ==>
      var flags := DeletionReply(t, ids).value;
      |flags| == |ids| && forall i :: 0 <= i < |ids| ==> (flags[i] <==> ids[i] !in Ids(t) || ids[i] in ids[..i])
  {
    var flags := DeleteErrors(t, ids);
    forall i | 0 <= i < |ids| ensures flags[i] <==> ids[i] !in Ids(t) || ids[i] in ids[..i]
    {
      DeleteErrorsExact(t, ids, i);
    }
    if true in flags {
      var i :| 0 <= i < |flags| && flags[i];
      assert ids[i] !in Ids(t) || ids[i] in ids[..i];
    }
  }

  ghost function Listed(ids: seq<uint64>): set<uint64> {
    set id | id in ids
  }

  lemma {:induction false} DeleteAllGet(t: Table, ids: seq<uint64>, x: uint64)
    requires Distinct(t)
    ensures Distinct(DeleteAll(t, ids))
    ensures Get(DeleteAll(t, ids), x) == if x in ids then None else Get(t, x)
  {
    if ids != [] {
      var front := ids[..|ids| - 1];
      DeleteAllGet(t, front, x);
      GetDelete(DeleteAll(t, front), ids[|ids| - 1], x);
    }
  }

  /** The final map is the initial one without the listed IDs, whatever duplicates or strangers the list holds. */
  lemma DeleteAllRefines(t: Table, ids: seq<uint64>)
    requires Distinct(t)
    ensures Distinct(DeleteAll(t, ids))
    ensures Index(DeleteAll(t, ids)) == Index(t) - Listed(ids)
  {
    forall x ensures Distinct(DeleteAll(t, ids)) && Get(DeleteAll(t, ids), x) == Lookup(Index(t) - Listed(ids), x)
    {
      DeleteAllGet(t, ids, x);
      IndexGet(t, x);
    }
    IndexIs(DeleteAll(t, ids), Index(t) - Listed(ids));
  }

  /** So the order and multiplicity of the list do not matter to the map... */
  lemma DeleteOrderIrrelevant(t: Table, ids: seq<uint64>, other: seq<uint64>)
    requires Distinct(t) && Listed(ids) == Listed(other)
    ensures Index(DeleteAll(t, ids)) == Index(DeleteAll(t, other))
  {
    DeleteAllRefines(t, ids);
    DeleteAllRefines(t, other);
  }

  /** ...though they do matter to the order in which a view lists what is left. */
  lemma DeleteOrderShowsInView() returns (t: Table, ids: seq<uint64>, other: seq<uint64>)
    ensures Distinct(t) && Listed(ids) == Listed(other) && DeleteAll(t, ids) != DeleteAll(t, other)
  {
    t := seq(4, i requires 0 <= i < 4 => Pool(i as uint64, 0, 1, 0, 0, 0, 30));
    ids, other := [0, 1], [1, 0];
    DeleteTwo(t, 0, 1);
    DeleteTwo(t, 1, 0);
    FindUnique(t, 0);
    FindUnique(t, 1);
    FindUnique(Delete(t, 0), 1);
    FindUnique(Delete(t, 1), 0);
    assert DeleteAll(t, ids)[0] == t[3] && DeleteAll(t, other)[0] == t[2];
  }

  lemma DeleteTwo(t: Table, x: uint64, y: uint64)
    ensures DeleteAll(t, [x, y]) == Delete(Delete(t, x), y)
  {
    assert [x, y][..1] == [x] && [x][..0] == [];
    assert DeleteAll(t, [x]) == Delete(DeleteAll(t, []), x);
  }

  /** An entry fails exactly when its ID was absent to begin with or already listed earlier. */
  lemma {:induction false} DeleteErrorsExact(t: Table, ids: seq<uint64>, i: nat)
    requires Distinct(t) && i < |ids|
    ensures DeleteErrors(t, ids)[i] <==> ids[i] !in Ids(t) || ids[i] in ids[..i]
  {
    var front := ids[..|ids| - 1];
    if i < |front| {
      DeleteErrorsExact(t, front, i);
      assert front[..i] == ids[..i];
    } else {
      DeleteAllGet(t, front, ids[i]);
      IndexGet(t, ids[i]);
    }
  }

  /** When every entry fails the table is untouched, so skipping the republication is sound. */
  lemma {:induction false} AllFailedUnchanged(t: Table, ids: seq<uint64>)
    requires forall i :: 0 <= i < |ids| ==> DeleteErrors(t, ids)[i]
    ensures DeleteAll(t, ids) == t
  {
    if ids != [] {
      var n := |ids| - 1;
      assert forall i :: 0 <= i < n ==> DeleteErrors(t, ids[..n])[i] == DeleteErrors(t, ids)[i];
      AllFailedUnchanged(t, ids[..n]);
      assert DeleteErrors(t, ids)[n];
    }
  }

  // ---- pruning ----

  /** The pruner's selection: pools of the view whose address resolves to a blocked one, in view order. */
  function BlockedIds(t: Table, addressOf: map<uint64, Address>, blocked: set<Address>): seq<uint64> {
    if t == [] then []
    else
      var id := t[|t| - 1].id;
      BlockedIds(t[..|t| - 1], addressOf, blocked) + if IsBlocked(id, addressOf, blocked) then [id] else []
  }

  /** The positions of the blocked pools of a snapshot. */
  ghost function BlockedPlaces(t: Table, addressOf: map<uint64, Address>, blocked: set<Address>): set<nat> {
    set i: nat | i < |t| && t[i].id in addressOf && addressOf[t[i].id] in blocked
  }

  /** The selection lists them in snapshot order. */
  lemma {:induction false} BlockedInOrder(t: Table, addressOf: map<uint64, Address>, blocked: set<Address>)
    returns (at: seq<nat>)
    ensures Positions(at, |t|, BlockedPlaces(t, addressOf, blocked))
    ensures |BlockedIds(t, addressOf, blocked)| == |at|
    ensures forall k :: 0 <= k < |at| ==> BlockedIds(t, addressOf, blocked)[k] == t[at[k]].id
  {
    at := [];
    if t != [] {
      var n := |t| - 1;
      var before := BlockedInOrder(t[..n], addressOf, blocked);
      at := before + if t[n].id in addressOf && addressOf[t[n].id] in blocked then [n] else [];
      PositionsNext(before, n, BlockedPlaces(t[..n], addressOf, blocked), BlockedPlaces(t, addressOf, blocked));
      forall k | 0 <= k < |before| ensures t[..n][before[k]] == t[before[k]] { }
    }
  }

  lemma {:induction false} BlockedIdsExact(t: Table, addressOf: map<uint64, Address>, blocked: set<Address>, x: uint64)
    ensures x in BlockedIds(t, addressOf, blocked) <==> Has(t, x) && x in addressOf && addressOf[x] in blocked
  {
    IndexGet(t, x);
    if t != [] {
      BlockedIdsExact(t[..|t| - 1], addressOf, blocked, x);
      IndexGet(t[..|t| - 1], x);
      assert x in Ids(t) <==> x in Ids(t[..|t| - 1]) || x == t[|t| - 1].id;
    }
  }

  /** The pool's address is known and blocked; a pool whose address does not resolve is skipped. */
  predicate IsBlocked(id: uint64, addressOf: map<uint64, Address>, blocked: set<Address>) {
    id in addressOf && addressOf[id] in blocked
  }

  /**
   Whatever happened between the pruner's snapshot and its delete step, none of the pools it selected
   is left right after, and no other pool is touched.
   */
  lemma PruneRemovesSelected(t: Table, snapshot: Table, addressOf: map<uint64, Address>, blocked: set<Address>,
                             x: uint64)
    requires Distinct(t)
    ensures var u := DeleteAll(t, BlockedIds(snapshot, addressOf, blocked));
            && Distinct(u)
            && (if Has(snapshot, x) && x in addressOf && addressOf[x] in blocked
                then Get(u, x) == None else Get(u, x) == Get(t, x))
  {
    DeleteAllGet(t, BlockedIds(snapshot, addressOf, blocked), x);
    BlockedIdsExact(snapshot, addressOf, blocked, x);
  }

  /** Without interference no resolvable blocked pool remains, and a second prune selects nothing. */
  lemma PruneConverges(t: Table, addressOf: map<uint64, Address>, blocked: set<Address>)
    requires Distinct(t)
    ensures var u := DeleteAll(t, BlockedIds(t, addressOf, blocked));
            && (forall i :: 0 <= i < |u| ==> !(u[i].id in addressOf && addressOf[u[i].id] in blocked))
            && BlockedIds(u, addressOf, blocked) == []
  {
    var u := DeleteAll(t, BlockedIds(t, addressOf, blocked));
    forall i | 0 <= i < |u| ensures !IsBlocked(u[i].id, addressOf, blocked)
    {
      PruneRemovesSelected(t, t, addressOf, blocked, u[i].id);
      FindUnique(u, i);
    }
    NoneBlocked(u, addressOf, blocked);
  }

  lemma {:induction false} NoneBlocked(t: Table, addressOf: map<uint64, Address>, blocked: set<Address>)
    requires forall i :: 0 <= i < |t| ==> !IsBlocked(t[i].id, addressOf, blocked)
    ensures BlockedIds(t, addressOf, blocked) == []
  {
    if t != [] {
      NoneBlocked(t[..|t| - 1], addressOf, blocked);
      assert !IsBlocked(t[|t| - 1].id, addressOf, blocked);
    }
  }
}
