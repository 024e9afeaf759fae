/** Applying a block's update batch, against replaying its logs one at a time. */
module Updates {
  import opened Logs
  import opened Tables
  import opened Types
  import opened Words

  /** One update: resolve the address, skip it when unknown here, overwrite the reserves. */
  function ApplySync(t: Table, s: Sync, poolIDs: map<Address, uint64>): Table {
    if s.pool !in poolIDs then t
    else if !Has(t, poolIDs[s.pool]) then t
    else Update(t, poolIDs[s.pool], s.reserve0, s.reserve1)
  }

  /** A batch, first entry first. */
  function ApplyBatch(t: Table, batch: seq<Sync>, poolIDs: map<Address, uint64>): Table {
    if batch == [] then t
    else ApplySync(ApplyBatch(t, batch[..|batch| - 1], poolIDs), batch[|batch| - 1], poolIDs)
  }

  /** Every valid Sync log, one at a time, in log order. */
  function Replay(t: Table, logs: seq<Log>, poolIDs: map<Address, uint64>): Table {
    if logs == [] then t
    else
      var t' := Replay(t, logs[..|logs| - 1], poolIDs);
      match DecodeSync(logs[|logs| - 1])
      case None => t'
      case Some(s) => ApplySync(t', s, poolIDs)
  }

  /** No two addresses resolve to this ID. */
  ghost predicate Unambiguous(m: map<Address, uint64>, id: uint64) {
    forall a, b :: a in m && b in m && m[a] == m[b] == id ==> a == b
  }

  /** No two addresses resolve to one tracked pool. */
  ghost predicate AllUnambiguous(m: map<Address, uint64>, t: Table) {
    forall i :: 0 <= i < |t| ==> Unambiguous(m, t[i].id)
  }

  /** Same pools in the same places; only reserves may differ. */
  ghost predicate SameShape(t: Table, u: Table) {
    |t| == |u| && forall i :: 0 <= i < |t| ==> SameStatics(t[i], u[i])
  }

  lemma ShapeKeepsFind(t: Table, u: Table, id: uint64)
    requires SameShape(t, u)
    ensures Find(t, id) == Find(u, id)
    ensures Distinct(t) <==> Distinct(u)
    ensures Ids(t) == Ids(u)
  {
    assert forall i :: 0 <= i < |t| ==> SameStatics(t[i], u[i]) && t[i].id == u[i].id;
  }

  /** What one update does to each row. */
  lemma SyncRow(t: Table, s: Sync, poolIDs: map<Address, uint64>, i: nat)
    requires Distinct(t) && i < |t|
    ensures SameShape(t, ApplySync(t, s, poolIDs))
    ensures ApplySync(t, s, poolIDs)[i]
         == if s.pool in poolIDs && poolIDs[s.pool] == t[i].id then t[i].WithReserves(s.reserve0, s.reserve1) else t[i]
  {
    FindUnique(t, i);
  }

  ghost predicate Resolves(s: Sync, id: uint64, poolIDs: map<Address, uint64>) {
    s.pool in poolIDs && poolIDs[s.pool] == id
  }

  /** `after` carries the reserves of the entry that resolves to the row, or is the row itself when none does. */
  ghost predicate Settled(before: Pool, after: Pool, entries: set<Sync>, poolIDs: map<Address, uint64>) {
    && (forall s :: s in entries && Resolves(s, before.id, poolIDs) ==>
          after == before.WithReserves(s.reserve0, s.reserve1))
    && ((forall s :: s in entries ==> !Resolves(s, before.id, poolIDs)) ==> after == before)
  }

  ghost function Entries(batch: seq<Sync>): set<Sync> {
    set s | s in batch
  }

  ghost predicate OnePerPool(batch: seq<Sync>) {
    forall i, j :: 0 <= i < j < |batch| ==> batch[i].pool != batch[j].pool
  }

  lemma {:induction false} BatchShape(t: Table, batch: seq<Sync>, poolIDs: map<Address, uint64>)
    requires Distinct(t)
    ensures SameShape(t, ApplyBatch(t, batch, poolIDs)) && Distinct(ApplyBatch(t, batch, poolIDs))
  {
    if batch != [] {
      var front, last := batch[..|batch| - 1], batch[|batch| - 1];
      BatchShape(t, front, poolIDs);
      var u := ApplyBatch(t, front, poolIDs);
      forall i | 0 <= i < |t| ensures SameStatics(t[i], ApplyBatch(t, batch, poolIDs)[i])
      {
        SyncRow(u, last, poolIDs, i);
      }
      ShapeKeepsFind(t, ApplyBatch(t, batch, poolIDs), 0);
    }
  }

  lemma {:induction false} ReplayShape(t: Table, logs: seq<Log>, poolIDs: map<Address, uint64>)
    requires Distinct(t)
    ensures SameShape(t, Replay(t, logs, poolIDs)) && Distinct(Replay(t, logs, poolIDs))
  {
    if logs != [] {
      ReplayShape(t, logs[..|logs| - 1], poolIDs);
      var u := Replay(t, logs[..|logs| - 1], poolIDs);
      if DecodeSync(logs[|logs| - 1]).Some? {
        forall i | 0 <= i < |t| ensures SameStatics(t[i], Replay(t, logs, poolIDs)[i])
        {
          SyncRow(u, DecodeSync(logs[|logs| - 1]).value, poolIDs, i);
        }
        ShapeKeepsFind(t, Replay(t, logs, poolIDs), 0);
      }
    }
  }

  lemma {:induction false} BatchRow(t: Table, batch: seq<Sync>, poolIDs: map<Address, uint64>, i: nat)
    requires Distinct(t) && i < |t| && Unambiguous(poolIDs, t[i].id) && OnePerPool(batch)
    ensures SameShape(t, ApplyBatch(t, batch, poolIDs))
    ensures Settled(t[i], ApplyBatch(t, batch, poolIDs)[i], Entries(batch), poolIDs)
  {
    BatchShape(t, batch, poolIDs);
    if batch != [] {
      var front, last := batch[..|batch| - 1], batch[|batch| - 1];
      BatchRow(t, front, poolIDs, i);
      BatchShape(t, front, poolIDs);
      SyncRow(ApplyBatch(t, front, poolIDs), last, poolIDs, i);
      assert Entries(batch) == Entries(front) + {last};
      forall s | s in front ensures s.pool != last.pool { }
    }
  }

  /** One more update settles a row on the overwritten map. */
  lemma SettledStep(before: Pool, row: Pool, m: map<Address, Sync>, s: Sync, poolIDs: map<Address, uint64>)
    requires SameStatics(before, row) && Unambiguous(poolIDs, before.id)
    requires forall a :: a in m ==> m[a].pool == a
    requires Settled(before, row, m.Values, poolIDs)
    ensures Settled(before, if Resolves(s, before.id, poolIDs) then row.WithReserves(s.reserve0, s.reserve1) else row,
                    m[s.pool := s].Values, poolIDs)
  {
    var m' := m[s.pool := s];
    assert m'[s.pool] == s && s in m'.Values;
    forall e | e in m'.Values && Resolves(e, before.id, poolIDs)
      ensures if Resolves(s, before.id, poolIDs) then e == s else e in m.Values
    {
      var a :| a in m' && m'[a] == e;
      assert a == e.pool;
    }
    if !Resolves(s, before.id, poolIDs) {
      forall e | e in m.Values && Resolves(e, before.id, poolIDs) ensures e in m'.Values
      {
        assert m'[e.pool] == e;
      }
    }
  }

  /** After a replay each pool holds its last valid Sync, or the reserves it started with. */
  lemma {:induction false} ReplayRow(t: Table, logs: seq<Log>, poolIDs: map<Address, uint64>, i: nat)
    requires Distinct(t) && i < |t| && Unambiguous(poolIDs, t[i].id)
    ensures SameShape(t, Replay(t, logs, poolIDs))
    ensures Settled(t[i], Replay(t, logs, poolIDs)[i], LatestSyncs(logs).Values, poolIDs)
  {
    ReplayShape(t, logs, poolIDs);
    if logs != [] {
      var front := logs[..|logs| - 1];
      ReplayRow(t, front, poolIDs, i);
      ReplayShape(t, front, poolIDs);
      var m := LatestSyncs(front);
      match DecodeSync(logs[|logs| - 1])
      case None =>
      case Some(s) =>
        SyncRow(Replay(t, front, poolIDs), s, poolIDs, i);
        SettledStep(t[i], Replay(t, front, poolIDs)[i], m, s, poolIDs);
    }
  }

  /**
   The block step's batch gives the registry that replaying every valid Sync log would give,
   whatever order the parser's map iteration chose.
   */
  lemma BatchEqualsReplay(t: Table, logs: seq<Log>, batch: seq<Sync>, poolIDs: map<Address, uint64>)
    requires Distinct(t) && AllUnambiguous(poolIDs, t) && IsUpdateBatch(logs, batch)
    ensures ApplyBatch(t, batch, poolIDs) == Replay(t, logs, poolIDs)
  {
    BatchShape(t, batch, poolIDs);
    ReplayShape(t, logs, poolIDs);
    BatchIsLatest(logs, batch);
    assert Entries(batch) == LatestSyncs(logs).Values;
    forall i | 0 <= i < |t|
      ensures ApplyBatch(t, batch, poolIDs)[i] == Replay(t, logs, poolIDs)[i]
    {
      BatchRow(t, batch, poolIDs, i);
      ReplayRow(t, logs, poolIDs, i);
    }
  }

  /**
   That condition is exactly what it takes: when two addresses resolve to one tracked pool of a table,
   two logs and one legal iteration order already make the batch disagree with the replay.
   */
  lemma SharedIdBreaksReplay(t: Table, poolIDs: map<Address, uint64>, i: nat, a: Address, b: Address)
    returns (logs: seq<Log>, batch: seq<Sync>)
    requires Distinct(t) && i < |t|
    requires a != b && a in poolIDs && b in poolIDs && poolIDs[a] == poolIDs[b] == t[i].id
    ensures IsUpdateBatch(logs, batch)
    ensures |ApplyBatch(t, batch, poolIDs)| == |Replay(t, logs, poolIDs)| == |t|
    ensures ApplyBatch(t, batch, poolIDs)[i] == t[i].WithReserves(1, 1)
    ensures Replay(t, logs, poolIDs)[i] == t[i].WithReserves(2, 2)
  {
    var x := SomeSync(a, 1);
    var y := SomeSync(b, 2);
    var sa, sb := Sync(a, 1, 1), Sync(b, 2, 2);
    logs, batch := [x, y], [sb, sa];
    ReversedIsBatch(x, y);
    assert [sb] + [sa] == batch && [x] + [y] == logs;
    LastSync(t, [sb], sa, poolIDs, i);
    LastLog(t, [x], y, poolIDs, i);
  }

  /** So batch and replay agree on all logs and orders if and only if no two addresses resolve to one tracked pool. */
  lemma ReplayExact(t: Table, poolIDs: map<Address, uint64>)
    requires Distinct(t)
    ensures AllUnambiguous(poolIDs, t)
       <==> forall logs, batch :: IsUpdateBatch(logs, batch) ==>
              ApplyBatch(t, batch, poolIDs) == Replay(t, logs, poolIDs)
  {
    if AllUnambiguous(poolIDs, t) {
      forall logs, batch | IsUpdateBatch(logs, batch) ensures ApplyBatch(t, batch, poolIDs) == Replay(t, logs, poolIDs)
      {
        BatchEqualsReplay(t, logs, batch, poolIDs);
      }
    } else {
      var i :| 0 <= i < |t| && !Unambiguous(poolIDs, t[i].id);
      var a, b :| a in poolIDs && b in poolIDs && poolIDs[a] == poolIDs[b] == t[i].id && a != b;
      var logs, batch := SharedIdBreaksReplay(t, poolIDs, i, a, b);
    }
  }

  lemma SomeSync(a: Address, r: nat) returns (log: Log)
    requires r < 256
    ensures DecodeSync(log) == Some(Sync(a, r, r)) && log.address == a
  {
    Word32Bound();
    log := EncodeSync(Sync(a, r, r));
    SyncRoundTrip(Sync(a, r, r));
  }

  /** The logs of two pools may come out of the parser in either order. */
  lemma ReversedIsBatch(x: Log, y: Log)
    requires x.address != y.address && DecodeSync(x).Some? && DecodeSync(y).Some?
    ensures IsUpdateBatch([x, y], [DecodeSync(y).value, DecodeSync(x).value])
  {
    assert LastOfPool([x, y], 0) && LastOfPool([x, y], 1);
  }

  /** The last entry of a batch has the last word on the row it resolves to. */
  lemma LastSync(t: Table, front: seq<Sync>, s: Sync, poolIDs: map<Address, uint64>, i: nat)
    requires Distinct(t) && i < |t| && Resolves(s, t[i].id, poolIDs)
    ensures |ApplyBatch(t, front + [s], poolIDs)| == |t|
    ensures ApplyBatch(t, front + [s], poolIDs)[i] == t[i].WithReserves(s.reserve0, s.reserve1)
  {
    assert (front + [s])[..|front|] == front;
    BatchShape(t, front, poolIDs);
    var u := ApplyBatch(t, front, poolIDs);
    assert SameStatics(t[i], u[i]);
    SyncRow(u, s, poolIDs, i);
  }

  lemma LastLog(t: Table, front: seq<Log>, log: Log, poolIDs: map<Address, uint64>, i: nat)
    requires Distinct(t) && i < |t| && DecodeSync(log).Some? && Resolves(DecodeSync(log).value, t[i].id, poolIDs)
    ensures |Replay(t, front + [log], poolIDs)| == |t|
    ensures var s := DecodeSync(log).value;
            Replay(t, front + [log], poolIDs)[i] == t[i].WithReserves(s.reserve0, s.reserve1)
  {
    assert (front + [log])[..|front|] == front;
    ReplayShape(t, front, poolIDs);
    var u := Replay(t, front, poolIDs);
    assert SameStatics(t[i], u[i]);
    SyncRow(u, DecodeSync(log).value, poolIDs, i);
  }

  lemma {:induction false} ReplayConcat(t: Table, first: seq<Log>, second: seq<Log>, poolIDs: map<Address, uint64>)
    ensures Replay(t, first + second, poolIDs) == Replay(Replay(t, first, poolIDs), second, poolIDs)
  {
    var all := first + second;
    if second == [] {
      assert all == first;
    } else {
      ReplayConcat(t, first, second[..|second| - 1], poolIDs);
      assert all[..|all| - 1] == first + second[..|second| - 1];
    }
  }

  /** The two lookups resolve the same addresses to tracked pools. */
  ghost predicate Agree(m: map<Address, uint64>, n: map<Address, uint64>, t: Table) {
    forall i, a :: 0 <= i < |t| ==> ((a in m && m[a] == t[i].id) <==> (a in n && n[a] == t[i].id))
  }

  /** What a lookup says of strangers does not matter to a batch. */
  lemma {:induction false} AgreeingBatch(t: Table, batch: seq<Sync>, m: map<Address, uint64>, n: map<Address, uint64>)
    requires Distinct(t) && Agree(m, n, t)
    ensures ApplyBatch(t, batch, m) == ApplyBatch(t, batch, n)
  {
    if batch != [] {
      var front, last := batch[..|batch| - 1], batch[|batch| - 1];
      AgreeingBatch(t, front, m, n);
      BatchShape(t, front, m);
      var u := ApplyBatch(t, front, m);
      ShapeKeepsFind(t, u, 0);
      forall i | 0 <= i < |t| ensures ApplySync(u, last, m)[i] == ApplySync(u, last, n)[i]
      {
        assert SameStatics(t[i], u[i]);
        SyncRow(u, last, m, i);
        SyncRow(u, last, n, i);
      }
      SyncShape(u, last, m);
      SyncShape(u, last, n);
    }
  }

  lemma SyncShape(t: Table, s: Sync, poolIDs: map<Address, uint64>)
    ensures |ApplySync(t, s, poolIDs)| == |t|
  {
  }

  /** The batches of consecutive blocks, applied block by block, each under the lookup of its own time. */
  function ApplyBlocks(t: Table, batches: seq<seq<Sync>>, lookups: seq<map<Address, uint64>>): Table
    requires |lookups| == |batches|
  {
    if batches == [] then t
    else
      var n := |batches| - 1;
      ApplyBatch(ApplyBlocks(t, batches[..n], lookups[..n]), batches[n], lookups[n])
  }

  function Concat(blocks: seq<seq<Log>>): seq<Log> {
    if blocks == [] then [] else Concat(blocks[..|blocks| - 1]) + blocks[|blocks| - 1]
  }

  /** One more block after any replay. */
  lemma NextBlock(t: Table, past: seq<Log>, block: seq<Log>, batch: seq<Sync>,
                  lookup: map<Address, uint64>, poolIDs: map<Address, uint64>)
    requires Distinct(t) && AllUnambiguous(poolIDs, t) && IsUpdateBatch(block, batch) && Agree(lookup, poolIDs, t)
    ensures ApplyBatch(Replay(t, past, poolIDs), batch, lookup) == Replay(t, past + block, poolIDs)
  {
    var u := Replay(t, past, poolIDs);
    ReplayShape(t, past, poolIDs);
    assert forall i :: 0 <= i < |t| ==> SameStatics(t[i], u[i]);
    AgreeingBatch(u, batch, lookup, poolIDs);
    BatchEqualsReplay(u, block, batch, poolIDs);
    ReplayConcat(t, past, block, poolIDs);
  }

  lemma {:induction false} BlocksReplay(t: Table, blocks: seq<seq<Log>>, batches: seq<seq<Sync>>,
                                        lookups: seq<map<Address, uint64>>, poolIDs: map<Address, uint64>)
    requires Distinct(t) && AllUnambiguous(poolIDs, t) && |blocks| == |batches| == |lookups|
    requires forall k :: 0 <= k < |blocks| ==> IsUpdateBatch(blocks[k], batches[k])
    requires forall k :: 0 <= k < |lookups| ==> Agree(lookups[k], poolIDs, t)
    ensures ApplyBlocks(t, batches, lookups) == Replay(t, Concat(blocks), poolIDs)
  {
    if blocks != [] {
      var n := |blocks| - 1;
      BlocksReplay(t, blocks[..n], batches[..n], lookups[..n], poolIDs);
      NextBlock(t, Concat(blocks[..n]), blocks[n], batches[n], lookups[n], poolIDs);
    }
  }

  /**
   Handling blocks one after another, whatever else the registrar learns of in between, replays their
   concatenated logs, so each pool ends on its last valid Sync over all of them.
   */
  lemma BlocksEqualReplay(t: Table, blocks: seq<seq<Log>>, batches: seq<seq<Sync>>,
                          lookups: seq<map<Address, uint64>>, poolIDs: map<Address, uint64>)
    requires Distinct(t) && AllUnambiguous(poolIDs, t) && |blocks| == |batches| == |lookups|
    requires forall k :: 0 <= k < |blocks| ==> IsUpdateBatch(blocks[k], batches[k])
    requires forall k :: 0 <= k < |lookups| ==> Agree(lookups[k], poolIDs, t)
    ensures ApplyBlocks(t, batches, lookups) == Replay(t, Concat(blocks), poolIDs)
    ensures SameShape(t, ApplyBlocks(t, batches, lookups))
    ensures forall i :: 0 <= i < |t| ==>
      Settled(t[i], ApplyBlocks(t, batches, lookups)[i], LatestSyncs(Concat(blocks)).Values, poolIDs)
  {
    BlocksReplay(t, blocks, batches, lookups, poolIDs);
    ReplayShape(t, Concat(blocks), poolIDs);
    forall i | 0 <= i < |t|
      ensures Settled(t[i], Replay(t, Concat(blocks), poolIDs)[i], LatestSyncs(Concat(blocks)).Values, poolIDs)
    {
      ReplayRow(t, Concat(blocks), poolIDs, i);
    }
  }
}
