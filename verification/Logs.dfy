/** The log parsers: the last valid Sync of each pool, and the emitters of Swap events. */
module Logs {
  import opened Registries
  import opened Types
  import opened Words

  /** First topics are event signatures; only two of them matter here. */
  datatype Topic = SwapEvent | SyncEvent | OtherTopic(word: nat)

  datatype Log = Log(address: Address, topics: seq<Topic>, data: Bytes)

  /** A decoded Sync event, or one entry of the three parallel slices the parser returns. */
  datatype Sync = Sync(pool: Address, reserve0: int, reserve1: int)

  /** A Sync event is one with the Sync topic alone and exactly two words of data. */
  function DecodeSync(log: Log): Option<Sync> {
    if |log.topics| == 1 && log.topics[0] == SyncEvent && |log.data| == 64
    then Some(Sync(log.address, SetBytes(log.data[..32]), SetBytes(log.data[32..])))
    else None
  }

  /** Accepted are logs with the Sync topic alone and two words, which are the reserves in that order. */
  lemma SyncWords(log: Log)
    ensures DecodeSync(log).Some? <==> log.topics == [SyncEvent] && |log.data| == 64
    ensures forall a, w0, w1 :: |w0| == |w1| == 32 && log == Log(a, [SyncEvent], w0 + w1) ==>
      DecodeSync(log) == Some(Sync(a, SetBytes(w0), SetBytes(w1)))
  {
    forall a, w0, w1 | |w0| == |w1| == 32 && log == Log(a, [SyncEvent], w0 + w1)
      ensures DecodeSync(log) == Some(Sync(a, SetBytes(w0), SetBytes(w1)))
    {
      assert log.data[..32] == w0 && log.data[32..] == w1;
    }
  }

  predicate IsSwap(log: Log) {
    |log.topics| > 0 && log.topics[0] == SwapEvent
  }

  /** The log a pool emits for a pair of reserves. */
  function EncodeSync(s: Sync): Log
    requires 0 <= s.reserve0 < Pow256(32) && 0 <= s.reserve1 < Pow256(32)
  {
    Log(s.pool, [SyncEvent], PadLeft(s.reserve0, 32) + PadLeft(s.reserve1, 32))
  }

  lemma SyncRoundTrip(s: Sync)
    requires 0 <= s.reserve0 < Pow256(32) && 0 <= s.reserve1 < Pow256(32)
    ensures DecodeSync(EncodeSync(s)) == Some(s)
  {
    var data := EncodeSync(s).data;
    assert data[..32] == PadLeft(s.reserve0, 32) && data[32..] == PadLeft(s.reserve1, 32);
    ReadWord(s.reserve0, 32);
    ReadWord(s.reserve1, 32);
  }

  /** The decoder accepts exactly the encoder's logs, so a Sync log is determined by what it decodes to. */
  lemma SyncCanonical(log: Log)
    requires DecodeSync(log).Some?
    ensures var s := DecodeSync(log).value;
            && 0 <= s.reserve0 < Pow256(32) && 0 <= s.reserve1 < Pow256(32)
            && EncodeSync(s) == log
  {
    WriteWord(log.data[..32]);
    WriteWord(log.data[32..]);
    assert log.data == log.data[..32] + log.data[32..];
  }

  // ---- what the parsers must return ----

  /** Position `k` holds the last valid Sync of its pool. */
  ghost predicate LastOfPool(logs: seq<Log>, k: int) {
    && 0 <= k < |logs| && DecodeSync(logs[k]).Some?
    && forall j :: k < j < |logs| && logs[j].address == logs[k].address ==> DecodeSync(logs[j]).None?
  }

  /** The last valid Sync of its pool. */
  ghost predicate IsLast(logs: seq<Log>, s: Sync) {
    exists k :: LastOfPool(logs, k) && DecodeSync(logs[k]) == Some(s)
  }

  /** One entry per pool that emitted a valid Sync, holding that pool's last one; any order. */
  ghost predicate IsUpdateBatch(logs: seq<Log>, batch: seq<Sync>) {
    && (forall i, j :: 0 <= i < j < |batch| ==> batch[i].pool != batch[j].pool)
    && (forall i :: 0 <= i < |batch| ==> IsLast(logs, batch[i]))
    && (forall k :: LastOfPool(logs, k) ==> DecodeSync(logs[k]).value in batch)
  }

  /** Each Swap emitter once; any order. */
  ghost predicate IsDiscovery(logs: seq<Log>, pools: seq<Address>) {
    && (forall i, j :: 0 <= i < j < |pools| ==> pools[i] != pools[j])
    && (forall a :: a in pools <==> exists k :: 0 <= k < |logs| && IsSwap(logs[k]) && logs[k].address == a)
  }

  /** Whatever other topics and data it has, a log whose first topic is the Swap event makes its emitter discovered. */
  lemma SwapsDiscovered(logs: seq<Log>, pools: seq<Address>)
    requires IsDiscovery(logs, pools)
    ensures forall a, rest, data :: Log(a, [SwapEvent] + rest, data) in logs ==> a in pools
    ensures forall a :: a in pools ==> exists rest, data :: Log(a, [SwapEvent] + rest, data) in logs
  {
    forall a, rest, data | Log(a, [SwapEvent] + rest, data) in logs ensures a in pools
    {
      var k :| 0 <= k < |logs| && logs[k] == Log(a, [SwapEvent] + rest, data);
      assert IsSwap(logs[k]) && logs[k].address == a;
    }
    forall a | a in pools ensures exists rest, data :: Log(a, [SwapEvent] + rest, data) in logs
    {
      var k :| 0 <= k < |logs| && IsSwap(logs[k]) && logs[k].address == a;
      assert logs[k].topics == [SwapEvent] + logs[k].topics[1..];
      assert Log(a, [SwapEvent] + logs[k].topics[1..], logs[k].data) == logs[k];
    }
  }

  /** Some log with the Sync topic alone carries these two numbers as its two words. */
  ghost predicate Sent(logs: seq<Log>, pool: Address, r0: int, r1: int) {
    exists k :: 0 <= k < |logs| && logs[k].topics == [SyncEvent] && |logs[k].data| == 64 && logs[k].address == pool
                && r0 == SetBytes(logs[k].data[..32]) && r1 == SetBytes(logs[k].data[32..])
  }

  /** An update batch holds, for each pool, the two words of the last log it reads of that pool, and nothing else. */
  lemma BatchWords(logs: seq<Log>, batch: seq<Sync>)
    requires IsUpdateBatch(logs, batch)
    ensures forall k :: 0 <= k < |logs| && logs[k].topics == [SyncEvent] && |logs[k].data| == 64
                        && (forall j :: k < j < |logs| && logs[j].topics == [SyncEvent] && |logs[j].data| == 64 ==>
                              logs[j].address != logs[k].address) ==>
      Sync(logs[k].address, SetBytes(logs[k].data[..32]), SetBytes(logs[k].data[32..])) in batch
    ensures forall s :: s in batch ==> Sent(logs, s.pool, s.reserve0, s.reserve1)
  {
    forall k | 0 <= k < |logs| && logs[k].topics == [SyncEvent] && |logs[k].data| == 64
               && (forall j :: k < j < |logs| && logs[j].topics == [SyncEvent] && |logs[j].data| == 64 ==>
                     logs[j].address != logs[k].address)
      ensures Sync(logs[k].address, SetBytes(logs[k].data[..32]), SetBytes(logs[k].data[32..])) in batch
    {
      assert LastOfPool(logs, k);
    }
    forall s | s in batch ensures Sent(logs, s.pool, s.reserve0, s.reserve1)
    {
      assert IsLast(logs, s);
      var k :| LastOfPool(logs, k) && DecodeSync(logs[k]) == Some(s);
      assert logs[k].topics == [SyncEvent];
    }
  }

  /** The map the parser builds: for each pool the last valid Sync so far. */
  function LatestSyncs(logs: seq<Log>): (m: map<Address, Sync>)
    ensures forall a :: a in m ==> m[a].pool == a
  {
    if logs == [] then map[]
    else
      var m := LatestSyncs(logs[..|logs| - 1]);
      match DecodeSync(logs[|logs| - 1])
      case None => m
      case Some(s) => m[s.pool := s]
  }

  lemma {:induction false} LatestHasSource(logs: seq<Log>, a: Address) returns (k: nat)
    requires a in LatestSyncs(logs)
    ensures LastOfPool(logs, k) && DecodeSync(logs[k]) == Some(LatestSyncs(logs)[a])
  {
    var n := |logs| - 1;
    if logs[n].address == a && DecodeSync(logs[n]).Some? {
      k := n;
    } else {
      k := LatestHasSource(logs[..n], a);
    }
  }

  lemma {:induction false} LastIsLatest(logs: seq<Log>, k: nat)
    requires LastOfPool(logs, k)
    ensures logs[k].address in LatestSyncs(logs)
    ensures DecodeSync(logs[k]) == Some(LatestSyncs(logs)[logs[k].address])
  {
    if k < |logs| - 1 {
      LastIsLatest(logs[..|logs| - 1], k);
    }
  }

  lemma LatestIsLast(logs: seq<Log>, s: Sync)
    ensures s in LatestSyncs(logs).Values <==> IsLast(logs, s)
  {
    if s in LatestSyncs(logs).Values {
      var k := LatestHasSource(logs, s.pool);
    }
    if k :| LastOfPool(logs, k) && DecodeSync(logs[k]) == Some(s) {
      LastIsLatest(logs, k);
    }
  }

  /** Listing that map's entries, each key once, is an update batch. */
  lemma ListedIsBatch(logs: seq<Log>, pools: seq<Address>, batch: seq<Sync>)
    requires |pools| == |batch|
    requires forall i, j :: 0 <= i < j < |pools| ==> pools[i] != pools[j]
    requires forall i :: 0 <= i < |pools| ==> pools[i] in LatestSyncs(logs) && batch[i] == LatestSyncs(logs)[pools[i]]
    requires forall a :: a in LatestSyncs(logs) ==> a in pools
    ensures IsUpdateBatch(logs, batch)
  {
    forall i, j | 0 <= i < j < |batch| ensures batch[i].pool != batch[j].pool
    {
      assert batch[i].pool == pools[i] && batch[j].pool == pools[j];
    }
    forall i | 0 <= i < |batch|
      ensures IsLast(logs, batch[i])
    {
      var k := LatestHasSource(logs, pools[i]);
    }
    forall k | LastOfPool(logs, k) ensures DecodeSync(logs[k]).value in batch
    {
      LastIsLatest(logs, k);
      var i :| 0 <= i < |pools| && pools[i] == logs[k].address;
      assert batch[i] == DecodeSync(logs[k]).value;
    }
  }

  /** Conversely a batch holds each entry of the map and nothing else. */
  lemma BatchIsLatest(logs: seq<Log>, batch: seq<Sync>)
    requires IsUpdateBatch(logs, batch)
    ensures forall s :: s in batch <==> s in LatestSyncs(logs).Values
  {
    forall s ensures s in batch <==> s in LatestSyncs(logs).Values
    {
      LatestIsLast(logs, s);
    }
  }

  // ---- the parsers ----

  /** The batch that three parallel slices of pools and reserve numbers describe. */
  ghost function Zip(pools: seq<Address>, r0s: seq<BigInt>, r1s: seq<BigInt>): (batch: seq<Sync>)
    requires |pools| == |r0s| == |r1s|
    reads r0s, r1s
    ensures |batch| == |pools|
    ensures forall i :: 0 <= i < |pools| ==> batch[i] == Sync(pools[i], r0s[i].value, r1s[i].value)
  {
    seq(|pools|, i requires 0 <= i < |pools| == |r0s| == |r1s| reads r0s, r1s =>
      Sync(pools[i], r0s[i].value, r1s[i].value))
  }

  method UpdatedInBlock(logs: seq<Log>) returns (pools: seq<Address>, r0s: seq<BigInt>, r1s: seq<BigInt>)
    ensures |pools| == |r0s| == |r1s|
    ensures forall i :: 0 <= i < |pools| ==> fresh(r0s[i]) && fresh(r1s[i])
    ensures IsUpdateBatch(logs, Zip(pools, r0s, r1s))
    ensures forall i :: 0 <= i < |pools| ==> Sent(logs, pools[i], r0s[i].value, r1s[i].value)
  {
    var latest := CollectSyncs(logs);
    pools, r0s, r1s := ListSyncs(latest);
    ListedIsBatch(logs, pools, Zip(pools, r0s, r1s));
    BatchWords(logs, Zip(pools, r0s, r1s));
    forall i | 0 <= i < |pools| ensures Sent(logs, pools[i], r0s[i].value, r1s[i].value)
    {
      assert Zip(pools, r0s, r1s)[i] in Zip(pools, r0s, r1s);
    }
  }

  /** The first loop: later logs overwrite earlier ones. */
  method CollectSyncs(logs: seq<Log>) returns (latest: map<Address, (BigInt, BigInt)>)
    ensures latest.Keys == LatestSyncs(logs).Keys
    ensures forall a :: a in latest ==> fresh(latest[a].0) && fresh(latest[a].1)
    ensures forall a :: a in latest ==> LatestSyncs(logs)[a] == Sync(a, latest[a].0.value, latest[a].1.value)
  {
    latest := map[];
    for i := 0 to |logs|
      invariant latest.Keys == LatestSyncs(logs[..i]).Keys
      invariant forall a :: a in latest ==> fresh(latest[a].0) && fresh(latest[a].1)
      invariant forall a :: a in latest ==>
        LatestSyncs(logs[..i])[a] == Sync(a, latest[a].0.value, latest[a].1.value)
    {
      var log := logs[i];
      assert logs[..i + 1][..i] == logs[..i];
      if |log.topics| == 1 && log.topics[0] == SyncEvent {
        if |log.data| != 64 {
          continue;
        }
        var r0 := new BigInt(SetBytes(log.data[..32]));
        var r1 := new BigInt(SetBytes(log.data[32..]));
        latest := latest[log.address := (r0, r1)];
      }
    }
    assert logs[..|logs|] == logs;
  }

  /** The second loop: walks the map in whatever order it comes. */
  method ListSyncs(latest: map<Address, (BigInt, BigInt)>)
    returns (pools: seq<Address>, r0s: seq<BigInt>, r1s: seq<BigInt>)
    ensures |pools| == |r0s| == |r1s|
    ensures forall a :: a in latest <==> a in pools
    ensures forall i, j :: 0 <= i < j < |pools| ==> pools[i] != pools[j]
    ensures forall i :: 0 <= i < |pools| ==> pools[i] in latest && latest[pools[i]] == (r0s[i], r1s[i])
  {
    pools, r0s, r1s := [], [], [];
    var rest := latest.Keys;
    while rest != {}
      invariant rest <= latest.Keys && |pools| == |r0s| == |r1s|
      invariant forall a :: a in latest <==> a in rest || a in pools
      invariant forall i :: 0 <= i < |pools| ==> pools[i] !in rest
      invariant forall i :: 0 <= i < |pools| ==> pools[i] in latest && latest[pools[i]] == (r0s[i], r1s[i])
      invariant forall i, j :: 0 <= i < j < |pools| ==> pools[i] != pools[j]
      decreases rest
    {
      var pool :| pool in rest;
      rest := rest - {pool};
      pools, r0s, r1s := pools + [pool], r0s + [latest[pool].0], r1s + [latest[pool].1];
    }
  }

  method DiscoverPools(logs: seq<Log>) returns (pools: seq<Address>)
    ensures IsDiscovery(logs, pools)
  {
    var discovered: set<Address> := {};
    for i := 0 to |logs|
      invariant forall a :: a in discovered <==> exists k :: 0 <= k < i && IsSwap(logs[k]) && logs[k].address == a
    {
      if |logs[i].topics| > 0 && logs[i].topics[0] == SwapEvent {
        discovered := discovered + {logs[i].address};
      }
    }
    pools := [];
    var rest := discovered;
    while rest != {}
      invariant rest <= discovered
      invariant forall a :: a in discovered <==> a in rest || a in pools
      invariant forall i :: 0 <= i < |pools| ==> pools[i] !in rest
      invariant forall i, j :: 0 <= i < j < |pools| ==> pools[i] != pools[j]
      decreases rest
    {
      var pool :| pool in rest;
      rest := rest - {pool};
      pools := pools + [pool];
    }
  }
}
