/** The pool initializer: a factory whitelist, and a fan-out that vets each pool against it. */
module Initializer {
  import opened Fanout
  import opened Reserves
  import opened Types
  import opened Words

  datatype KnownFactory = KnownFactory(address: Address, protocol: string, fee: uint16)

  type Whitelist = map<Address, KnownFactory>

  /** Entry `k` of the configured list is the one that counts for its address. */
  ghost predicate LastEntry(factories: seq<KnownFactory>, k: int) {
    && 0 <= k < |factories|
    && forall j :: k < j < |factories| ==> factories[j].address != factories[k].address
  }

  /** The whitelist holds, for each listed address, its last entry. */
  ghost predicate IsWhitelist(factories: seq<KnownFactory>, whitelist: Whitelist) {
    && (forall a :: a in whitelist ==>
          exists k :: LastEntry(factories, k) && factories[k].address == a && whitelist[a] == factories[k])
    && (forall k :: 0 <= k < |factories| ==> factories[k].address in whitelist)
  }

  datatype PoolInitializer = PoolInitializer(whitelist: Whitelist, capacity: nat)

  /** Refuses a limit below one; otherwise the semaphore it makes has that capacity. */
  method NewPoolInitializer(factories: seq<KnownFactory>, maxConcurrentCalls: int) returns (r: Option<PoolInitializer>)
    ensures r.None? <==> maxConcurrentCalls <= 0
    ensures r.Some? ==> r.value.capacity == maxConcurrentCalls > 0 && IsWhitelist(factories, r.value.whitelist)
  {
    if maxConcurrentCalls <= 0 { return None; }
    var whitelist: Whitelist := map[];
    ghost var at: map<Address, int> := map[];
    for i := 0 to |factories|
      invariant at.Keys == whitelist.Keys
      invariant forall a :: a in whitelist ==>
        && 0 <= at[a] < i && factories[at[a]].address == a && whitelist[a] == factories[at[a]]
        && forall j :: at[a] < j < i ==> factories[j].address != a
      invariant forall k :: 0 <= k < i ==> factories[k].address in whitelist
    {
      whitelist := whitelist[factories[i].address := factories[i]];
      at := at[factories[i].address := i];
    }
    assert forall a :: a in whitelist ==> LastEntry(factories, at[a]);
    return Some(PoolInitializer(whitelist, maxConcurrentCalls));
  }

  /** An address-valued answer must be exactly one word. */
  function DecodeAddress(a: Answer): Option<Address> {
    if a.Answered? && |a.data| == 32 then Some(BytesToAddress(a.data)) else None
  }

  /** Accepted is exactly one word, whose last twenty bytes spell the address. */
  lemma AddressCanonical(a: Answer) returns (junk: Bytes)
    ensures DecodeAddress(a).Some? <==> a.Answered? && |a.data| == 32
    ensures DecodeAddress(a).Some? ==>
      && |junk| == 12 && Pow256(20) > DecodeAddress(a).value as nat
      && a == Answered(junk + PadLeft(DecodeAddress(a).value as nat, 20))
  {
    junk := [];
    if DecodeAddress(a).Some? {
      junk := a.data[..12];
      WriteWord(a.data[12..]);
      assert a.data == junk + a.data[12..];
    }
  }

  datatype InitError = Cancelled | FactoryFailed | UnknownFactory | TokensFailed | ReservesFailed

  /** The seven result slots of one index. */
  datatype InitSlot = InitSlot(token0: Address, token1: Address, poolType: uint8, fee: uint16,
                               reserve0: Option<int>, reserve1: Option<int>, err: Option<InitError>)

  const EMPTY_INIT := InitSlot(0, 0, 0, 0, None, None, None)

  /** What one goroutine sees: the context, and the answers to its own calls. */
  datatype InitInput = InitInput(cancelled: bool, factory: Answer, token0: Answer, token1: Answer, reserves: Answer)

  function InitOne(whitelist: Whitelist, q: InitInput): InitSlot {
    if q.cancelled then EMPTY_INIT.(err := Some(Cancelled))
    else match DecodeAddress(q.factory)
      case None => EMPTY_INIT.(err := Some(FactoryFailed))
      case Some(factory) =>
        if factory !in whitelist then EMPTY_INIT.(err := Some(UnknownFactory))
        else if DecodeAddress(q.token0).None? || DecodeAddress(q.token1).None?
        then EMPTY_INIT.(err := Some(TokensFailed))
        else match DecodeReserves(q.reserves)
          case None => EMPTY_INIT.(err := Some(ReservesFailed))
          case Some(p) =>
            InitSlot(DecodeAddress(q.token0).value, DecodeAddress(q.token1).value, 0, whitelist[factory].fee,
                     Some(p.reserve0), Some(p.reserve1), None)
  }

  function InitAll(whitelist: Whitelist, inputs: seq<InitInput>): seq<InitSlot> {
    seq(|inputs|, i requires 0 <= i < |inputs| => InitOne(whitelist, inputs[i]))
  }

  /** A pool passed the whitelist: its factory answer names a listed factory whose fee it carries. */
  ghost predicate Vetted(whitelist: Whitelist, slot: InitSlot) {
    && slot.err.None? && slot.reserve0.Some? && slot.reserve1.Some? && slot.poolType == 0
    && exists factory :: factory in whitelist && whitelist[factory].fee == slot.fee
  }

  /** The contract callers rely on: a nil error comes with two reserves, anything else with untouched slots. */
  ghost predicate InitContract(whitelist: Whitelist, slot: InitSlot) {
    Vetted(whitelist, slot) || (slot.err.Some? && slot == EMPTY_INIT.(err := slot.err))
  }

  lemma InitOneContract(whitelist: Whitelist, q: InitInput)
    ensures InitContract(whitelist, InitOne(whitelist, q))
    ensures InitOne(whitelist, q).err.None? ==>
      var slot := InitOne(whitelist, q);
      && slot.fee == whitelist[DecodeAddress(q.factory).value].fee
      && DecodeReserves(q.reserves) == Some(Pair(slot.reserve0.value, slot.reserve1.value))
  {
    var slot := InitOne(whitelist, q);
    if slot.err.None? {
      assert DecodeAddress(q.factory).value in whitelist;
    }
  }

  /** Everything a nil error takes, read off the index's own answers. */
  ghost predicate Initializes(whitelist: Whitelist, q: InitInput) {
    && !q.cancelled
    && DecodeAddress(q.factory).Some? && DecodeAddress(q.factory).value in whitelist
    && DecodeAddress(q.token0).Some? && DecodeAddress(q.token1).Some?
    && DecodeReserves(q.reserves).Some?
  }

  /** What these slots are to hold, for these answers; the errors come in the order in which the checks are made. */
  ghost predicate ReadFrom(whitelist: Whitelist, q: InitInput, slot: InitSlot) {
    && (slot.err.None? <==> Initializes(whitelist, q))
    && (slot.err.None? ==>
          && DecodeAddress(q.token0) == Some(slot.token0) && DecodeAddress(q.token1) == Some(slot.token1)
          && slot.poolType == 0 && slot.fee == whitelist[DecodeAddress(q.factory).value].fee
          && slot.reserve0.Some? && slot.reserve1.Some?
          && DecodeReserves(q.reserves) == Some(Pair(slot.reserve0.value, slot.reserve1.value)))
    && (slot.err.Some? ==>
          && slot == InitSlot(0, 0, 0, 0, None, None, slot.err)
          && (slot.err == Some(Cancelled) <==> q.cancelled)
          && (!q.cancelled ==>
                && (slot.err == Some(FactoryFailed) <==> DecodeAddress(q.factory).None?)
                && (slot.err == Some(UnknownFactory) <==>
                      DecodeAddress(q.factory).Some? && DecodeAddress(q.factory).value !in whitelist)
                && (slot.err == Some(TokensFailed) <==>
                      && DecodeAddress(q.factory).Some? && DecodeAddress(q.factory).value in whitelist
                      && (DecodeAddress(q.token0).None? || DecodeAddress(q.token1).None?))))
  }

  lemma InitOneExact(whitelist: Whitelist, q: InitInput)
    ensures ReadFrom(whitelist, q, InitOne(whitelist, q))
  {
  }

  /** A pool contract's address-valued answer. */
  function EncodeAddress(a: Address): Answer {
    AddressRoundTrip(a, Zeros(12));
    Answered(Zeros(12) + PadLeft(a as nat, 20))
  }

  /**
   For a pool whose contract answers with its factory, tokens and reserves, the slots are those very
   tokens and reserves under type zero and the factory's fee, unless the factory is not listed.
   */
  lemma InitRoundTrip(whitelist: Whitelist, factory: Address, token0: Address, token1: Address, p: Pair, timestamp: nat)
    requires 0 <= p.reserve0 < Pow256(32) && 0 <= p.reserve1 < Pow256(32) && timestamp < Pow256(32)
    ensures InitOne(whitelist, InitInput(false, EncodeAddress(factory), EncodeAddress(token0), EncodeAddress(token1),
                                         EncodeReserves(p, timestamp)))
         == if factory in whitelist
            then InitSlot(token0, token1, 0, whitelist[factory].fee, Some(p.reserve0), Some(p.reserve1), None)
            else EMPTY_INIT.(err := Some(UnknownFactory))
  {
    AddressRoundTrip(factory, Zeros(12));
    AddressRoundTrip(token0, Zeros(12));
    AddressRoundTrip(token1, Zeros(12));
    ReservesRoundTrip(p, timestamp);
  }

  /** Any number of `Initialize` calls on one initializer share its semaphore. */
  ghost predicate InitStart(p: PoolInitializer, batches: seq<seq<InitInput>>, s: State<InitSlot>) {
    && s.capacity == p.capacity && s.inUse == 0 && |s.calls| == |batches|
    && forall c :: 0 <= c < |batches| ==> s.calls[c] == Begin(EMPTY_INIT, InitAll(p.whitelist, batches[c]), false)
  }

  /**
   Simultaneous calls, any schedule: no more workers run than the shared semaphore has slots; runs
   are bounded and can only end with every call returned; a returned call's slices are those of a
   sequential evaluation, and every index honours the contract the batch applier relies on.
   */
  lemma InitializeRefinesSequential(p: PoolInitializer, batches: seq<seq<InitInput>>, s: State<InitSlot>,
                                    steps: seq<Step>)
    requires p.capacity > 0 && InitStart(p, batches, s) && ValidRun(s, steps)
    ensures var e := Exec(s, steps);
            && |e.calls| == |batches| && |steps| <= Measure(s)
            && e.inUse == Sum(SlotsHeld<InitSlot>, e.calls) && e.inUse <= p.capacity
            && (Stuck(e) <==> AllReturned(e))
            && forall c :: 0 <= c < |batches| && e.calls[c].returned ==>
                 && SlotsHeld(e.calls[c]) == 0
                 && e.calls[c].slots == InitAll(p.whitelist, batches[c])
                 && |e.calls[c].slots| == |batches[c]|
                 && forall i :: 0 <= i < |batches[c]| ==>
                      && InitContract(p.whitelist, e.calls[c].slots[i])
                      && ReadFrom(p.whitelist, batches[c][i], e.calls[c].slots[i])
  {
    FanoutIsSequentialMap(s, steps, EMPTY_INIT);
    var e := Exec(s, steps);
    forall c | 0 <= c < |batches| && e.calls[c].returned
      ensures SlotsHeld(e.calls[c]) == 0
      ensures forall i :: 0 <= i < |batches[c]| ==>
        && InitContract(p.whitelist, InitAll(p.whitelist, batches[c])[i])
        && ReadFrom(p.whitelist, batches[c][i], InitAll(p.whitelist, batches[c])[i])
    {
      ReturnedIsSequential(e, c, EMPTY_INIT);
      forall i | 0 <= i < |batches[c]|
        ensures InitContract(p.whitelist, InitAll(p.whitelist, batches[c])[i])
        ensures ReadFrom(p.whitelist, batches[c][i], InitAll(p.whitelist, batches[c])[i])
      {
        InitOneContract(p.whitelist, batches[c][i]);
        InitOneExact(p.whitelist, batches[c][i]);
      }
    }
  }
}
