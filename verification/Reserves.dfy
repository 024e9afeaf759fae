/** The batch reserve fetcher: decoding one contract answer, and fanning out over a batch. */
module Reserves {
  import opened Fanout
  import opened Types
  import opened Words

  /** What one contract call came back with. */
  datatype Answer = CallFailed | Answered(data: Bytes)

  datatype Pair = Pair(reserve0: int, reserve1: int)

  /** `getReserves()` returns three words; the third, a timestamp, is ignored. */
  function DecodeReserves(a: Answer): Option<Pair> {
    if a.Answered? && |a.data| == 96
    then Some(Pair(SetBytes(a.data[0..32]), SetBytes(a.data[32..64])))
    else None
  }

  function EncodeReserves(p: Pair, timestamp: nat): Answer
    requires 0 <= p.reserve0 < Pow256(32) && 0 <= p.reserve1 < Pow256(32) && timestamp < Pow256(32)
  {
    Answered(PadLeft(p.reserve0, 32) + PadLeft(p.reserve1, 32) + PadLeft(timestamp, 32))
  }

  lemma ReservesRoundTrip(p: Pair, timestamp: nat)
    requires 0 <= p.reserve0 < Pow256(32) && 0 <= p.reserve1 < Pow256(32) && timestamp < Pow256(32)
    ensures DecodeReserves(EncodeReserves(p, timestamp)) == Some(p)
  {
    var data := EncodeReserves(p, timestamp).data;
    assert data[0..32] == PadLeft(p.reserve0, 32) && data[32..64] == PadLeft(p.reserve1, 32);
    ReadWord(p.reserve0, 32);
    ReadWord(p.reserve1, 32);
  }

  /** The first two of exactly three words, in that order; anything else is refused. */
  lemma ReservesWords(a: Answer)
    ensures DecodeReserves(a).Some? <==> a.Answered? && |a.data| == 96
    ensures forall w0, w1, w2 :: |w0| == |w1| == |w2| == 32 && a == Answered(w0 + w1 + w2) ==>
      DecodeReserves(a) == Some(Pair(SetBytes(w0), SetBytes(w1)))
  {
    forall w0, w1, w2 | |w0| == |w1| == |w2| == 32 && a == Answered(w0 + w1 + w2)
      ensures DecodeReserves(a) == Some(Pair(SetBytes(w0), SetBytes(w1)))
    {
      assert a.data[0..32] == w0 && a.data[32..64] == w1;
    }
  }

  /** Whatever is decoded fits a word, and the answer is an encoding of it with some timestamp. */
  lemma ReservesCanonical(a: Answer) returns (timestamp: nat)
    requires DecodeReserves(a).Some?
    ensures var p := DecodeReserves(a).value;
            && 0 <= p.reserve0 < Pow256(32) && 0 <= p.reserve1 < Pow256(32) && timestamp < Pow256(32)
            && EncodeReserves(p, timestamp) == a
  {
    WriteWord(a.data[0..32]);
    WriteWord(a.data[32..64]);
    WriteWord(a.data[64..96]);
    timestamp := SetBytes(a.data[64..96]);
    assert a.data == a.data[0..32] + a.data[32..64] + a.data[64..96];
  }

  /** The result slots of one index; nil pointers and errors are `None` and `false`. */
  datatype FetchSlot = FetchSlot(reserve0: Option<int>, reserve1: Option<int>, failed: bool)

  const EMPTY_FETCH := FetchSlot(None, None, false)

  /** What one goroutine sees: whether the context was already cancelled, and its own answer. */
  datatype FetchInput = FetchInput(cancelled: bool, answer: Answer)

  function FetchOne(q: FetchInput): FetchSlot {
    if q.cancelled then EMPTY_FETCH.(failed := true)
    else match DecodeReserves(q.answer)
      case None => EMPTY_FETCH.(failed := true)
      case Some(p) => FetchSlot(Some(p.reserve0), Some(p.reserve1), false)
  }

  function FetchAll(inputs: seq<FetchInput>): seq<FetchSlot> {
    seq(|inputs|, i requires 0 <= i < |inputs| => FetchOne(inputs[i]))
  }

  /** One call of the fetcher makes a semaphore of its own. */
  function FetchStart(capacity: nat, inputs: seq<FetchInput>): State<FetchSlot> {
    State(capacity, 0, [Begin(EMPTY_FETCH, FetchAll(inputs), true)])
  }

  /**
   Under every goroutine schedule: when the fetcher returns, index `i` has a nil error exactly when
   both its reserves are non-nil, and then they are what its own answer decodes to. With a capacity
   of at least one the fetcher always gets there; with none it returns only for an empty batch.
   */
  lemma FetchRefinesSequential(capacity: nat, inputs: seq<FetchInput>, steps: seq<Step>)
    requires ValidRun(FetchStart(capacity, inputs), steps)
    ensures var e := Exec(FetchStart(capacity, inputs), steps);
            && |e.calls| == 1 && e.inUse <= capacity
            && (Stuck(e) ==> (e.calls[0].returned <==> capacity > 0 || inputs == []))
            && (e.calls[0].returned ==>
                  && e.inUse == 0 && |e.calls[0].slots| == |inputs|
                  && forall i :: 0 <= i < |inputs| ==>
                       var slot := e.calls[0].slots[i];
                       && (!slot.failed <==> slot.reserve0.Some? && slot.reserve1.Some?)
                       && (!slot.failed <==> !inputs[i].cancelled && DecodeReserves(inputs[i].answer).Some?)
                       && (!slot.failed ==>
                             DecodeReserves(inputs[i].answer) == Some(Pair(slot.reserve0.value, slot.reserve1.value))))
  {
    var s := FetchStart(capacity, inputs);
    var e := Exec(s, steps);
    InitialOk(s, EMPTY_FETCH);
    RunKeeps(s, steps, EMPTY_FETCH);
    RunKeepsTask(s, steps);
    SumOne(SlotsHeld<FetchSlot>, e.calls);
    if e.calls[0].returned {
      ReturnedIsSequential(e, 0, EMPTY_FETCH);
    } else if capacity > 0 {
      var step := Progress(e, EMPTY_FETCH);
    } else if inputs == [] {
      WaitGroup(e.calls[0], EMPTY_FETCH);
      assert Enabled(e, Return(0));
    }
    if capacity == 0 && inputs != [] {
      NoCapacityNeverReturns(s, steps, EMPTY_FETCH, 0);
    }
  }

  lemma SumOne<T>(f: T -> nat, s: seq<T>)
    requires |s| == 1
    ensures Sum(f, s) == f(s[0])
  {
    assert s[..0] == [];
  }
}
