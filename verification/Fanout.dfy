/**
 Worker pools: calls that share one counting semaphore, each launching one goroutine per index and
 waiting on its own wait group. A step is one channel operation, one wait-group operation, or one
 goroutine writing the result slots of its index.
 */
module Fanout {

  /** A goroutine's life. It holds a semaphore slot while `Running` or `Wrote`. */
  datatype Worker = Unlaunched | Running | Wrote | Freed | Finished

  /**
   One call over `|answers|` indices. `answers[i]` is what evaluating index `i` alone leaves in the
   result slots of that index; `slots[i]` is what they hold now. `eager` calls add every worker to
   the wait group up front, the others one per loop iteration, just before asking for a slot.
   */
  datatype Call<S> = Call(answers: seq<S>, slots: seq<S>, workers: seq<Worker>, next: nat,
                          eager: bool, armed: bool, waitCount: int, returned: bool)

  datatype State<S> = State(capacity: nat, inUse: nat, calls: seq<Call<S>>)

  datatype Step =
    | Arm(c: nat)             // wg.Add(1), the loop about to send
    | Launch(c: nat)          // the send succeeds and the goroutine starts
    | Write(c: nat, i: nat)   // the goroutine writes its result slots
    | Free(c: nat, i: nat)    // it receives from the semaphore
    | Finish(c: nat, i: nat)  // wg.Done()
    | Return(c: nat)          // wg.Wait() opens

  function Begin<S>(zero: S, answers: seq<S>, eager: bool): Call<S> {
    Call(answers, seq(|answers|, _ => zero), seq(|answers|, _ => Unlaunched), 0,
         eager, eager, if eager then |answers| else 0, false)
  }

  /** Whether a call can take a step, apart from what the semaphore allows. */
  predicate CallEnabled<S>(call: Call<S>, step: Step) {
    && !call.returned
    && |call.workers| == |call.slots| == |call.answers|
    && match step
       case Arm(_) => call.next < |call.answers| && !call.armed
       case Launch(_) => call.next < |call.answers| && call.armed
       case Write(_, i) => i < |call.workers| && call.workers[i] == Running
       case Free(_, i) => i < |call.workers| && call.workers[i] == Wrote
       case Finish(_, i) => i < |call.workers| && call.workers[i] == Freed
       case Return(_) => call.next == |call.answers| && call.waitCount == 0
  }

  /** A send blocks while the semaphore is full, a receive while it is empty. */
  predicate Enabled<S>(s: State<S>, step: Step) {
    && step.c < |s.calls|
    && CallEnabled(s.calls[step.c], step)
    && (step.Launch? ==> s.inUse < s.capacity)
    && (step.Free? ==> s.inUse > 0)
  }

  function Move<S>(call: Call<S>, i: nat, w: Worker): Call<S>
    requires i < |call.workers|
  {
    call.(workers := call.workers[i := w])
  }

  function DoCall<S>(call: Call<S>, step: Step): Call<S>
    requires CallEnabled(call, step)
  {
    match step
    case Arm(_) => call.(armed := true, waitCount := call.waitCount + 1)
    case Launch(_) => Move(call, call.next, Running).(next := call.next + 1, armed := call.eager)
    case Write(_, i) => Move(call, i, Wrote).(slots := call.slots[i := call.answers[i]])
    case Free(_, i) => Move(call, i, Freed)
    case Finish(_, i) => Move(call, i, Finished).(waitCount := call.waitCount - 1)
    case Return(_) => call.(returned := true)
  }

  /** What a step adds to the semaphore's fill. */
  function Taken(step: Step): int {
    if step.Launch? then 1 else if step.Free? then -1 else 0
  }

  function Do<S>(s: State<S>, step: Step): State<S>
    requires Enabled(s, step)
  {
    State(s.capacity, s.inUse + Taken(step), s.calls[step.c := DoCall(s.calls[step.c], step)])
  }

  // ---- counting ----

  function HoldsSlot(w: Worker): nat { if w == Running || w == Wrote then 1 else 0 }

  function IsDone(w: Worker): nat { if w == Finished then 1 else 0 }

  /** Steps a worker still has to take. */
  function Ahead(w: Worker): nat {
    match w case Unlaunched => 4 case Running => 3 case Wrote => 2 case Freed => 1 case Finished => 0
  }

  function Sum<T>(f: T -> nat, s: seq<T>): nat {
    if s == [] then 0 else Sum(f, s[..|s| - 1]) + f(s[|s| - 1])
  }

  lemma {:induction false} SumUpdate<T>(f: T -> nat, s: seq<T>, i: nat, x: T)
    requires i < |s|
    ensures Sum(f, s[i := x]) == Sum(f, s) - f(s[i]) + f(x)
  {
    var n := |s| - 1;
    if i < n {
      SumUpdate(f, s[..n], i, x);
      assert s[i := x][..n] == s[..n][i := x];
    } else {
      assert s[i := x][..n] == s[..n];
    }
  }

  lemma {:induction false} SumAtLeast<T>(f: T -> nat, s: seq<T>, i: nat)
    requires i < |s|
    ensures f(s[i]) <= Sum(f, s)
  {
    if i < |s| - 1 {
      SumAtLeast(f, s[..|s| - 1], i);
    }
  }

  lemma {:induction false} SumConst<T>(f: T -> nat, s: seq<T>, k: nat)
    requires forall i :: 0 <= i < |s| ==> f(s[i]) == k
    ensures Sum(f, s) == k * |s|
  {
    if s != [] {
      SumConst(f, s[..|s| - 1], k);
    }
  }

  /** A sum of zeros and ones, zero from `k` on, is at most `k`, and reaches it only with ones before. */
  lemma {:induction false} SumOnes<T>(f: T -> nat, s: seq<T>, k: nat)
    requires k <= |s|
    requires forall i :: 0 <= i < |s| ==> f(s[i]) <= if i < k then 1 else 0
    ensures Sum(f, s) <= k
    ensures Sum(f, s) == k <==> forall i :: 0 <= i < k ==> f(s[i]) == 1
  {
    if s != [] {
      SumOnes(f, s[..|s| - 1], if k == |s| then k - 1 else k);
    }
  }

  function SlotsHeld<S>(call: Call<S>): nat { Sum(HoldsSlot, call.workers) }

  function DoneCount<S>(call: Call<S>): nat { Sum(IsDone, call.workers) }

  /** Steps a call still has to take: arming and launching count as two, then each worker's own. */
  function CallMeasure<S>(call: Call<S>): nat {
    Sum(Ahead, call.workers)
    + (if call.next <= |call.answers| then 2 * (|call.answers| - call.next) else 0)
    + (if call.armed then 0 else 1)
    + (if call.returned then 0 else 1)
  }

  // ---- what every step keeps ----

  ghost predicate CallOk<S>(call: Call<S>, zero: S) {
    var n := |call.answers|;
    && |call.slots| == n && |call.workers| == n && call.next <= n
    && (forall i :: 0 <= i < n ==> (call.workers[i] == Unlaunched <==> call.next <= i))
    && (forall i :: 0 <= i < n ==>
          call.slots[i] == if call.workers[i] == Unlaunched || call.workers[i] == Running
                           then zero else call.answers[i])
    && (if call.eager then call.armed else call.armed ==> call.next < n)
    && call.waitCount == (if call.eager then n else if call.armed then call.next + 1 else call.next) - DoneCount(call)
    && (call.returned ==> forall i :: 0 <= i < n ==> call.workers[i] == Finished)
  }

  /** Slots in use are exactly the workers holding one, over all calls, and never exceed the capacity. */
  ghost predicate StateOk<S>(s: State<S>, zero: S) {
    && (forall c :: 0 <= c < |s.calls| ==> CallOk(s.calls[c], zero))
    && s.inUse == Sum(SlotsHeld<S>, s.calls)
    && s.inUse <= s.capacity
  }

  lemma BeginOk<S>(zero: S, answers: seq<S>, eager: bool)
    ensures CallOk(Begin(zero, answers, eager), zero)
    ensures SlotsHeld(Begin(zero, answers, eager)) == 0
  {
    var call := Begin(zero, answers, eager);
    SumConst(HoldsSlot, call.workers, 0);
    SumConst(IsDone, call.workers, 0);
  }

  /** A step that moves worker `i` changes each sum by that worker's own share. */
  lemma MoveSums<S>(call: Call<S>, i: nat, w: Worker)
    requires i < |call.workers|
    ensures SlotsHeld(Move(call, i, w)) == SlotsHeld(call) - HoldsSlot(call.workers[i]) + HoldsSlot(w)
    ensures DoneCount(Move(call, i, w)) == DoneCount(call) - IsDone(call.workers[i]) + IsDone(w)
    ensures Sum(Ahead, Move(call, i, w).workers) == Sum(Ahead, call.workers) - Ahead(call.workers[i]) + Ahead(w)
  {
    SumUpdate(HoldsSlot, call.workers, i, w);
    SumUpdate(IsDone, call.workers, i, w);
    SumUpdate(Ahead, call.workers, i, w);
  }

  /** The wait group never goes negative, and it opens only when every launched worker has finished. */
  lemma WaitGroup<S>(call: Call<S>, zero: S)
    requires CallOk(call, zero)
    ensures call.waitCount >= 0
    ensures call.next == |call.answers| && call.waitCount == 0
       <==> forall i :: 0 <= i < |call.answers| ==> call.workers[i] == Finished
  {
    SumOnes(IsDone, call.workers, call.next);
    if call.next < |call.answers| {
      assert call.workers[call.next] == Unlaunched;
    }
  }

  lemma CallKeepsOk<S>(call: Call<S>, step: Step, zero: S)
    requires CallOk(call, zero) && CallEnabled(call, step)
    ensures CallOk(DoCall(call, step), zero)
  {
    match step
    case Arm(_) => ArmKeepsOk(call, step, zero);
    case Launch(_) => LaunchKeepsOk(call, step, zero);
    case Write(_, _) => WriteKeepsOk(call, step, zero);
    case Free(_, _) => FreeKeepsOk(call, step, zero);
    case Finish(_, _) => FinishKeepsOk(call, step, zero);
    case Return(_) => ReturnKeepsOk(call, step, zero);
  }

  lemma ArmKeepsOk<S>(call: Call<S>, step: Step, zero: S)
    requires CallOk(call, zero) && CallEnabled(call, step) && step.Arm?
    ensures CallOk(DoCall(call, step), zero)
  {
  }

  lemma FreeKeepsOk<S>(call: Call<S>, step: Step, zero: S)
    requires CallOk(call, zero) && CallEnabled(call, step) && step.Free?
    ensures CallOk(DoCall(call, step), zero)
  {
    MoveSums(call, step.i, Freed);
  }

  lemma FinishKeepsOk<S>(call: Call<S>, step: Step, zero: S)
    requires CallOk(call, zero) && CallEnabled(call, step) && step.Finish?
    ensures CallOk(DoCall(call, step), zero)
  {
    MoveSums(call, step.i, Finished);
  }

  lemma ReturnKeepsOk<S>(call: Call<S>, step: Step, zero: S)
    requires CallOk(call, zero) && CallEnabled(call, step) && step.Return?
    ensures CallOk(DoCall(call, step), zero)
  {
    WaitGroup(call, zero);
  }

  lemma WriteKeepsOk<S>(call: Call<S>, step: Step, zero: S)
    requires CallOk(call, zero) && CallEnabled(call, step) && step.Write?
    ensures CallOk(DoCall(call, step), zero)
  {
    MoveSums(call, step.i, Wrote);
  }

  lemma LaunchKeepsOk<S>(call: Call<S>, step: Step, zero: S)
    requires CallOk(call, zero) && CallEnabled(call, step) && step.Launch?
    ensures CallOk(DoCall(call, step), zero)
  {
    MoveSums(call, call.next, Running);
  }

  /** A step takes or frees a slot exactly as the semaphore counts it, and uses up measure. */
  lemma CallSums<S>(call: Call<S>, step: Step, zero: S)
    requires CallOk(call, zero) && CallEnabled(call, step)
    ensures SlotsHeld(DoCall(call, step)) == SlotsHeld(call) + Taken(step)
    ensures CallMeasure(DoCall(call, step)) < CallMeasure(call)
  {
    match step
    case Arm(_) =>
    case Launch(_) => MoveSums(call, call.next, Running);
    case Write(_, i) => MoveSums(call, i, Wrote);
    case Free(_, i) => MoveSums(call, i, Freed);
    case Finish(_, i) => MoveSums(call, i, Finished);
    case Return(_) =>
  }

  lemma StepKeepsOk<S>(s: State<S>, step: Step, zero: S)
    requires StateOk(s, zero) && Enabled(s, step)
    ensures StateOk(Do(s, step), zero)
  {
    var call := s.calls[step.c];
    CallKeepsOk(call, step, zero);
    CallSums(call, step, zero);
    SumUpdate(SlotsHeld<S>, s.calls, step.c, DoCall(call, step));
  }

  function Measure<S>(s: State<S>): nat { Sum(CallMeasure<S>, s.calls) }

  lemma StepDrops<S>(s: State<S>, step: Step, zero: S)
    requires StateOk(s, zero) && Enabled(s, step)
    ensures Measure(Do(s, step)) < Measure(s)
  {
    CallSums(s.calls[step.c], step, zero);
    SumUpdate(CallMeasure<S>, s.calls, step.c, DoCall(s.calls[step.c], step));
  }

  /** A call that returned holds no slot, and its slices are those of a sequential evaluation. */
  lemma ReturnedIsSequential<S>(s: State<S>, c: nat, zero: S)
    requires StateOk(s, zero) && c < |s.calls| && s.calls[c].returned
    ensures s.calls[c].slots == s.calls[c].answers
    ensures SlotsHeld(s.calls[c]) == 0
  {
    SumConst(HoldsSlot, s.calls[c].workers, 0);
  }

  /** Every call has returned. */
  predicate AllReturned<S>(s: State<S>) {
    forall c :: 0 <= c < |s.calls| ==> s.calls[c].returned
  }

  /** With a capacity of at least one, some step is possible until every call has returned. */
  lemma Progress<S>(s: State<S>, zero: S) returns (step: Step)
    requires StateOk(s, zero) && s.capacity > 0 && !AllReturned(s)
    ensures Enabled(s, step)
  {
    if c, i :| 0 <= c < |s.calls| && 0 <= i < |s.calls[c].workers| && s.calls[c].workers[i] !in {Unlaunched, Finished} {
      match s.calls[c].workers[i]
      case Running => step := Write(c, i);
      case Wrote =>
        SumAtLeast(HoldsSlot, s.calls[c].workers, i);
        SumAtLeast(SlotsHeld<S>, s.calls, c);
        step := Free(c, i);
      case Freed => step := Finish(c, i);
    } else {
      forall c | 0 <= c < |s.calls| ensures SlotsHeld(s.calls[c]) == 0
      {
        SumConst(HoldsSlot, s.calls[c].workers, 0);
      }
      SumConst(SlotsHeld<S>, s.calls, 0);
      var c :| 0 <= c < |s.calls| && !s.calls[c].returned;
      var call := s.calls[c];
      if call.next == |call.answers| {
        WaitGroup(call, zero);
        step := Return(c);
      } else {
        step := if call.armed then Launch(c) else Arm(c);
      }
    }
  }

  // ---- whole runs ----

  ghost predicate ValidRun<S>(s: State<S>, steps: seq<Step>)
    decreases |steps|
  {
    steps == [] || (Enabled(s, steps[0]) && ValidRun(Do(s, steps[0]), steps[1..]))
  }

  ghost function Exec<S>(s: State<S>, steps: seq<Step>): State<S>
    requires ValidRun(s, steps)
    decreases |steps|
  {
    if steps == [] then s else Exec(Do(s, steps[0]), steps[1..])
  }

  ghost predicate Stuck<S>(s: State<S>) {
    forall step :: !Enabled(s, step)
  }

  /** Calls sharing one semaphore, none of which has started: a worker pool's initial state. */
  ghost predicate Initial<S>(s: State<S>, zero: S) {
    && s.inUse == 0
    && forall c :: 0 <= c < |s.calls| ==>
         s.calls[c] == Begin(zero, s.calls[c].answers, s.calls[c].eager)
  }

  lemma InitialOk<S>(s: State<S>, zero: S)
    requires Initial(s, zero)
    ensures StateOk(s, zero)
  {
    forall c | 0 <= c < |s.calls| ensures CallOk(s.calls[c], zero) && SlotsHeld(s.calls[c]) == 0
    {
      BeginOk(zero, s.calls[c].answers, s.calls[c].eager);
    }
    SumConst(SlotsHeld<S>, s.calls, 0);
  }

  /** No step changes the capacity or what the indices would evaluate to. */
  ghost predicate SameTask<S>(s: State<S>, e: State<S>) {
    && e.capacity == s.capacity && |e.calls| == |s.calls|
    && forall c :: 0 <= c < |s.calls| ==> e.calls[c].answers == s.calls[c].answers
  }

  lemma StepKeepsTask<S>(s: State<S>, step: Step)
    requires Enabled(s, step)
    ensures SameTask(s, Do(s, step))
  {
  }

  lemma {:induction false} RunKeeps<S>(s: State<S>, steps: seq<Step>, zero: S)
    requires StateOk(s, zero) && ValidRun(s, steps)
    ensures StateOk(Exec(s, steps), zero) && |steps| + Measure(Exec(s, steps)) <= Measure(s)
    decreases |steps|
  {
    if steps != [] {
      StepKeepsOk(s, steps[0], zero);
      StepDrops(s, steps[0], zero);
      RunKeeps(Do(s, steps[0]), steps[1..], zero);
    }
  }

  lemma {:induction false} RunKeepsTask<S>(s: State<S>, steps: seq<Step>)
    requires ValidRun(s, steps)
    ensures SameTask(s, Exec(s, steps))
    decreases |steps|
  {
    if steps != [] {
      StepKeepsTask(s, steps[0]);
      RunKeepsTask(Do(s, steps[0]), steps[1..]);
    }
  }

  /**
   Under every schedule: the slots in use are the workers holding one and stay within capacity, runs
   are bounded, and a run that cannot go on has returned every call with the slices that evaluating
   its indices one by one would give.
   */
  lemma FanoutIsSequentialMap<S>(s: State<S>, steps: seq<Step>, zero: S)
    requires Initial(s, zero) && ValidRun(s, steps) && s.capacity > 0
    ensures StateOk(Exec(s, steps), zero) && |steps| <= Measure(s)
    ensures Exec(s, steps).capacity == s.capacity && |Exec(s, steps).calls| == |s.calls|
    ensures Stuck(Exec(s, steps)) <==> AllReturned(Exec(s, steps))
    ensures forall c :: 0 <= c < |s.calls| && Exec(s, steps).calls[c].returned ==>
      Exec(s, steps).calls[c].slots == s.calls[c].answers
  {
    InitialOk(s, zero);
    RunKeeps(s, steps, zero);
    RunKeepsTask(s, steps);
    var e := Exec(s, steps);
    if !AllReturned(e) {
      var step := Progress(e, zero);
    }
    forall c | 0 <= c < |s.calls| && e.calls[c].returned ensures e.calls[c].slots == s.calls[c].answers
    {
      ReturnedIsSequential(e, c, zero);
    }
  }

  /** With no capacity a call over at least one index never returns, in any run. */
  lemma NoCapacityNeverReturns<S>(s: State<S>, steps: seq<Step>, zero: S, c: nat)
    requires Initial(s, zero) && ValidRun(s, steps) && s.capacity == 0
    requires c < |s.calls| && s.calls[c].answers != []
    ensures c < |Exec(s, steps).calls| && !Exec(s, steps).calls[c].returned
  {
    NeverLaunched(s, steps, c);
  }

  lemma {:induction false} NeverLaunched<S>(s: State<S>, steps: seq<Step>, c: nat)
    requires ValidRun(s, steps) && s.capacity == 0 && c < |s.calls|
    requires s.calls[c].answers != [] && s.calls[c].next == 0 && !s.calls[c].returned
    ensures c < |Exec(s, steps).calls| && !Exec(s, steps).calls[c].returned
    decreases |steps|
  {
    if steps != [] {
      NeverLaunched(Do(s, steps[0]), steps[1..], c);
    }
  }
}
