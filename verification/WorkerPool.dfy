// src/common/concurrency.ts and src/attendance/manual-punch-batch.ts: workers that share a next-index counter. A step
// is what one worker does between two awaits; which worker moves next is arbitrary, so every schedule is covered.
module WorkerPool {
  import opened Prelude

  datatype Outcome<R> = Value(value: R) | Failed(message: string)

  datatype Worker = Ready | Busy(index: nat) | Stopped | Threw(index: nat)

  /** `catches`: runInBatches turns a worker's error into a result; mapWithConcurrency lets it end the worker. */
  datatype Job<!T, R> = Job(items: seq<T>, fn: (T, nat) -> Outcome<R>, catches: bool)

  /** `calls` records the indexes `fn` has been called with, in order. */
  datatype State<R> = State(next: nat, workers: seq<Worker>, results: seq<Option<Outcome<R>>>, calls: seq<nat>)

  function MapWorkers(limit: int, items: nat): (count: nat)
    ensures 1 <= count <= Max(1, limit)
  {
    Max(1, Min(limit, items))
  }

  function BatchLanes(concurrency: int, items: nat): (count: nat) {
    Max(0, Min(concurrency, items))
  }

  function Start<T, R>(job: Job<T, R>, count: nat): State<R> {
    State(0, seq(count, _ => Ready), seq(|job.items|, _ => None), [])
  }

  predicate Active(w: Worker) {
    w.Ready? || w.Busy?
  }

  predicate CanMove<R>(s: State<R>, w: nat) {
    w < |s.workers| && Active(s.workers[w])
  }

  ghost predicate Finished<R>(s: State<R>) {
    forall w :: 0 <= w < |s.workers| ==> !Active(s.workers[w])
  }

  function Outcomes<T, R>(job: Job<T, R>, i: nat): Outcome<R>
    requires i < |job.items|
  {
    job.fn(job.items[i], i)
  }

  function Next<T, R>(job: Job<T, R>, s: State<R>, w: nat): State<R>
    requires CanMove(s, w) && |s.results| == |job.items|
    requires s.workers[w].Busy? ==> s.workers[w].index < |job.items|
  {
    if s.workers[w].Ready? then
      if s.next >= |job.items| then
        // mapWithConcurrency bumps the counter before looking, runInBatches looks first.
        s.(next := if job.catches then s.next else s.next + 1, workers := s.workers[w := Stopped])
      else
        s.(next := s.next + 1, workers := s.workers[w := Busy(s.next)], calls := s.calls + [s.next])
    else
      var i := s.workers[w].index;
      var outcome := Outcomes(job, i);
      if outcome.Failed? && !job.catches then s.(workers := s.workers[w := Threw(i)])
      else s.(workers := s.workers[w := Ready], results := s.results[i := Some(outcome)])
  }

  // ---- The invariant ----

  ghost predicate WorkerOk<T, R>(job: Job<T, R>, s: State<R>, w: nat)
    requires w < |s.workers| && |s.results| == |job.items|
  {
    match s.workers[w]
    case Ready => true
    case Busy(i) => i < s.next && i < |job.items| && s.results[i].None?
    case Stopped => s.next >= |job.items|
    case Threw(i) => i < s.next && i < |job.items| && s.results[i].None? && !job.catches && Outcomes(job, i).Failed?
  }

  /** The index a worker holds, if any. */
  predicate HoldsIndex(w: Worker, i: nat) {
    (w.Busy? || w.Threw?) && w.index == i
  }

  ghost predicate Inv<T, R>(job: Job<T, R>, s: State<R>) {
    && |s.results| == |job.items|
    && (forall w :: 0 <= w < |s.workers| ==> WorkerOk(job, s, w))
    && (forall v, w, i | 0 <= v < |s.workers| && 0 <= w < |s.workers| && v != w ::
          !(HoldsIndex(s.workers[v], i) && HoldsIndex(s.workers[w], i)))
    // Every claimed index is either settled with its own outcome or held by a worker, and no other index is touched.
    && (forall i :: 0 <= i < |job.items| && s.results[i].Some? ==>
          i < s.next && s.results[i].value == Outcomes(job, i) && (s.results[i].value.Value? || job.catches))
    && (forall i :: 0 <= i < |job.items| && i < s.next && s.results[i].None? ==>
          exists w :: 0 <= w < |s.workers| && HoldsIndex(s.workers[w], i))
    // The function has been called once per claimed index, in index order.
    && |s.calls| == Min(s.next, |job.items|)
    && (forall i :: 0 <= i < |s.calls| ==> s.calls[i] == i)
  }

  lemma StartsWell<T, R>(job: Job<T, R>, count: nat)
    ensures Inv(job, Start(job, count))
  {
  }

  lemma StepWorkersOk<T, R>(job: Job<T, R>, s: State<R>, w: nat, v: nat)
    requires Inv(job, s) && CanMove(s, w) && WorkerOk(job, s, w) && v < |s.workers|
    ensures WorkerOk(job, Next(job, s, w), v)
  {
    assert WorkerOk(job, s, v);
    if v != w && s.workers[w].Busy? && (s.workers[v].Busy? || s.workers[v].Threw?) {
      assert HoldsIndex(s.workers[w], s.workers[w].index) && HoldsIndex(s.workers[v], s.workers[v].index);
    }
  }

  // An index held after a step was held before by the same worker, or is the one just claimed.
  lemma StepHeld<T, R>(job: Job<T, R>, s: State<R>, w: nat, v: nat, i: nat)
    requires Inv(job, s) && CanMove(s, w) && WorkerOk(job, s, w) && v < |s.workers|
    ensures HoldsIndex(Next(job, s, w).workers[v], i) ==> HoldsIndex(s.workers[v], i) || (v == w && i == s.next)
    ensures HoldsIndex(s.workers[v], i) ==> i < s.next
  {
    assert WorkerOk(job, s, v);
  }

  lemma StepHolder<T, R>(job: Job<T, R>, s: State<R>, w: nat, i: nat)
    requires Inv(job, s) && CanMove(s, w) && WorkerOk(job, s, w)
    requires i < |job.items| && i < Next(job, s, w).next && Next(job, s, w).results[i].None?
    ensures exists v :: 0 <= v < |s.workers| && HoldsIndex(Next(job, s, w).workers[v], i)
  {
    var t := Next(job, s, w);
    if i < s.next {
      var v :| 0 <= v < |s.workers| && HoldsIndex(s.workers[v], i);
      assert WorkerOk(job, s, v) && HoldsIndex(t.workers[v], i);
    } else {
      assert HoldsIndex(t.workers[w], i);
    }
  }

  lemma StepKeeps<T, R>(job: Job<T, R>, s: State<R>, w: nat)
    requires Inv(job, s) && CanMove(s, w) && WorkerOk(job, s, w)
    ensures Inv(job, Next(job, s, w))
    ensures |Next(job, s, w).workers| == |s.workers|
  {
    var t := Next(job, s, w);
    forall v | 0 <= v < |t.workers|
      ensures WorkerOk(job, t, v)
    {
      StepWorkersOk(job, s, w, v);
    }
    forall v, i: nat | 0 <= v < |t.workers|
      ensures HoldsIndex(t.workers[v], i) ==> HoldsIndex(s.workers[v], i) || (v == w && i == s.next)
      ensures HoldsIndex(s.workers[v], i) ==> i < s.next
    {
      StepHeld(job, s, w, v, i);
    }
    forall i | 0 <= i < |job.items| && i < t.next && t.results[i].None?
      ensures exists v :: 0 <= v < |t.workers| && HoldsIndex(t.workers[v], i)
    {
      StepHolder(job, s, w, i);
    }
  }

  // ---- Every schedule ends ----

  function Weight(w: Worker): nat {
    match w
    case Ready => 1
    case Busy(_) => 2
    case _ => 0
  }

  ghost function Weights(workers: seq<Worker>): nat {
    if workers == [] then 0 else Weight(workers[0]) + Weights(workers[1..])
  }

  lemma {:induction false} WeightsReplace(workers: seq<Worker>, w: nat, x: Worker)
    requires w < |workers|
    ensures Weights(workers[w := x]) + Weight(workers[w]) == Weights(workers) + Weight(x)
  {
    if w == 0 {
      assert workers[w := x][1..] == workers[1..];
    } else {
      assert workers[w := x][1..] == workers[1..][w - 1 := x];
      WeightsReplace(workers[1..], w - 1, x);
    }
  }

  /** The work left: it goes down with every step. */
  ghost function Left<T, R>(job: Job<T, R>, s: State<R>): nat {
    3 * Max(0, |job.items| - s.next) + Weights(s.workers)
  }

  lemma StepMakesProgress<T, R>(job: Job<T, R>, s: State<R>, w: nat)
    requires CanMove(s, w) && |s.results| == |job.items|
    requires s.workers[w].Busy? ==> s.workers[w].index < |job.items|
    ensures Left(job, Next(job, s, w)) < Left(job, s)
  {
    WeightsReplace(s.workers, w, Next(job, s, w).workers[w]);
  }

  lemma {:induction false} ReadyWeights(workers: seq<Worker>)
    requires forall w :: 0 <= w < |workers| ==> workers[w] == Ready
    ensures Weights(workers) == |workers|
  {
    if workers != [] {
      ReadyWeights(workers[1..]);
    }
  }

  ghost predicate Run<T, R>(job: Job<T, R>, count: nat, states: seq<State<R>>, schedule: seq<nat>) {
    && |states| == |schedule| + 1
    && states[0] == Start(job, count)
    && forall i :: 0 <= i < |schedule| ==>
         && CanMove(states[i], schedule[i]) && |states[i].results| == |job.items|
         && (states[i].workers[schedule[i]].Busy? ==> states[i].workers[schedule[i]].index < |job.items|)
         && states[i + 1] == Next(job, states[i], schedule[i])
  }

  /**
   * In every state of every schedule: the function has been called exactly once for each claimed index, in index order;
   * no two workers hold the same index; settled slots hold their own item's outcome; and the steps taken so far are
   * bounded by the work there was, so no schedule runs for ever.
   */
  lemma {:induction false} EverySchedule<T, R>(job: Job<T, R>, count: nat, states: seq<State<R>>, schedule: seq<nat>,
                                               k: nat)
    requires Run(job, count, states, schedule) && k < |states|
    ensures Inv(job, states[k]) && |states[k].workers| == count
    ensures k + Left(job, states[k]) <= 3 * |job.items| + count
  {
    if k == 0 {
      StartsWell(job, count);
      ReadyWeights(states[0].workers);
    } else {
      EverySchedule(job, count, states, schedule, k - 1);
      StepKeeps(job, states[k - 1], schedule[k - 1]);
      StepMakesProgress(job, states[k - 1], schedule[k - 1]);
    }
  }

  // ---- At most so many in flight ----

  ghost function InFlight(workers: seq<Worker>): set<nat> {
    set w | 0 <= w < |workers| && workers[w].Busy? :: workers[w].index
  }

  lemma {:induction false} InFlightBounded(workers: seq<Worker>)
    ensures |InFlight(workers)| <= |workers|
  {
    if workers != [] {
      var last := |workers| - 1;
      InFlightBounded(workers[..last]);
      assert InFlight(workers) == InFlight(workers[..last]) + if workers[last].Busy? then {workers[last].index} else {};
    }
  }

  /** At no moment are more than max(1, limit) items being worked on. */
  lemma AtMostLimitInFlight<T, R>(job: Job<T, R>, limit: int, states: seq<State<R>>, schedule: seq<nat>, k: nat)
    requires Run(job, MapWorkers(limit, |job.items|), states, schedule) && k < |states|
    ensures |InFlight(states[k].workers)| <= Max(1, limit)
  {
    EverySchedule(job, MapWorkers(limit, |job.items|), states, schedule, k);
    InFlightBounded(states[k].workers);
  }

  // ---- What a finished pool has done ----

  ghost predicate AllSettled<T, R>(job: Job<T, R>, s: State<R>) {
    && |s.results| == |job.items|
    && forall i :: 0 <= i < |job.items| ==> s.results[i] == Some(Outcomes(job, i))
  }

  ghost predicate SomeThrew<R>(s: State<R>) {
    exists w :: 0 <= w < |s.workers| && s.workers[w].Threw?
  }

  ghost predicate SomeFails<T, R>(job: Job<T, R>) {
    exists i :: 0 <= i < |job.items| && Outcomes(job, i).Failed?
  }

  lemma FinishedPool<T, R>(job: Job<T, R>, s: State<R>)
    requires Inv(job, s) && Finished(s) && (|s.workers| > 0 || job.items == [])
    ensures !SomeThrew(s) ==> AllSettled(job, s)
    ensures SomeThrew(s) <==> !job.catches && SomeFails(job)
  {
    if !SomeThrew(s) && job.items != [] {
      assert WorkerOk(job, s, 0);
      assert forall w, i :: 0 <= w < |s.workers| ==> !HoldsIndex(s.workers[w], i);
      assert forall i :: 0 <= i < |job.items| ==> s.results[i].Some?;
    } else if SomeThrew(s) {
      var w :| 0 <= w < |s.workers| && s.workers[w].Threw?;
      assert WorkerOk(job, s, w);
    }
  }

  /** A pool that catches fills every slot of every batch exactly when it has a lane or nothing to do. */
  lemma BatchFillsEverySlotIff<T, R>(job: Job<T, R>, concurrency: int, states: seq<State<R>>, schedule: seq<nat>)
    requires job.catches && Run(job, BatchLanes(concurrency, |job.items|), states, schedule)
    requires Finished(states[|schedule|])
    ensures AllSettled(job, states[|schedule|]) <==> concurrency >= 1 || job.items == []
  {
    var count := BatchLanes(concurrency, |job.items|);
    var s := states[|schedule|];
    EverySchedule(job, count, states, schedule, |schedule|);
    if concurrency >= 1 || job.items == [] {
      FinishedPool(job, s);
    } else {
      assert forall w :: !CanMove(states[0], w);
      assert schedule == [];
      assert s.results[0] == None;
    }
  }

  // ---- The pools themselves ----

  /** The variables the workers of one call share. */
  class Pool<T, R> {
    const job: Job<T, R>
    const results: array<Option<Outcome<R>>>
    var nextIndex: nat
    var workers: seq<Worker>
    ghost var calls: seq<nat>

    constructor (job: Job<T, R>, count: nat)
      ensures this.job == job && fresh(results) && results.Length == |job.items|
      ensures Value() == Start(job, count)
    {
      this.job := job;
      results := new Option<Outcome<R>>[|job.items|](_ => None);
      nextIndex := 0;
      workers := seq(count, _ => Ready);
      calls := [];
      new;
      assert results[..] == Start(job, count).results;
    }

    ghost function Value(): State<R>
      reads this, results
    {
      State(nextIndex, workers, results[..], calls)
    }

    /** What worker `w` does between two awaits. */
    method Move(w: nat)
      requires results.Length == |job.items| && CanMove(Value(), w)
      requires workers[w].Busy? ==> workers[w].index < |job.items|
      modifies this`nextIndex, this`workers, this`calls, results
      ensures Value() == Next(job, old(Value()), w)
    {
      if workers[w].Ready? {
        var i := nextIndex;
        if i >= |job.items| {
          nextIndex := if job.catches then nextIndex else nextIndex + 1;
          workers := workers[w := Stopped];
        } else {
          nextIndex := nextIndex + 1;
          workers := workers[w := Busy(i)];
          calls := calls + [i];
        }
      } else {
        var i := workers[w].index;
        var outcome := job.fn(job.items[i], i);
        if outcome.Failed? && !job.catches {
          workers := workers[w := Threw(i)];
        } else {
          results[i] := Some(outcome);
          workers := workers[w := Ready];
        }
      }
    }
  }

  // One pool under an arbitrary scheduler: any worker that can move may be the next one to.
  method RunPool<T, R>(job: Job<T, R>, count: nat) returns (results: seq<Option<Outcome<R>>>, threw: bool)
    ensures |results| == |job.items|
    ensures count > 0 || job.items == [] ==> (threw <==> !job.catches && SomeFails(job))
    ensures !threw && (count > 0 || job.items == []) ==> forall i :: 0 <= i < |job.items| ==>
              results[i] == Some(Outcomes(job, i))
    ensures count == 0 ==> forall i :: 0 <= i < |job.items| ==> results[i] == None
  {
    var pool := new Pool(job, count);
    StartsWell(job, count);
    while exists w :: 0 <= w < |pool.workers| && Active(pool.workers[w])
      invariant pool.job == job && fresh(pool.results) && |pool.workers| == count
      invariant Inv(job, pool.Value())
      invariant count == 0 ==> pool.Value() == Start(job, count)
      decreases Left(job, pool.Value())
    {
      var w :| 0 <= w < |pool.workers| && Active(pool.workers[w]);
      assert WorkerOk(job, pool.Value(), w);
      StepKeeps(job, pool.Value(), w);
      StepMakesProgress(job, pool.Value(), w);
      pool.Move(w);
    }
    results := pool.results[..];
    threw := exists w :: 0 <= w < |pool.workers| && pool.workers[w].Threw?;
    assert threw <==> SomeThrew(pool.Value());
    if count > 0 || job.items == [] {
      FinishedPool(job, pool.Value());
    }
  }

  /** mapWithConcurrency: the sequential map in order, whatever the schedule; None when the promise is rejected. */
  method MapWithConcurrency<T, R>(items: seq<T>, limit: int,
                                  fn: (T, nat) -> Outcome<R>) returns (mapped: Option<seq<R>>)
    ensures mapped.Some? <==> forall i :: 0 <= i < |items| ==> fn(items[i], i).Value?
    ensures mapped.Some? ==> |mapped.value| == |items|
    ensures mapped.Some? ==> forall i :: 0 <= i < |items| ==> fn(items[i], i) == Value(mapped.value[i])
  {
    var job := Job(items, fn, false);
    var results, threw := RunPool(job, MapWorkers(limit, |items|));
    if threw {
      var i :| 0 <= i < |job.items| && Outcomes(job, i).Failed?;
      assert !fn(items[i], i).Value?;
      return None;
    }
    assert forall i :: 0 <= i < |items| ==> results[i] == Some(fn(items[i], i)) && !Outcomes(job, i).Failed?;
    return Some(seq(|items|, i requires 0 <= i < |items| && results[i].Some?
           && results[i].value.Value? => results[i].value.value));
  }

  /** runInBatches: one result per item in order, a failed one included; never throws. */
  method RunInBatches<T, R>(items: seq<T>, worker: (T, nat) -> Outcome<R>,
                            concurrency: int) returns (results: seq<Option<Outcome<R>>>)
    ensures |results| == |items|
    ensures (forall i :: 0 <= i < |items| ==> results[i] == Some(worker(items[i], i)))
            <==> concurrency >= 1 || items == []
  {
    var job := Job(items, worker, true);
    var threw;
    results, threw := RunPool(job, BatchLanes(concurrency, |items|));
    assert concurrency >= 1 || items == [] ==> forall i :: 0 <= i < |items| ==> results[i] == Some(Outcomes(job, i));
    assert concurrency < 1 && items != [] ==> results[0] == None;
  }
}
