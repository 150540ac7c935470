// src/attendance/attendance.service.ts:4141-4163, 4184-4206, 4466-4496: a withdrawal and a review write the day first
// and the history afterwards. Between the two writes anything may happen, here to any number of days at once.
module RegularizationRaces {
  import opened Prelude
  import opened Regularization

  type OpId = nat

  /** A decision written to its day and not yet to the history. */
  datatype Closing = Closing(key: Key, decision: RequestStatus)

  datatype RaceState = RaceState(desk: State, open: map<OpId, Closing>)

  datatype RaceStep =
    | Ask(key: Key, isAdmin: bool)
    | DayWrite(op: OpId, key: Key, decision: RequestStatus)
    | HistoryWrite(op: OpId)

  function DayAfter(decision: RequestStatus): DayStatus {
    match decision
    case APPROVED => Approved
    case REJECTED => Rejected
    case _ => NoRequest
  }

  predicate RaceEnabled(s: RaceState, step: RaceStep) {
    match step
    case Ask(_, _) => true
    case DayWrite(op, _, decision) => op !in s.open && decision != PENDING
    case HistoryWrite(op) => op in s.open
  }

  function RaceNext(limits: Limits, s: RaceState, step: RaceStep): RaceState
    requires RaceEnabled(s, step)
  {
    match step
    case Ask(k, isAdmin) => s.(desk := Next(limits, s.desk, Submit(k, isAdmin)))
    case DayWrite(op, k, decision) =>
      if StatusOf(s.desk, k) != Pending then s
      else RaceState(s.desk.(days := s.desk.days[k := DayAfter(decision)]), s.open[op := Closing(k, decision)])
    case HistoryWrite(op) =>
      var c := s.open[op];
      RaceState(s.desk.(history := Close(s.desk.history, c.key, c.decision)), s.open - {op})
  }

  ghost predicate RaceRun(limits: Limits, states: seq<RaceState>, steps: seq<RaceStep>) {
    && |states| == |steps| + 1
    && forall i :: 0 <= i < |steps| ==>
         RaceEnabled(states[i], steps[i]) && states[i + 1] == RaceNext(limits, states[i], steps[i])
  }

  /** Without a step in between, the two writes are the one step of the workflow. */
  lemma TwoWritesAreOneStep(limits: Limits, s: RaceState, op: OpId, k: Key, approve: bool)
    requires op !in s.open && StatusOf(s.desk, k) == Pending
    ensures var decision := if approve then APPROVED else REJECTED;
            RaceNext(limits, RaceNext(limits, s, DayWrite(op, k, decision)), HistoryWrite(op))
            == s.(desk := Next(limits, s.desk, Review(k, approve)))
    ensures RaceNext(limits, RaceNext(limits, s, DayWrite(op, k, CANCELLED)), HistoryWrite(op))
         == s.(desk := Next(limits, s.desk, Withdraw(k)))
  {
    var c := Closing(k, if approve then APPROVED else REJECTED);
    assert s.open[op := c] - {op} == s.open && s.open[op := Closing(k, CANCELLED)] - {op} == s.open;
  }

  // ---- Which requests the second write closes ----

  lemma {:induction false} CloseAt(h: seq<Request>, k: Key, decision: RequestStatus, q: nat)
    requires q < |h|
    ensures Close(h, k, decision)[q] == if PendingOf(k)(h[q]) then h[q].(status := decision) else h[q]
  {
    if q < |h| - 1 {
      CloseAt(h[..|h| - 1], k, decision, q);
    }
  }

  ghost predicate IsOpenFor(s: RaceState, op: OpId, k: Key) {
    op in s.open && s.open[op].key == k
  }

  /** Request `p` is the only one pending for the day. */
  ghost predicate OnlyPending(s: RaceState, k: Key, p: nat) {
    && p < |s.desk.history|
    && forall q :: 0 <= q < |s.desk.history| ==> (PendingOf(k)(s.desk.history[q]) <==> q == p)
  }

  /** The first write of `op`: the day waits with one request, `p`, and nobody else is half way with it. */
  ghost predicate FirstWrite(s: RaceState, step: RaceStep, op: OpId, k: Key, p: nat) {
    && step.DayWrite? && step.op == op && step.key == k && StatusOf(s.desk, k) == Pending && OnlyPending(s, k, p)
    && forall other :: !IsOpenFor(s, other, k)
  }

  /** The two writes of `op` are steps `i` and `j`. */
  ghost predicate TwoWrites(limits: Limits, states: seq<RaceState>, steps: seq<RaceStep>, i: nat, j: nat, op: OpId,
                            k: Key, p: nat) {
    && RaceRun(limits, states, steps) && i < j < |steps|
    && FirstWrite(states[i], steps[i], op, k, p) && RaceEnabled(states[i], steps[i])
    && steps[j] == HistoryWrite(op) && forall m :: i < m <= j ==> op in states[m].open
  }

  ghost predicate EmployeeAsks(limits: Limits, s: RaceState, step: RaceStep, k: Key) {
    step == Ask(k, false) && RequestAnswer(limits, s.desk, k, false) == Accepted
  }

  ghost predicate AsksBetween(limits: Limits, states: seq<RaceState>, steps: seq<RaceStep>, i: nat, j: nat, k: Key)
    requires j <= |steps| && |states| == |steps| + 1
  {
    exists m :: i < m < j && EmployeeAsks(limits, states[m], steps[m], k)
  }

  /** The write changes request `p` and no other. */
  ghost predicate ChangesOnly(before: seq<Request>, after: seq<Request>, p: nat) {
    && |before| == |after|
    && forall q :: 0 <= q < |before| ==> (after[q] != before[q] <==> q == p)
  }

  // While nobody asks, the day stays closed and `p` its only pending request.
  ghost predicate HalfWay(s: RaceState, op: OpId, k: Key, p: nat) {
    && OnlyPending(s, k, p) && StatusOf(s.desk, k) != Pending
    && forall other :: IsOpenFor(s, other, k) <==> other == op
  }

  lemma HalfWayStep(limits: Limits, s: RaceState, step: RaceStep, op: OpId, k: Key, p: nat)
    requires RaceEnabled(s, step) && HalfWay(s, op, k, p) && step != HistoryWrite(op)
             && !EmployeeAsks(limits, s, step, k)
    ensures HalfWay(RaceNext(limits, s, step), op, k, p)
  {
    var t := RaceNext(limits, s, step);
    if step.HistoryWrite? {
      var c := s.open[step.op];
      assert !IsOpenFor(s, step.op, k);
      forall q | 0 <= q < |s.desk.history|
        ensures PendingOf(k)(t.desk.history[q]) <==> PendingOf(k)(s.desk.history[q])
      {
        CloseAt(s.desk.history, c.key, c.decision, q);
      }
    }
    assert forall other :: IsOpenFor(t, other, k) ==> IsOpenFor(s, other, k);
    assert IsOpenFor(s, op, k);
  }

  lemma {:induction false} HalfWayUntil(
      limits: Limits, states: seq<RaceState>, steps: seq<RaceStep>, i: nat, j: nat, op: OpId, k: Key, p: nat, m: nat)
    requires TwoWrites(limits, states, steps, i, j, op, k, p) && i < m <= j
             && !AsksBetween(limits, states, steps, i, j, k)
    ensures HalfWay(states[m], op, k, p)
  {
    if m == i + 1 {
      assert forall other :: IsOpenFor(states[m], other, k) ==> other == op || IsOpenFor(states[i], other, k);
      assert IsOpenFor(states[m], op, k);
    } else {
      HalfWayUntil(limits, states, steps, i, j, op, k, p, m - 1);
      assert op in states[m].open;
      HalfWayStep(limits, states[m - 1], steps[m - 1], op, k, p);
    }
  }

  // Once somebody asked, `p` is pending only together with the newer request `q`.
  ghost predicate Together(s: RaceState, k: Key, p: nat, q: nat) {
    && p < q < |s.desk.history| && s.desk.history[p].key == k && s.desk.history[q].key == k
    && (PendingOf(k)(s.desk.history[p]) ==> PendingOf(k)(s.desk.history[q]))
  }

  lemma TogetherStep(limits: Limits, s: RaceState, step: RaceStep, k: Key, p: nat, q: nat)
    requires RaceEnabled(s, step) && Together(s, k, p, q)
    ensures Together(RaceNext(limits, s, step), k, p, q)
  {
    if step.HistoryWrite? {
      CloseAt(s.desk.history, s.open[step.op].key, s.open[step.op].decision, p);
      CloseAt(s.desk.history, s.open[step.op].key, s.open[step.op].decision, q);
    }
  }

  ghost predicate Listed(s: RaceState, k: Key, p: nat) {
    p < |s.desk.history| && s.desk.history[p].key == k
  }

  lemma ListedStep(limits: Limits, s: RaceState, step: RaceStep, k: Key, p: nat)
    requires RaceEnabled(s, step) && Listed(s, k, p)
    ensures Listed(RaceNext(limits, s, step), k, p)
  {
    if step.HistoryWrite? {
      CloseAt(s.desk.history, s.open[step.op].key, s.open[step.op].decision, p);
    }
  }

  lemma {:induction false} ListedFrom(limits: Limits, states: seq<RaceState>, steps: seq<RaceStep>, i: nat, m: nat,
                                      k: Key, p: nat)
    requires RaceRun(limits, states, steps) && i <= m < |states| && Listed(states[i], k, p)
    ensures Listed(states[m], k, p)
  {
    if i < m {
      ListedFrom(limits, states, steps, i, m - 1, k, p);
      ListedStep(limits, states[m - 1], steps[m - 1], k, p);
    }
  }

  lemma {:induction false} TogetherFrom(
      limits: Limits, states: seq<RaceState>, steps: seq<RaceStep>, i: nat, m: nat, k: Key, p: nat, q: nat)
    requires RaceRun(limits, states, steps) && i <= m < |states| && Together(states[i], k, p, q)
    ensures Together(states[m], k, p, q)
  {
    if i < m {
      TogetherFrom(limits, states, steps, i, m - 1, k, p, q);
      TogetherStep(limits, states[m - 1], steps[m - 1], k, p, q);
    }
  }

  /**
   * Exactly when the second write of a withdrawal or a review closes the request it was for and no other, whatever
   * comes between the two: when no new request of that day by its employee is accepted in between.
   */
  lemma SecondWriteClosesItsOwnIff(
      limits: Limits, states: seq<RaceState>, steps: seq<RaceStep>, i: nat, j: nat, op: OpId, k: Key, p: nat)
    requires TwoWrites(limits, states, steps, i, j, op, k, p)
    ensures ChangesOnly(states[j].desk.history, states[j + 1].desk.history, p)
            <==> !AsksBetween(limits, states, steps, i, j, k)
  {
    var h := states[j].desk.history;
    OpKeepsItsDecision(limits, states, steps, i, j, op, k, p, j);
    var decision := states[j].open[op].decision;
    forall q | 0 <= q < |h|
      ensures states[j + 1].desk.history[q] != h[q] <==> PendingOf(k)(h[q])
    {
      CloseAt(h, k, decision, q);
    }
    if AsksBetween(limits, states, steps, i, j, k) {
      var m :| i < m < j && EmployeeAsks(limits, states[m], steps[m], k);
      var q := |states[m].desk.history|;
      ListedFrom(limits, states, steps, i, m, k, p);
      assert Together(states[m + 1], k, p, q);
      TogetherFrom(limits, states, steps, m + 1, j, k, p, q);
    } else {
      HalfWayUntil(limits, states, steps, i, j, op, k, p, j);
    }
  }

  lemma {:induction false} OpKeepsItsDecision(
      limits: Limits, states: seq<RaceState>, steps: seq<RaceStep>, i: nat, j: nat, op: OpId, k: Key, p: nat, m: nat)
    requires TwoWrites(limits, states, steps, i, j, op, k, p) && i < m <= j
    ensures op in states[m].open && states[m].open[op] == Closing(k, steps[i].decision) && steps[i].decision != PENDING
  {
    if m > i + 1 {
      OpKeepsItsDecision(limits, states, steps, i, j, op, k, p, m - 1);
      assert op in states[m].open;
    }
  }

  // ---- The same on any day, however often it is crossed ----

  ghost predicate SoundOpen(s: RaceState) {
    forall op :: op in s.open ==> s.open[op].decision != PENDING
  }

  ghost predicate PendingAt(s: RaceState, k: Key, q: nat) {
    q < |s.desk.history| && PendingOf(k)(s.desk.history[q])
  }

  /** The step is some decision's second write for the day. */
  ghost predicate ClosesDay(s: RaceState, step: RaceStep, k: Key) {
    step.HistoryWrite? && IsOpenFor(s, step.op, k)
  }

  ghost predicate ClosedBetween(states: seq<RaceState>, steps: seq<RaceStep>, a: nat, b: nat, k: Key)
    requires b <= |steps| && |states| == |steps| + 1
  {
    exists m :: a <= m < b && ClosesDay(states[m], steps[m], k)
  }

  /** Request `q` was accepted at step `m` and not closed before `b`. */
  ghost predicate AskedAt(limits: Limits, states: seq<RaceState>, steps: seq<RaceStep>, m: nat, b: nat, k: Key, q: nat)
    requires m < b <= |steps| && |states| == |steps| + 1
  {
    && EmployeeAsks(limits, states[m], steps[m], k) && q == |states[m].desk.history|
    && !ClosedBetween(states, steps, m + 1, b, k)
  }

  ghost predicate AskedSince(limits: Limits, states: seq<RaceState>, steps: seq<RaceStep>, a: nat, b: nat, k: Key,
                             q: nat)
    requires b <= |steps| && |states| == |steps| + 1
  {
    exists m :: a <= m < b && AskedAt(limits, states, steps, m, b, k, q)
  }

  lemma PendingStep(limits: Limits, s: RaceState, step: RaceStep, k: Key, q: nat)
    requires RaceEnabled(s, step) && SoundOpen(s)
    ensures SoundOpen(RaceNext(limits, s, step))
    ensures PendingAt(RaceNext(limits, s, step), k, q)
       <==> || (PendingAt(s, k, q) && !ClosesDay(s, step, k))
            || (EmployeeAsks(limits, s, step, k) && q == |s.desk.history|)
  {
    if step.HistoryWrite? && q < |s.desk.history| {
      CloseAt(s.desk.history, s.open[step.op].key, s.open[step.op].decision, q);
    }
  }

  lemma AskedOneMore(
      limits: Limits, states: seq<RaceState>, steps: seq<RaceStep>, a: nat, b: nat, k: Key, q: nat)
    requires a <= b < |steps| && |states| == |steps| + 1
    ensures AskedSince(limits, states, steps, a, b + 1, k, q)
       <==> || (AskedSince(limits, states, steps, a, b, k, q) && !ClosesDay(states[b], steps[b], k))
            || (EmployeeAsks(limits, states[b], steps[b], k) && q == |states[b].desk.history|)
  {
    if AskedSince(limits, states, steps, a, b, k, q) && !ClosesDay(states[b], steps[b], k) {
      var m :| a <= m < b && AskedAt(limits, states, steps, m, b, k, q);
      assert AskedAt(limits, states, steps, m, b + 1, k, q);
    }
    if EmployeeAsks(limits, states[b], steps[b], k) && q == |states[b].desk.history| {
      assert AskedAt(limits, states, steps, b, b + 1, k, q);
    }
    if AskedSince(limits, states, steps, a, b + 1, k, q) {
      var m :| a <= m < b + 1 && AskedAt(limits, states, steps, m, b + 1, k, q);
      if m < b {
        assert AskedAt(limits, states, steps, m, b, k, q);
      }
    }
  }

  /** What is pending for a day: what was pending before, or was accepted since, and nobody closed the day after it. */
  lemma {:induction false} PendingSince(
      limits: Limits, states: seq<RaceState>, steps: seq<RaceStep>, a: nat, b: nat, k: Key, q: nat)
    requires RaceRun(limits, states, steps) && a <= b < |states| && SoundOpen(states[a])
    ensures SoundOpen(states[b])
    ensures PendingAt(states[b], k, q)
       <==> || (PendingAt(states[a], k, q) && !ClosedBetween(states, steps, a, b, k))
            || AskedSince(limits, states, steps, a, b, k, q)
  {
    if a < b {
      PendingSince(limits, states, steps, a, b - 1, k, q);
      PendingStep(limits, states[b - 1], steps[b - 1], k, q);
      AskedOneMore(limits, states, steps, a, b - 1, k, q);
      ClosedOneMore(states, steps, a, b - 1, k);
    }
  }

  lemma ClosedOneMore(states: seq<RaceState>, steps: seq<RaceStep>, a: nat, b: nat, k: Key)
    requires a <= b < |steps| && |states| == |steps| + 1
    ensures ClosedBetween(states, steps, a, b + 1, k)
            <==> ClosedBetween(states, steps, a, b, k) || ClosesDay(states[b], steps[b], k)
  {
  }

  /** The two writes of `op`, on a day in whatever state earlier crossings left it. */
  ghost predicate Decides(
      limits: Limits, states: seq<RaceState>, steps: seq<RaceStep>, i: nat, j: nat, op: OpId, k: Key) {
    && RaceRun(limits, states, steps) && i < j < |steps| && SoundOpen(states[i])
    && steps[i].DayWrite? && steps[i].op == op && steps[i].key == k && StatusOf(states[i].desk, k) == Pending
    && steps[j] == HistoryWrite(op) && forall m :: i < m <= j ==> op in states[m].open
  }

  lemma {:induction false} DecisionStays(
      limits: Limits, states: seq<RaceState>, steps: seq<RaceStep>, i: nat, j: nat, op: OpId, k: Key, m: nat)
    requires Decides(limits, states, steps, i, j, op, k) && i < m <= j
    ensures op in states[m].open && states[m].open[op] == Closing(k, steps[i].decision) && steps[i].decision != PENDING
  {
    if m > i + 1 {
      DecisionStays(limits, states, steps, i, j, op, k, m - 1);
      assert op in states[m].open;
    }
  }

  /**
   * Which requests a second write closes, with no hypothesis on the day: each that was pending at the first write or
   * was accepted between the two, unless another decision's second write for the day came after it.
   */
  lemma SecondWriteClosesExactly(
      limits: Limits, states: seq<RaceState>, steps: seq<RaceStep>, i: nat, j: nat, op: OpId, k: Key, q: nat)
    requires Decides(limits, states, steps, i, j, op, k) && q < |states[j].desk.history|
    ensures q < |states[j + 1].desk.history|
    ensures states[j + 1].desk.history[q] != states[j].desk.history[q]
       <==> || (PendingAt(states[i], k, q) && !ClosedBetween(states, steps, i, j, k))
            || AskedSince(limits, states, steps, i, j, k, q)
  {
    DecisionStays(limits, states, steps, i, j, op, k, j);
    CloseAt(states[j].desk.history, k, steps[i].decision, q);
    PendingSince(limits, states, steps, i, j, k, q);
  }

  lemma {:induction false} HistoryGrows(limits: Limits, states: seq<RaceState>, steps: seq<RaceStep>, a: nat, b: nat)
    requires RaceRun(limits, states, steps) && a <= b < |states|
    ensures |states[a].desk.history| <= |states[b].desk.history|
  {
    if a < b {
      HistoryGrows(limits, states, steps, a, b - 1);
    }
  }

  ghost predicate ChangesPendingOf(s: RaceState, before: seq<Request>, after: seq<Request>, k: Key) {
    && |before| == |after|
    && forall q :: 0 <= q < |before| ==> (after[q] != before[q] <==> PendingAt(s, k, q))
  }

  /**
   * So on any day with a request pending at the first write, the second closes the requests pending then and no other
   * exactly when no new request of the day is accepted, and no other decision on it written, in between.
   */
  lemma SecondWriteOnAnyDayIff(
      limits: Limits, states: seq<RaceState>, steps: seq<RaceStep>, i: nat, j: nat, op: OpId, k: Key, p: nat)
    requires Decides(limits, states, steps, i, j, op, k) && PendingAt(states[i], k, p)
    ensures ChangesPendingOf(states[i], states[j].desk.history, states[j + 1].desk.history, k)
       <==> !AsksBetween(limits, states, steps, i, j, k) && !ClosedBetween(states, steps, i, j, k)
  {
    HistoryGrows(limits, states, steps, i, j);
    ChangedOnAnyDay(limits, states, steps, i, j, op, k);
    NewerThanFirstWrite(limits, states, steps, i, j, k);
    assert !AskedSince(limits, states, steps, i, j, k, p);
    if AsksBetween(limits, states, steps, i, j, k) && !ClosedBetween(states, steps, i, j, k) {
      var q := NewRequestIsChanged(limits, states, steps, i, j, k);
    }
  }

  lemma ChangedOnAnyDay(
      limits: Limits, states: seq<RaceState>, steps: seq<RaceStep>, i: nat, j: nat, op: OpId, k: Key)
    requires Decides(limits, states, steps, i, j, op, k)
    ensures |states[j + 1].desk.history| == |states[j].desk.history|
    ensures forall q :: 0 <= q < |states[j].desk.history| ==>
              (states[j + 1].desk.history[q] != states[j].desk.history[q]
               <==> || (PendingAt(states[i], k, q) && !ClosedBetween(states, steps, i, j, k))
                    || AskedSince(limits, states, steps, i, j, k, q))
  {
    forall q | 0 <= q < |states[j].desk.history|
      ensures q < |states[j + 1].desk.history|
      ensures states[j + 1].desk.history[q] != states[j].desk.history[q]
         <==> || (PendingAt(states[i], k, q) && !ClosedBetween(states, steps, i, j, k))
              || AskedSince(limits, states, steps, i, j, k, q)
    {
      SecondWriteClosesExactly(limits, states, steps, i, j, op, k, q);
    }
  }

  lemma NewRequestIsChanged(
      limits: Limits, states: seq<RaceState>, steps: seq<RaceStep>, i: nat, j: nat, k: Key) returns (q: nat)
    requires RaceRun(limits, states, steps) && i < j < |steps|
    requires AsksBetween(limits, states, steps, i, j, k) && !ClosedBetween(states, steps, i, j, k)
    ensures q < |states[j].desk.history| && !PendingAt(states[i], k, q) && AskedSince(limits, states, steps, i, j, k, q)
  {
    var m :| i < m < j && EmployeeAsks(limits, states[m], steps[m], k);
    q := |states[m].desk.history|;
    assert AskedAt(limits, states, steps, m, j, k, q);
    HistoryGrows(limits, states, steps, i, m);
    HistoryGrows(limits, states, steps, m + 1, j);
  }

  lemma NewerThanFirstWrite(limits: Limits, states: seq<RaceState>, steps: seq<RaceStep>, i: nat, j: nat, k: Key)
    requires RaceRun(limits, states, steps) && i < j < |steps| && steps[i].DayWrite?
    ensures forall q: nat :: AskedSince(limits, states, steps, i, j, k, q) ==>
              AsksBetween(limits, states, steps, i, j, k) && |states[i].desk.history| <= q
  {
    forall q: nat | AskedSince(limits, states, steps, i, j, k, q)
      ensures AsksBetween(limits, states, steps, i, j, k) && |states[i].desk.history| <= q
    {
      var m :| i <= m < j && AskedAt(limits, states, steps, m, j, k, q);
      HistoryGrows(limits, states, steps, i, m);
      assert i < m && EmployeeAsks(limits, states[m], steps[m], k);
    }
  }

  // ---- The caps while writes are under way ----

  /** A day half way through a decision: not pending any more, its history still one request behind. */
  ghost predicate DayHalfWay(s: State, k: Key, decision: RequestStatus) {
    && StatusOf(s, k) == DayAfter(decision) && decision != PENDING
    && Count(s.history, PendingOf(k)) == 1
    && Count(s.history, LiveOf(k)) == Count(s.history, RejectedOf(k)) + 1
  }

  ghost predicate DayFollows(s: RaceState, k: Key) {
    && (forall a, b :: IsOpenFor(s, a, k) && IsOpenFor(s, b, k) ==> a == b)
    && (forall a :: IsOpenFor(s, a, k) ==> DayHalfWay(s.desk, k, s.open[a].decision))
    && ((forall a :: !IsOpenFor(s, a, k)) ==> DayMatchesHistory(s.desk, k))
  }

  ghost predicate IsOpen(s: RaceState, k: Key) {
    exists a :: IsOpenFor(s, a, k)
  }

  ghost predicate RaceInv(limits: Limits, admins: set<EmployeeId>, s: RaceState) {
    forall k :: KeyInv(limits, admins, s, k)
  }

  ghost predicate KeyInv(limits: Limits, admins: set<EmployeeId>, s: RaceState, k: Key) {
    && DayFollows(s, k)
    && (k.employee in admins ==> StatusOf(s.desk, k) != Pending && !IsOpen(s, k))
    && (k.employee !in admins ==> WithinCaps(limits, s.desk, k))
  }

  ghost predicate RightRoles(admins: set<EmployeeId>, step: RaceStep) {
    step.Ask? ==> (step.isAdmin <==> step.key.employee in admins)
  }

  /** An employee's new request for a day whose last decision has not reached the history. */
  ghost predicate Crosses(limits: Limits, s: RaceState, step: RaceStep) {
    step.Ask? && EmployeeAsks(limits, s, step, step.key) && IsOpen(s, step.key)
  }

  ghost predicate SameCounts(h: seq<Request>, g: seq<Request>, q: Key) {
    && Count(g, PendingOf(q)) == Count(h, PendingOf(q))
    && Count(g, LiveOf(q)) == Count(h, LiveOf(q))
    && Count(g, RejectedOf(q)) == Count(h, RejectedOf(q))
  }

  lemma CountElsewhere(h: seq<Request>, r: Request, q: Key)
    requires r.key != q
    ensures SameCounts(h, h + [r], q)
  {
    CountSnoc(h, r, PendingOf(q));
    CountSnoc(h, r, LiveOf(q));
    CountSnoc(h, r, RejectedOf(q));
  }

  // A day follows its history still when nothing that matters to it changed.
  lemma FollowsFrame(s: RaceState, t: RaceState, q: Key)
    requires DayFollows(s, q) && SameCounts(s.desk.history, t.desk.history, q)
             && StatusOf(t.desk, q) == StatusOf(s.desk, q)
    requires forall a :: IsOpenFor(t, a, q) <==> IsOpenFor(s, a, q)
    requires forall a :: IsOpenFor(s, a, q) ==> a in t.open && t.open[a] == s.open[a]
    ensures DayFollows(t, q)
  {
  }

  lemma AskKeepsDay(limits: Limits, s: RaceState, k: Key, isAdmin: bool, q: Key)
    requires DayFollows(s, q) && (q == k && RequestAnswer(limits, s.desk, k, isAdmin) == Accepted ==> !IsOpen(s, k))
    ensures DayFollows(RaceNext(limits, s, Ask(k, isAdmin)), q)
  {
    if RequestAnswer(limits, s.desk, k, isAdmin) == Accepted {
      var r := Request(k, if isAdmin then APPROVED else PENDING);
      var t := RaceState(State(s.desk.days[k := if isAdmin then Approved else Pending], s.desk.history + [r]), s.open);
      if q != k {
        CountElsewhere(s.desk.history, r, q);
        FollowsFrame(s, t, q);
      } else {
        AppendKeepsDay(s.desk, r, q);
        assert forall a :: !IsOpenFor(s, a, q);
        assert forall a :: !IsOpenFor(t, a, q);
      }
    }
  }

  lemma AskKeepsCaps(limits: Limits, admins: set<EmployeeId>, s: RaceState, k: Key, isAdmin: bool, q: Key)
    requires RaceInv(limits, admins, s) && (isAdmin <==> k.employee in admins) && q.employee !in admins
    requires !Crosses(limits, s, Ask(k, isAdmin))
    ensures WithinCaps(limits, RaceNext(limits, s, Ask(k, isAdmin)).desk, q)
  {
    assert KeyInv(limits, admins, s, q) && KeyInv(limits, admins, s, k);
    if RequestAnswer(limits, s.desk, k, isAdmin) == Accepted {
      var days := s.desk.days[k := if isAdmin then Approved else Pending];
      if isAdmin {
        AdminAppendKeepsCaps(limits, s.desk, days, Request(k, APPROVED), q);
      } else {
        AppendKeepsCaps(limits, s.desk, days, k, q);
      }
    }
  }

  lemma AskKeeps(limits: Limits, admins: set<EmployeeId>, s: RaceState, k: Key, isAdmin: bool, q: Key)
    requires RaceInv(limits, admins, s) && (isAdmin <==> k.employee in admins)
    requires !Crosses(limits, s, Ask(k, isAdmin))
    ensures KeyInv(limits, admins, RaceNext(limits, s, Ask(k, isAdmin)), q)
  {
    assert KeyInv(limits, admins, s, q) && KeyInv(limits, admins, s, k);
    var t := RaceNext(limits, s, Ask(k, isAdmin));
    AskKeepsDay(limits, s, k, isAdmin, q);
    if q.employee !in admins {
      AskKeepsCaps(limits, admins, s, k, isAdmin, q);
    } else {
      assert forall a :: IsOpenFor(t, a, q) ==> IsOpenFor(s, a, q);
    }
  }

  lemma DayWriteKeeps(limits: Limits, admins: set<EmployeeId>, s: RaceState, op: OpId, k: Key,
                      decision: RequestStatus, q: Key)
    requires RaceInv(limits, admins, s) && RaceEnabled(s, DayWrite(op, k, decision))
    ensures KeyInv(limits, admins, RaceNext(limits, s, DayWrite(op, k, decision)), q)
  {
    assert KeyInv(limits, admins, s, q) && KeyInv(limits, admins, s, k);
    var t := RaceNext(limits, s, DayWrite(op, k, decision));
    assert forall a :: IsOpenFor(t, a, q) ==> IsOpenFor(s, a, q) || (a == op && q == k);
    assert forall a :: IsOpenFor(s, a, q) ==> IsOpenFor(t, a, q);
    if q == k && StatusOf(s.desk, k) == Pending {
      assert forall a :: !IsOpenFor(s, a, k);
      assert IsOpenFor(t, op, k);
    }
  }

  lemma HistoryWriteKeepsCaps(limits: Limits, s: State, c: Closing, q: Key)
    requires WithinCaps(limits, s, q) && c.decision != PENDING
    ensures WithinCaps(limits, s.(history := Close(s.history, c.key, c.decision)), q)
  {
    CloseCounts(s.history, c.key, c.decision, q);
    CloseUsed(s.history, c.key, c.decision, q.employee, q.date.month);
  }

  lemma ClosedDayMatches(s: State, k: Key, decision: RequestStatus)
    requires DayHalfWay(s, k, decision)
    ensures DayMatchesHistory(s.(history := Close(s.history, k, decision)), k)
  {
    CloseCounts(s.history, k, decision, k);
  }

  lemma CloseElsewhere(h: seq<Request>, c: Closing, q: Key)
    requires c.key != q && c.decision != PENDING
    ensures SameCounts(h, Close(h, c.key, c.decision), q)
  {
    CloseCounts(h, c.key, c.decision, q);
  }

  lemma HistoryWriteKeepsDay(s: RaceState, op: OpId, q: Key)
    requires op in s.open && DayFollows(s, q) && DayFollows(s, s.open[op].key)
    ensures var c := s.open[op];
            DayFollows(RaceState(s.desk.(history := Close(s.desk.history, c.key, c.decision)), s.open - {op}), q)
  {
    var c := s.open[op];
    var t := RaceState(s.desk.(history := Close(s.desk.history, c.key, c.decision)), s.open - {op});
    assert IsOpenFor(s, op, c.key);
    if q == c.key {
      ClosedDayMatches(s.desk, q, c.decision);
      forall a
        ensures !IsOpenFor(t, a, q)
      {
        assert IsOpenFor(t, a, q) ==> IsOpenFor(s, a, q);
      }
    } else {
      CloseElsewhere(s.desk.history, c, q);
      FollowsFrame(s, t, q);
    }
  }

  lemma HistoryWriteKeeps(limits: Limits, admins: set<EmployeeId>, s: RaceState, op: OpId, q: Key)
    requires RaceInv(limits, admins, s) && op in s.open
    ensures KeyInv(limits, admins, RaceNext(limits, s, HistoryWrite(op)), q)
  {
    var c := s.open[op];
    assert KeyInv(limits, admins, s, q) && KeyInv(limits, admins, s, c.key);
    assert IsOpenFor(s, op, c.key);
    HistoryWriteKeepsDay(s, op, q);
    var t := RaceNext(limits, s, HistoryWrite(op));
    assert forall a :: IsOpenFor(t, a, q) ==> IsOpenFor(s, a, q);
    if q.employee !in admins {
      HistoryWriteKeepsCaps(limits, s.desk, c, q);
    }
  }

  lemma RaceStepKeeps(limits: Limits, admins: set<EmployeeId>, s: RaceState, step: RaceStep)
    requires RaceInv(limits, admins, s) && RaceEnabled(s, step) && RightRoles(admins, step) && !Crosses(limits, s, step)
    ensures RaceInv(limits, admins, RaceNext(limits, s, step))
  {
    var t := RaceNext(limits, s, step);
    forall q
      ensures KeyInv(limits, admins, t, q)
    {
      match step {
        case Ask(k, isAdmin) => AskKeeps(limits, admins, s, k, isAdmin, q);
        case DayWrite(op, k, decision) => DayWriteKeeps(limits, admins, s, op, k, decision, q);
        case HistoryWrite(op) => HistoryWriteKeeps(limits, admins, s, op, q);
      }
    }
  }

  /**
   * Over every run in which no employee's request for a day is accepted while a decision on that day is half written,
   * every day matches its history as if the two writes were one, and both caps hold. What the caps do without this
   * hypothesis follows below.
   */
  lemma {:induction false} CapsHoldUnlessCrossed(
      limits: Limits, admins: set<EmployeeId>, states: seq<RaceState>, steps: seq<RaceStep>, i: nat)
    requires RaceRun(limits, states, steps) && i < |states| && states[0] == RaceState(State(map[], []), map[])
    requires forall m :: 0 <= m < i ==> RightRoles(admins, steps[m]) && !Crosses(limits, states[m], steps[m])
    ensures RaceInv(limits, admins, states[i])
  {
    if i > 0 {
      CapsHoldUnlessCrossed(limits, admins, states, steps, i - 1);
      RaceStepKeeps(limits, admins, states[i - 1], steps[i - 1]);
    }
  }

  // ---- What a request in the gap gets ----

  ghost function DayWritten(s: State, k: Key, decision: RequestStatus): State {
    s.(days := s.days[k := DayAfter(decision)])
  }

  ghost function BothWritten(s: State, k: Key, decision: RequestStatus): State {
    State(s.days[k := DayAfter(decision)], Close(s.history, k, decision))
  }

  function ApprovedOf(k: Key): Request -> bool {
    (r: Request) => r.key == k && r.status == APPROVED
  }

  /** A request that was not withdrawn is pending, rejected or approved. */
  lemma {:induction false} LiveSplits(h: seq<Request>, k: Key)
    ensures Count(h, LiveOf(k)) == Count(h, PendingOf(k)) + Count(h, RejectedOf(k)) + Count(h, ApprovedOf(k))
  {
    if h != [] {
      LiveSplits(h[..|h| - 1], k);
    }
  }

  lemma {:induction false} CancellingFreesOne(h: seq<Request>, k: Key)
    ensures Count(Close(h, k, CANCELLED), UsedIn(k.employee, k.date.month))
         == Count(h, UsedIn(k.employee, k.date.month)) - Count(h, PendingOf(k))
  {
    if h != [] {
      CancellingFreesOne(h[..|h| - 1], k);
      var after := Close(h, k, CANCELLED);
      assert after[..|after| - 1] == Close(h[..|h| - 1], k, CANCELLED);
    }
  }

  /**
   * A request sent between the two writes of a rejection is accepted although it would be refused after both exactly
   * when the date's rejections are within the resubmit limit and the ones about to be counted take them over it, while
   * the month has room; the date then has more requests than the cap allows. However many are pending.
   */
  lemma RejectionGapPassesTheCapIff(limits: Limits, s: State, k: Key)
    requires StatusOf(s, k) == Pending
    ensures var gap, done := DayWritten(s, k, REJECTED), BothWritten(s, k, REJECTED);
            var rejected, pending := Count(s.history, RejectedOf(k)), Count(s.history, PendingOf(k));
            var used := Count(s.history, UsedIn(k.employee, k.date.month));
            RequestAnswer(limits, gap, k, false) == Accepted && RequestAnswer(limits, done, k, false) != Accepted
            <==> && limits.resubmit.Some? && rejected <= limits.resubmit.value < rejected + pending
                 && (limits.monthly.Some? ==> used < limits.monthly.value)
    ensures var gap, done := DayWritten(s, k, REJECTED), BothWritten(s, k, REJECTED);
            RequestAnswer(limits, gap, k, false) == Accepted && RequestAnswer(limits, done, k, false) != Accepted ==>
              && limits.resubmit.Some?
              && Count(Next(limits, gap, Submit(k, false)).history, LiveOf(k)) > limits.resubmit.value + 1
  {
    CloseCounts(s.history, k, REJECTED, k);
    CloseUsed(s.history, k, REJECTED, k.employee, k.date.month);
    LiveSplits(s.history, k);
    CountSnoc(s.history, Request(k, PENDING), LiveOf(k));
  }

  /**
   * And one sent between the two writes of a withdrawal is refused although it would be accepted after both exactly
   * when the withdrawn requests still take the month's last place.
   */
  lemma WithdrawalGapRefusesIff(limits: Limits, s: State, k: Key)
    requires StatusOf(s, k) == Pending
    ensures var gap, done := DayWritten(s, k, CANCELLED), BothWritten(s, k, CANCELLED);
            var rejected, pending := Count(s.history, RejectedOf(k)), Count(s.history, PendingOf(k));
            var used := Count(s.history, UsedIn(k.employee, k.date.month));
            RequestAnswer(limits, gap, k, false) != Accepted && RequestAnswer(limits, done, k, false) == Accepted
            <==> && limits.monthly.Some? && used - pending < limits.monthly.value <= used
                 && (limits.resubmit.Some? ==> rejected <= limits.resubmit.value)
  {
    CloseCounts(s.history, k, CANCELLED, k);
    CancellingFreesOne(s.history, k);
  }

  // ---- The caps over every run, crossed or not ----

  /** A run from the empty tables in which roles stay what they are. */
  ghost predicate DeskRun(
      limits: Limits, admins: set<EmployeeId>, states: seq<RaceState>, steps: seq<RaceStep>) {
    && RaceRun(limits, states, steps) && states[0] == RaceState(State(map[], []), map[])
    && forall m :: 0 <= m < |steps| ==> RightRoles(admins, steps[m])
  }

  lemma UsedStep(limits: Limits, s: RaceState, step: RaceStep, employee: EmployeeId, month: int)
    requires RaceEnabled(s, step) && SoundOpen(s) && !(step.Ask? && step.isAdmin && step.key.employee == employee)
    ensures SoundOpen(RaceNext(limits, s, step))
    ensures limits.monthly.Some? && Count(s.desk.history, UsedIn(employee, month)) <= limits.monthly.value ==>
              Count(RaceNext(limits, s, step).desk.history, UsedIn(employee, month)) <= limits.monthly.value
  {
    match step {
      case Ask(k, isAdmin) =>
        CountSnoc(s.desk.history, Request(k, if isAdmin then APPROVED else PENDING), UsedIn(employee, month));
      case DayWrite(_, _, _) =>
      case HistoryWrite(op) =>
        CloseUsed(s.desk.history, s.open[op].key, s.open[op].decision, employee, month);
    }
  }

  /** The monthly cap holds for every non-admin in every state of every run, crossed or not. */
  lemma {:induction false} MonthlyCapInEveryRun(
      limits: Limits, admins: set<EmployeeId>, states: seq<RaceState>, steps: seq<RaceStep>, i: nat,
      employee: EmployeeId, month: int)
    requires DeskRun(limits, admins, states, steps) && i < |states| && employee !in admins
    ensures SoundOpen(states[i])
    ensures limits.monthly.Some? ==> Count(states[i].desk.history, UsedIn(employee, month)) <= limits.monthly.value
  {
    if i > 0 {
      MonthlyCapInEveryRun(limits, admins, states, steps, i - 1, employee, month);
      assert RightRoles(admins, steps[i - 1]);
      UsedStep(limits, states[i - 1], steps[i - 1], employee, month);
    }
  }

  /** An approved request, or an approval half written, leaves its day approved for good. */
  ghost predicate ApprovedDay(s: RaceState, k: Key) {
    && (Count(s.desk.history, ApprovedOf(k)) > 0 ==> StatusOf(s.desk, k) == Approved)
    && forall op :: IsOpenFor(s, op, k) && s.open[op].decision == APPROVED ==> StatusOf(s.desk, k) == Approved
  }

  lemma ClosedApprovals(h: seq<Request>, k: Key, decision: RequestStatus, q: Key)
    requires decision != PENDING
    ensures Count(Close(h, k, decision), ApprovedOf(q))
         == Count(h, ApprovedOf(q)) + if decision == APPROVED && q == k then Count(h, PendingOf(k)) else 0
  {
    LiveSplits(h, q);
    LiveSplits(Close(h, k, decision), q);
    CloseCounts(h, k, decision, q);
  }

  lemma AskKeepsApproved(limits: Limits, s: RaceState, k: Key, isAdmin: bool, q: Key)
    requires ApprovedDay(s, q)
    ensures ApprovedDay(RaceNext(limits, s, Ask(k, isAdmin)), q)
  {
    if RequestAnswer(limits, s.desk, k, isAdmin) == Accepted {
      var r := Request(k, if isAdmin then APPROVED else PENDING);
      var t := RaceState(State(s.desk.days[k := if isAdmin then Approved else Pending], s.desk.history + [r]), s.open);
      CountSnoc(s.desk.history, r, ApprovedOf(q));
      assert forall op :: IsOpenFor(t, op, q) ==> IsOpenFor(s, op, q);
    }
  }

  lemma HistoryWriteKeepsApproved(limits: Limits, s: RaceState, op: OpId, q: Key)
    requires op in s.open && SoundOpen(s) && ApprovedDay(s, q)
    ensures ApprovedDay(RaceNext(limits, s, HistoryWrite(op)), q)
  {
    var t := RaceNext(limits, s, HistoryWrite(op));
    assert IsOpenFor(s, op, s.open[op].key);
    ClosedApprovals(s.desk.history, s.open[op].key, s.open[op].decision, q);
    assert forall other :: IsOpenFor(t, other, q) ==> IsOpenFor(s, other, q);
  }

  lemma ApprovedStep(limits: Limits, s: RaceState, step: RaceStep, q: Key)
    requires RaceEnabled(s, step) && SoundOpen(s) && ApprovedDay(s, q)
    ensures ApprovedDay(RaceNext(limits, s, step), q)
  {
    match step {
      case Ask(k, isAdmin) => AskKeepsApproved(limits, s, k, isAdmin, q);
      case DayWrite(op, k, _) =>
        var t := RaceNext(limits, s, step);
        assert forall other :: IsOpenFor(t, other, q) ==> IsOpenFor(s, other, q) || (other == op && q == k);
      case HistoryWrite(op) => HistoryWriteKeepsApproved(limits, s, op, q);
    }
  }

  lemma {:induction false} ApprovedDaysStay(
      limits: Limits, admins: set<EmployeeId>, states: seq<RaceState>, steps: seq<RaceStep>, i: nat, k: Key)
    requires DeskRun(limits, admins, states, steps) && i < |states|
    ensures SoundOpen(states[i]) && ApprovedDay(states[i], k)
  {
    if i > 0 {
      ApprovedDaysStay(limits, admins, states, steps, i - 1, k);
      PendingStep(limits, states[i - 1], steps[i - 1], k, 0);
      ApprovedStep(limits, states[i - 1], steps[i - 1], k);
    }
  }

  /** A new request is accepted for the date although its pending and rejected ones already exceed the limit. */
  ghost predicate Overfills(limits: Limits, s: RaceState, step: RaceStep, k: Key) {
    && EmployeeAsks(limits, s, step, k) && limits.resubmit.Some?
    && Count(s.desk.history, PendingOf(k)) + Count(s.desk.history, RejectedOf(k)) > limits.resubmit.value
  }

  ghost predicate DateWithinCap(limits: Limits, s: RaceState, k: Key) {
    limits.resubmit.Some? ==> Count(s.desk.history, LiveOf(k)) <= limits.resubmit.value + 1
  }

  lemma LiveStep(limits: Limits, s: RaceState, step: RaceStep, k: Key)
    requires RaceEnabled(s, step) && SoundOpen(s) && ApprovedDay(s, k) && step != Ask(k, true)
    ensures DateWithinCap(limits, s, k) ==>
              (DateWithinCap(limits, RaceNext(limits, s, step), k) <==> !Overfills(limits, s, step, k))
    ensures Overfills(limits, s, step, k) ==> !DateWithinCap(limits, RaceNext(limits, s, step), k)
  {
    match step {
      case Ask(a, isAdmin) =>
        CountSnoc(s.desk.history, Request(a, if isAdmin then APPROVED else PENDING), LiveOf(k));
        LiveSplits(s.desk.history, k);
      case DayWrite(_, _, _) =>
      case HistoryWrite(op) =>
        CloseCounts(s.desk.history, s.open[op].key, s.open[op].decision, k);
    }
  }

  ghost predicate OverfillsBefore(limits: Limits, states: seq<RaceState>, steps: seq<RaceStep>, i: nat, k: Key)
    requires i <= |steps| && |states| == |steps| + 1
  {
    exists m :: 0 <= m < i && Overfills(limits, states[m], steps[m], k)
  }

  /**
   * Exactly when the resubmit cap holds, over every run, crossed or not: a date stays within the limit plus one in
   * every state if and only if no request for it is accepted while its pending and rejected requests together already
   * exceed the limit. Both are counts that can be read before the request.
   */
  lemma {:induction false} ResubmitCapInEveryRunIff(
      limits: Limits, admins: set<EmployeeId>, states: seq<RaceState>, steps: seq<RaceStep>, i: nat, k: Key)
    requires DeskRun(limits, admins, states, steps) && i < |states| && k.employee !in admins
    ensures (forall m :: 0 <= m <= i ==> DateWithinCap(limits, states[m], k))
       <==> !OverfillsBefore(limits, states, steps, i, k)
  {
    if i > 0 {
      ResubmitCapInEveryRunIff(limits, admins, states, steps, i - 1, k);
      ApprovedDaysStay(limits, admins, states, steps, i - 1, k);
      assert RightRoles(admins, steps[i - 1]);
      LiveStep(limits, states[i - 1], steps[i - 1], k);
      if forall m :: 0 <= m <= i ==> DateWithinCap(limits, states[m], k) {
        assert DateWithinCap(limits, states[i], k);
      }
      assert OverfillsBefore(limits, states, steps, i, k)
             <==> OverfillsBefore(limits, states, steps, i - 1, k) || Overfills(limits, states[i - 1], steps[i - 1], k);
    }
  }

  // ---- A run that passes the resubmit cap ----

  ghost function Piled(k: Key, n: nat): seq<Request> {
    seq(n, _ => Request(k, PENDING))
  }

  lemma {:induction false} PiledCounts(k: Key, n: nat)
    ensures Count(Piled(k, n), RejectedOf(k)) == 0 && Count(Piled(k, n), LiveOf(k)) == n
  {
    if n > 0 {
      PiledCounts(k, n - 1);
      assert Piled(k, n)[..n - 1] == Piled(k, n - 1);
    }
  }

  // With one resubmission allowed, requests nobody has closed keep being accepted.
  lemma PileGrows(s: RaceState, k: Key, n: nat)
    requires s.desk.history == Piled(k, n) && StatusOf(s.desk, k) != Pending && StatusOf(s.desk, k) != Approved
    ensures RaceNext(Limits(None, Some(1)), s, Ask(k, false))
         == RaceState(State(s.desk.days[k := Pending], Piled(k, n + 1)), s.open)
  {
    PiledCounts(k, n);
    assert Piled(k, n) + [Request(k, PENDING)] == Piled(k, n + 1);
  }

  lemma PileDecided(s: RaceState, k: Key, n: nat, op: OpId)
    requires s.desk.history == Piled(k, n) && StatusOf(s.desk, k) == Pending && op !in s.open
    ensures RaceNext(Limits(None, Some(1)), s, DayWrite(op, k, REJECTED))
         == RaceState(State(s.desk.days[k := Rejected], Piled(k, n)), s.open[op := Closing(k, REJECTED)])
  {
  }

  // `n` requests asked, all but the last decided without their second writes.
  ghost function PiledState(k: Key, n: nat, status: DayStatus, open: map<OpId, Closing>): RaceState {
    RaceState(State(map[k := status], Piled(k, n)), open)
  }

  function UncountedStep(k: Key, m: nat): RaceStep {
    if m % 2 == 0 then Ask(k, false) else DayWrite(m / 2, k, REJECTED)
  }

  ghost function UncountedState(k: Key, m: nat): RaceState {
    var c := Closing(k, REJECTED);
    match m
    case 0 => RaceState(State(map[], []), map[])
    case 1 => PiledState(k, 1, Pending, map[])
    case 2 => PiledState(k, 1, Rejected, map[0 := c])
    case 3 => PiledState(k, 2, Pending, map[0 := c])
    case 4 => PiledState(k, 2, Rejected, map[0 := c, 1 := c])
    case _ => PiledState(k, 3, Pending, map[0 := c, 1 := c])
  }

  lemma UncountedNext(k: Key, m: nat)
    requires m < 5
    ensures RaceEnabled(UncountedState(k, m), UncountedStep(k, m))
    ensures RaceNext(Limits(None, Some(1)), UncountedState(k, m), UncountedStep(k, m)) == UncountedState(k, m + 1)
  {
    var s := UncountedState(k, m);
    assert Piled(k, 0) == [];
    if m % 2 == 0 {
      PileGrows(s, k, m / 2);
      assert s.desk.days[k := Pending] == map[k := Pending];
    } else {
      PileDecided(s, k, m / 2 + 1, m / 2);
      assert s.desk.days[k := Rejected] == map[k := Rejected];
    }
  }

  /**
   * Two rejections half written at once: nothing is counted as rejected when the third request is accepted, and the
   * date has three against a cap of two.
   */
  lemma UncountedRejectionsPassTheCap(k: Key, admins: set<EmployeeId>)
    returns (states: seq<RaceState>, steps: seq<RaceStep>)
    requires k.employee !in admins
    ensures DeskRun(Limits(None, Some(1)), admins, states, steps) && |steps| == 5
    ensures steps == [Ask(k, false), DayWrite(0, k, REJECTED), Ask(k, false), DayWrite(1, k, REJECTED), Ask(k, false)]
    ensures Count(states[4].desk.history, RejectedOf(k)) == 0 && Count(states[5].desk.history, LiveOf(k)) == 3
  {
    states := seq(6, m requires 0 <= m < 6 => UncountedState(k, m));
    steps := seq(5, m requires 0 <= m < 5 => UncountedStep(k, m));
    forall m | 0 <= m < 5
      ensures RaceEnabled(states[m], steps[m])
      ensures states[m + 1] == RaceNext(Limits(None, Some(1)), states[m], steps[m])
    {
      UncountedNext(k, m);
    }
    PiledCounts(k, 2);
    PiledCounts(k, 3);
  }
}
