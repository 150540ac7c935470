// src/attendance/attendance.service.ts:3866-3909, 4021-4206, 4436-4496, 6130-6150: attendance regularization requests,
// their history rows and the caps an Admin sets. Steps are atomic; the limits stay fixed over a run.
module Regularization {
  import opened Prelude

  type EmployeeId = nat

  datatype Date = Date(month: int, day: int)

  datatype Key = Key(employee: EmployeeId, date: Date)

  /** The status inside a day's `regularization`; a day without a row has NoRequest. */
  datatype DayStatus = NoRequest | Pending | Approved | Rejected

  datatype RequestStatus = PENDING | APPROVED | REJECTED | CANCELLED

  datatype Request = Request(key: Key, status: RequestStatus)

  datatype Limits = Limits(monthly: Option<nat>, resubmit: Option<nat>)

  datatype State = State(days: map<Key, DayStatus>, history: seq<Request>)

  function StatusOf(s: State, k: Key): DayStatus {
    if k in s.days then s.days[k] else NoRequest
  }

  // ---- Counts over the history ----

  function Count(history: seq<Request>, p: Request -> bool): nat {
    if history == [] then 0
    else Count(history[..|history| - 1], p) + if p(history[|history| - 1]) then 1 else 0
  }

  function PendingOf(k: Key): Request -> bool {
    (r: Request) => r.key == k && r.status == PENDING
  }

  function RejectedOf(k: Key): Request -> bool {
    (r: Request) => r.key == k && r.status == REJECTED
  }

  function LiveOf(k: Key): Request -> bool {
    (r: Request) => r.key == k && r.status != CANCELLED
  }

  function UsedIn(employee: EmployeeId, month: int): Request -> bool {
    (r: Request) => r.key.employee == employee && r.key.date.month == month && r.status != CANCELLED
  }

  // ---- getRegularizationUsage ----

  datatype Usage = Usage(
    usedThisMonth: nat, remainingThisMonth: Option<nat>,
    rejectedForDate: nat, remainingResubmits: Option<nat>)

  function UsageOf(limits: Limits, history: seq<Request>, k: Key): Usage {
    var used := Count(history, UsedIn(k.employee, k.date.month));
    var rejected := Count(history, RejectedOf(k));
    Usage(
      used,
      if limits.monthly.None? then None else Some(Max(0, limits.monthly.value - used)),
      rejected,
      if limits.resubmit.None? then None
      else if rejected == 0 then Some(limits.resubmit.value)
      else Some(Max(0, limits.resubmit.value - rejected + 1)))
  }

  // ---- The operations ----

  datatype Answer = Accepted | AlreadyPending | AlreadyApproved | ResubmitCap | MonthlyCap | NotPending

  function RequestAnswer(limits: Limits, s: State, k: Key, isAdmin: bool): Answer {
    var usage := UsageOf(limits, s.history, k);
    match StatusOf(s, k)
    case Pending => AlreadyPending
    case Approved => AlreadyApproved
    case _ =>
      if isAdmin then Accepted
      else if limits.resubmit.Some? && usage.rejectedForDate > limits.resubmit.value then ResubmitCap
      else if limits.monthly.Some? && usage.usedThisMonth >= limits.monthly.value then MonthlyCap
      else Accepted
  }

  /** closeRegularizationRequest: every pending history row of the day takes the decision. */
  function Close(history: seq<Request>, k: Key, decision: RequestStatus): (after: seq<Request>)
    ensures |after| == |history|
  {
    if history == [] then []
    else
      var last := history[|history| - 1];
      Close(history[..|history| - 1], k, decision)
      + [if PendingOf(k)(last) then last.(status := decision) else last]
  }

  datatype Step =
    | Submit(key: Key, isAdmin: bool)
    | Withdraw(key: Key)
    | Review(key: Key, approve: bool)

  function Next(limits: Limits, s: State, step: Step): State {
    match step
    case Submit(k, isAdmin) =>
      if RequestAnswer(limits, s, k, isAdmin) != Accepted then s
      else if isAdmin then State(s.days[k := Approved], s.history + [Request(k, APPROVED)])
      else State(s.days[k := Pending], s.history + [Request(k, PENDING)])
    case Withdraw(k) =>
      if StatusOf(s, k) != Pending then s
      else State(s.days[k := NoRequest], Close(s.history, k, CANCELLED))
    case Review(k, approve) =>
      if StatusOf(s, k) != Pending then s
      else State(s.days[k := if approve then Approved else Rejected],
          Close(s.history, k, if approve then APPROVED else REJECTED))
  }

  class RegularizationDesk {
    const limits: Limits
    var days: map<Key, DayStatus>
    var history: seq<Request>

    constructor (limits: Limits)
      ensures Value() == State(map[], []) && this.limits == limits
    {
      this.limits := limits;
      days, history := map[], [];
    }

    function Value(): State
      reads this
    {
      State(days, history)
    }

    method RequestRegularization(k: Key, isAdmin: bool) returns (answer: Answer)
      modifies this
      ensures answer == RequestAnswer(limits, old(Value()), k, isAdmin)
      ensures Value() == Next(limits, old(Value()), Submit(k, isAdmin))
    {
      var status := StatusOf(Value(), k);
      if status == Pending || status == Approved {
        return if status == Pending then AlreadyPending else AlreadyApproved;
      }
      if !isAdmin {
        var usage := UsageOf(limits, history, k);
        if limits.resubmit.Some? && usage.rejectedForDate > limits.resubmit.value {
          return ResubmitCap;
        }
        if limits.monthly.Some? && usage.usedThisMonth >= limits.monthly.value {
          return MonthlyCap;
        }
      }
      days := days[k := if isAdmin then Approved else Pending];
      history := history + [Request(k, if isAdmin then APPROVED else PENDING)];
      return Accepted;
    }

    method CancelRegularization(k: Key) returns (answer: Answer)
      modifies this
      ensures answer == if StatusOf(old(Value()), k) == Pending then Accepted else NotPending
      ensures Value() == Next(limits, old(Value()), Withdraw(k))
    {
      if StatusOf(Value(), k) != Pending {
        return NotPending;
      }
      days := days[k := NoRequest];
      history := Close(history, k, CANCELLED);
      return Accepted;
    }

    /** reviewRegularization, and the sweep that approves on its own. */
    method ReviewRegularization(k: Key, approve: bool) returns (answer: Answer)
      modifies this
      ensures answer == if StatusOf(old(Value()), k) == Pending then Accepted else NotPending
      ensures Value() == Next(limits, old(Value()), Review(k, approve))
    {
      if StatusOf(Value(), k) != Pending {
        return NotPending;
      }
      days := days[k := if approve then Approved else Rejected];
      history := Close(history, k, if approve then APPROVED else REJECTED);
      return Accepted;
    }
  }

  // ---- What closing does to the counts ----

  lemma {:induction false} CloseCounts(h: seq<Request>, k: Key, decision: RequestStatus, q: Key)
    requires decision != PENDING
    ensures var after, n := Close(h, k, decision), if q == k then Count(h, PendingOf(k)) else 0;
            && Count(after, PendingOf(q)) == Count(h, PendingOf(q)) - n
            && Count(after, RejectedOf(q)) == Count(h, RejectedOf(q)) + (if decision == REJECTED then n else 0)
            && Count(after, LiveOf(q)) == Count(h, LiveOf(q)) - (if decision == CANCELLED then n else 0)
  {
    if h != [] {
      CloseCounts(h[..|h| - 1], k, decision, q);
      var after := Close(h, k, decision);
      assert after[..|after| - 1] == Close(h[..|h| - 1], k, decision);
    }
  }

  lemma {:induction false} CloseUsed(h: seq<Request>, k: Key, decision: RequestStatus, employee: EmployeeId, month: int)
    requires decision != PENDING
    ensures Count(Close(h, k, decision), UsedIn(employee, month)) <= Count(h, UsedIn(employee, month))
    ensures decision != CANCELLED ==>
              Count(Close(h, k, decision), UsedIn(employee, month)) == Count(h, UsedIn(employee, month))
  {
    if h != [] {
      CloseUsed(h[..|h| - 1], k, decision, employee, month);
      var after := Close(h, k, decision);
      assert after[..|after| - 1] == Close(h[..|h| - 1], k, decision);
    }
  }

  lemma CountSnoc(h: seq<Request>, r: Request, p: Request -> bool)
    ensures Count(h + [r], p) == Count(h, p) + if p(r) then 1 else 0
  {
  }

  // ---- The invariant ----

  /** A day's status says how many pending and how many live (not withdrawn) requests its history holds. */
  ghost predicate DayMatchesHistory(s: State, k: Key) {
    && Count(s.history, PendingOf(k)) == (if StatusOf(s, k) == Pending then 1 else 0)
    && Count(s.history, LiveOf(k))
       == Count(s.history, RejectedOf(k)) + if StatusOf(s, k) == Pending || StatusOf(s, k) == Approved then 1 else 0
  }

  ghost predicate WithinCaps(limits: Limits, s: State, k: Key) {
    && (limits.monthly.Some? ==> Count(s.history, UsedIn(k.employee, k.date.month)) <= limits.monthly.value)
    && (limits.resubmit.Some? ==> Count(s.history, LiveOf(k)) <= limits.resubmit.value + 1)
  }

  /** Roles are fixed: the steps of an admin's own requests are the ones of `admins`. */
  ghost predicate RolesRight(admins: set<EmployeeId>, step: Step) {
    step.Submit? ==> (step.isAdmin <==> step.key.employee in admins)
  }

  ghost predicate Inv(limits: Limits, admins: set<EmployeeId>, s: State) {
    forall k :: DayMatchesHistory(s, k) && (k.employee !in admins ==> WithinCaps(limits, s, k))
  }

  lemma AppendKeepsDay(s: State, r: Request, q: Key)
    requires DayMatchesHistory(s, q)
    requires StatusOf(s, r.key) == NoRequest || StatusOf(s, r.key) == Rejected
    requires r.status == PENDING || r.status == APPROVED
    ensures var status := if r.status == PENDING then Pending else Approved;
            DayMatchesHistory(State(s.days[r.key := status], s.history + [r]), q)
  {
    CountSnoc(s.history, r, PendingOf(q));
    CountSnoc(s.history, r, LiveOf(q));
    CountSnoc(s.history, r, RejectedOf(q));
  }

  lemma AppendKeepsCaps(limits: Limits, s: State, days: map<Key, DayStatus>, k: Key, q: Key)
    requires WithinCaps(limits, s, q) && (q == k ==> DayMatchesHistory(s, q))
    requires RequestAnswer(limits, s, k, false) == Accepted
    ensures WithinCaps(limits, State(days, s.history + [Request(k, PENDING)]), q)
  {
  }

  lemma AdminAppendKeepsCaps(limits: Limits, s: State, days: map<Key, DayStatus>, r: Request, q: Key)
    requires WithinCaps(limits, s, q) && r.key.employee != q.employee
    ensures WithinCaps(limits, State(days, s.history + [r]), q)
  {
  }

  lemma SubmitKeeps(limits: Limits, admins: set<EmployeeId>, s: State, k: Key, isAdmin: bool, q: Key)
    requires DayMatchesHistory(s, q) && (q.employee !in admins ==> WithinCaps(limits, s, q))
    requires isAdmin <==> k.employee in admins
    ensures var t := Next(limits, s, Submit(k, isAdmin));
            DayMatchesHistory(t, q) && (q.employee !in admins ==> WithinCaps(limits, t, q))
  {
    if RequestAnswer(limits, s, k, isAdmin) == Accepted {
      AppendKeepsDay(s, Request(k, if isAdmin then APPROVED else PENDING), q);
      if q.employee !in admins {
        var days := s.days[k := if isAdmin then Approved else Pending];
        if isAdmin {
          AdminAppendKeepsCaps(limits, s, days, Request(k, APPROVED), q);
        } else {
          AppendKeepsCaps(limits, s, days, k, q);
        }
      }
    }
  }

  lemma CloseKeepsDay(s: State, k: Key, status: DayStatus, decision: RequestStatus, q: Key)
    requires DayMatchesHistory(s, q) && DayMatchesHistory(s, k) && StatusOf(s, k) == Pending
    requires (status == NoRequest && decision == CANCELLED) || (status == Approved && decision == APPROVED)
             || (status == Rejected && decision == REJECTED)
    ensures DayMatchesHistory(State(s.days[k := status], Close(s.history, k, decision)), q)
  {
    CloseCounts(s.history, k, decision, q);
  }

  lemma CloseKeepsCaps(limits: Limits, s: State, days: map<Key, DayStatus>, k: Key, decision: RequestStatus, q: Key)
    requires WithinCaps(limits, s, q) && decision != PENDING
    ensures WithinCaps(limits, State(days, Close(s.history, k, decision)), q)
  {
    CloseCounts(s.history, k, decision, q);
    CloseUsed(s.history, k, decision, q.employee, q.date.month);
  }

  lemma CloseKeeps(limits: Limits, admins: set<EmployeeId>, s: State, step: Step, q: Key)
    requires Inv(limits, admins, s) && !step.Submit?
    ensures var t := Next(limits, s, step);
            DayMatchesHistory(t, q) && (q.employee !in admins ==> WithinCaps(limits, t, q))
  {
    var k := step.key;
    assert DayMatchesHistory(s, q) && DayMatchesHistory(s, k);
    if StatusOf(s, k) == Pending {
      var decision := if step.Withdraw? then CANCELLED else if step.approve then APPROVED else REJECTED;
      var status := if step.Withdraw? then NoRequest else if step.approve then Approved else Rejected;
      CloseKeepsDay(s, k, status, decision, q);
      if q.employee !in admins {
        CloseKeepsCaps(limits, s, s.days[k := status], k, decision, q);
      }
    }
  }

  lemma StepKeeps(limits: Limits, admins: set<EmployeeId>, s: State, step: Step)
    requires Inv(limits, admins, s) && RolesRight(admins, step)
    ensures Inv(limits, admins, Next(limits, s, step))
  {
    forall q
      ensures var t := Next(limits, s, step);
              DayMatchesHistory(t, q) && (q.employee !in admins ==> WithinCaps(limits, t, q))
    {
      match step {
        case Submit(k, isAdmin) => SubmitKeeps(limits, admins, s, k, isAdmin, q);
        case _ => CloseKeeps(limits, admins, s, step, q);
      }
    }
  }

  ghost function Run(limits: Limits, steps: seq<Step>): State {
    if steps == [] then State(map[], [])
    else Next(limits, Run(limits, steps[..|steps| - 1]), steps[|steps| - 1])
  }

  /**
   * In every reachable state: a day is pending exactly when it has one pending history row (and never more), and a
   * non-admin's requests that were not withdrawn stay within the monthly limit, those for one date within the
   * resubmit limit plus one.
   */
  lemma {:induction false} CapsHoldInEveryRun(limits: Limits, admins: set<EmployeeId>, steps: seq<Step>)
    requires forall i :: 0 <= i < |steps| ==> RolesRight(admins, steps[i])
    ensures Inv(limits, admins, Run(limits, steps))
  {
    if steps != [] {
      CapsHoldInEveryRun(limits, admins, steps[..|steps| - 1]);
      StepKeeps(limits, admins, Run(limits, steps[..|steps| - 1]), steps[|steps| - 1]);
    }
  }

  /**
   * The numbers on the request form tell the truth: with no request in force on the day, the next one is refused
   * exactly when the month shows nothing left, or the date has been rejected and shows no resubmission left.
   */
  lemma FormShowsWhatIsEnforced(limits: Limits, s: State, k: Key)
    requires StatusOf(s, k) == NoRequest || StatusOf(s, k) == Rejected
    ensures var usage := UsageOf(limits, s.history, k);
            RequestAnswer(limits, s, k, false) != Accepted
            <==> usage.remainingThisMonth == Some(0)
                 || (usage.rejectedForDate > 0 && usage.remainingResubmits == Some(0))
  {
  }

  /** Before any rejection the form may show no resubmission left although the first request is accepted. */
  lemma NoResubmitsLeftBeforeFirstRequest(k: Key)
    ensures var limits, s := Limits(None, Some(0)), State(map[], []);
            UsageOf(limits, s.history, k).remainingResubmits == Some(0)
                && RequestAnswer(limits, s, k, false) == Accepted
  {
  }

  lemma {:induction false} CloseNothing(h: seq<Request>, k: Key, decision: RequestStatus)
    requires Count(h, PendingOf(k)) == 0
    ensures Close(h, k, decision) == h
  {
    if h != [] {
      CloseNothing(h[..|h| - 1], k, decision);
    }
  }

  /** Submitting and then withdrawing leaves one withdrawn request in the history and nothing else. */
  lemma WithdrawKeepsTheRequest(limits: Limits, s: State, k: Key)
    requires DayMatchesHistory(s, k) && RequestAnswer(limits, s, k, false) == Accepted
    ensures Next(limits, Next(limits, s, Submit(k, false)), Withdraw(k))
         == State(s.days[k := NoRequest], s.history + [Request(k, CANCELLED)])
  {
    var h := s.history + [Request(k, PENDING)];
    CloseNothing(s.history, k, CANCELLED);
    assert h[..|h| - 1] == s.history;
    assert s.days[k := Pending][k := NoRequest] == s.days[k := NoRequest];
  }

  lemma WithdrawnUsesNothing(limits: Limits, history: seq<Request>, k: Key)
    ensures UsageOf(limits, history + [Request(k, CANCELLED)], k) == UsageOf(limits, history, k)
  {
  }

  /** Withdrawing a request gives its place in the month back and leaves the day open to a corrected one. */
  lemma WithdrawUndoesSubmit(limits: Limits, s: State, k: Key)
    requires DayMatchesHistory(s, k) && RequestAnswer(limits, s, k, false) == Accepted
    ensures var t := Next(limits, Next(limits, s, Submit(k, false)), Withdraw(k));
            && UsageOf(limits, t.history, k) == UsageOf(limits, s.history, k)
            && RequestAnswer(limits, t, k, false) == Accepted
  {
    WithdrawKeepsTheRequest(limits, s, k);
    WithdrawnUsesNothing(limits, s.history, k);
  }

  /**
   * Why a withdrawal has to be one step: its two writes (the day, then the history) let a new request in between, and
   * the second write then withdraws the new request as well. The day waits for review, yet no request of that day is
   * pending and the month counts none.
   */
  lemma WithdrawInTwoWritesLosesARequest(k: Key)
    ensures var limits := Limits(Some(2), None);
            var first := Next(limits, State(map[], []), Submit(k, false));
            var dayWritten := first.(days := first.days[k := NoRequest]);
            var again := Next(limits, dayWritten, Submit(k, false));
            var closed := again.(history := Close(again.history, k, CANCELLED));
            && StatusOf(closed, k) == Pending
            && Count(closed.history, PendingOf(k)) == 0
            && UsageOf(limits, closed.history, k).usedThisMonth == 0
  {
    var limits, r := Limits(Some(2), None), Request(k, PENDING);
    var first := Next(limits, State(map[], []), Submit(k, false));
    assert first.history == [r] by {
      assert RequestAnswer(limits, State(map[], []), k, false) == Accepted;
    }
    CountSnoc([], r, UsedIn(k.employee, k.date.month));
    assert [] + [r] == [r] && [r] + [r] == [r, r];
    TwoClosed(k);
  }

  lemma TwoClosed(k: Key)
    ensures var closed := Close([Request(k, PENDING), Request(k, PENDING)], k, CANCELLED);
            && Count(closed, PendingOf(k)) == 0
            && Count(closed, UsedIn(k.employee, k.date.month)) == 0
  {
    var r, w := Request(k, PENDING), Request(k, CANCELLED);
    assert [r, r][..1] == [r] && [r][..0] == [] && [] + [w] == [w];
    CountSnoc([], w, PendingOf(k));
    CountSnoc([], w, UsedIn(k.employee, k.date.month));
    CountSnoc([w], w, PendingOf(k));
    CountSnoc([w], w, UsedIn(k.employee, k.date.month));
    assert Close([r], k, CANCELLED) == [w];
  }

  // ---- What a request's answer depends on ----

  lemma {:induction false} CountIsSize(h: seq<Request>, p: Request -> bool)
    ensures Count(h, p) == |set i | 0 <= i < |h| && p(h[i])|
  {
    if h != [] {
      var n := |h| - 1;
      var before := set i | 0 <= i < n && p(h[..n][i]);
      CountIsSize(h[..n], p);
      assert forall i :: 0 <= i < n ==> h[..n][i] == h[i];
      if p(h[n]) {
        assert (set i | 0 <= i < |h| && p(h[i])) == before + {n};
      } else {
        assert (set i | 0 <= i < |h| && p(h[i])) == before;
      }
    }
  }

  /**
   * What is counted, row by row: for the month, the employee's requests dated in it that were not withdrawn; for the
   * date, its rejected ones. A request is refused for the month exactly when the former have reached the monthly limit,
   * and for the date, which is looked at first, exactly when the latter exceed the resubmit limit.
   */
  lemma RefusedByTheRowsIff(limits: Limits, s: State, k: Key)
    ensures var used := set i | 0 <= i < |s.history| && s.history[i].key.employee == k.employee
                                && s.history[i].key.date.month == k.date.month && s.history[i].status != CANCELLED;
            var rejected := set i | 0 <= i < |s.history| && s.history[i] == Request(k, REJECTED);
            var free := k !in s.days || s.days[k] == NoRequest || s.days[k] == Rejected;
            var tooOften := limits.resubmit.Some? && |rejected| > limits.resubmit.value;
            && (RequestAnswer(limits, s, k, false) == ResubmitCap <==> free && tooOften)
            && (RequestAnswer(limits, s, k, false) == MonthlyCap
                <==> free && !tooOften && limits.monthly.Some? && |used| >= limits.monthly.value)
            && (RequestAnswer(limits, s, k, true) == Accepted <==> free)
            && forall isAdmin :: RequestAnswer(limits, s, k, isAdmin) == AlreadyPending
                            <==> k in s.days && s.days[k] == Pending
  {
    var used := set i | 0 <= i < |s.history| && s.history[i].key.employee == k.employee
                        && s.history[i].key.date.month == k.date.month && s.history[i].status != CANCELLED;
    var rejected := set i | 0 <= i < |s.history| && s.history[i] == Request(k, REJECTED);
    CountIsSize(s.history, UsedIn(k.employee, k.date.month));
    CountIsSize(s.history, RejectedOf(k));
    assert used == set i | 0 <= i < |s.history| && UsedIn(k.employee, k.date.month)(s.history[i]);
    assert rejected == set i | 0 <= i < |s.history| && RejectedOf(k)(s.history[i]);
  }

  lemma {:induction false} CloseLeavesOthers(h: seq<Request>, k: Key, decision: RequestStatus, p: Request -> bool)
    requires forall r: Request :: r.key == k ==> !p(r)
    ensures Count(Close(h, k, decision), p) == Count(h, p)
  {
    if h != [] {
      CloseLeavesOthers(h[..|h| - 1], k, decision, p);
      var after := Close(h, k, decision);
      assert after[..|after| - 1] == Close(h[..|h| - 1], k, decision);
    }
  }

  /** Nothing another employee does, and nothing done in another month, changes the answer or the numbers shown. */
  lemma OtherMonthsDoNotMatter(limits: Limits, s: State, step: Step, k: Key, isAdmin: bool)
    requires step.key.employee != k.employee || step.key.date.month != k.date.month
    ensures RequestAnswer(limits, Next(limits, s, step), k, isAdmin) == RequestAnswer(limits, s, k, isAdmin)
    ensures UsageOf(limits, Next(limits, s, step).history, k) == UsageOf(limits, s.history, k)
  {
    OtherMonthsCountTheSame(limits, s, step, k);
    assert StatusOf(Next(limits, s, step), k) == StatusOf(s, k);
  }

  lemma OtherMonthsCountTheSame(limits: Limits, s: State, step: Step, k: Key)
    requires step.key.employee != k.employee || step.key.date.month != k.date.month
    ensures var h := Next(limits, s, step).history;
            && Count(h, UsedIn(k.employee, k.date.month)) == Count(s.history, UsedIn(k.employee, k.date.month))
            && Count(h, RejectedOf(k)) == Count(s.history, RejectedOf(k))
  {
    if !step.Submit? {
      var decision := if step.Withdraw? then CANCELLED else if step.approve then APPROVED else REJECTED;
      CloseLeavesOthers(s.history, step.key, decision, UsedIn(k.employee, k.date.month));
      CloseLeavesOthers(s.history, step.key, decision, RejectedOf(k));
    } else {
      AddElsewhere(s.history, Request(step.key, if step.isAdmin then APPROVED else PENDING), k);
    }
  }

  lemma AddElsewhere(h: seq<Request>, r: Request, k: Key)
    requires r.key.employee != k.employee || r.key.date.month != k.date.month
    ensures Count(h + [r], UsedIn(k.employee, k.date.month)) == Count(h, UsedIn(k.employee, k.date.month))
    ensures Count(h + [r], RejectedOf(k)) == Count(h, RejectedOf(k))
  {
    CountSnoc(h, r, UsedIn(k.employee, k.date.month));
    CountSnoc(h, r, RejectedOf(k));
  }

  /** An accepted request takes one place in its month, on every date of it, and is no rejection of any date. */
  lemma AcceptedTakesAPlace(limits: Limits, s: State, k: Key, isAdmin: bool, q: Key)
    requires RequestAnswer(limits, s, k, isAdmin) == Accepted
    requires q.employee == k.employee && q.date.month == k.date.month
    ensures var before, after := UsageOf(limits, s.history, q),
                UsageOf(limits, Next(limits, s, Submit(k, isAdmin)).history, q);
            after.usedThisMonth == before.usedThisMonth + 1 && after.rejectedForDate == before.rejectedForDate
  {
  }
}
