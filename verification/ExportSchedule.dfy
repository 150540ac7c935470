// src/account-management/account-logic.ts:202-212 and account-export-schedule.service.ts:150-209: monthly exports and
// the daily job that runs them. A month is counted as year * 12 + month (from 0), so equal numbers are the same
// month.
module ExportSchedule {
  import opened Prelude

  type ScheduleId = nat

  datatype Date = Date(month: nat, day: nat)

  predicate IsLeapYear(year: nat) {
    year % 4 == 0 && (year % 100 != 0 || year % 400 == 0)
  }

  function DaysInMonth(month: nat): (days: nat)
    ensures 28 <= days <= 31
  {
    match month % 12
    case 1 => if IsLeapYear(month / 12) then 29 else 28
    case 3 | 5 | 8 | 10 => 30
    case _ => 31
  }

  /** Days before the first of March of a year of the Gregorian calendar: 365 a year, one more for each leap year. */
  function FirstOfMarch(year: int): int {
    365 * year + year / 4 - year / 100 + year / 400
  }

  /** The day number of the first of a month: in years begun in March, every five months have 153 days. */
  function FirstOfMonth(month: nat): int {
    FirstOfMarch((month - 2) / 12) + (153 * ((month - 2) % 12) + 2) / 5
  }

  lemma LeapDays(year: nat)
    ensures FirstOfMarch(year) - FirstOfMarch(year - 1) == if IsLeapYear(year) then 366 else 365
  {
    FourthYears(year);
    HundredthYears(year);
    FourHundredthYears(year);
  }

  lemma FourthYears(year: nat)
    ensures year / 4 - (year - 1) / 4 == if year % 4 == 0 then 1 else 0
  {
  }

  lemma HundredthYears(year: nat)
    ensures year / 100 - (year - 1) / 100 == if year % 100 == 0 then 1 else 0
    ensures year % 100 == 0 ==> year % 4 == 0
  {
    var q, r := year / 100, year % 100;
    assert year == 100 * q + r;
    assert r == 0 ==> year == 4 * (25 * q) && year - 1 == 100 * (q - 1) + 99;
  }

  lemma FourHundredthYears(year: nat)
    ensures year / 400 - (year - 1) / 400 == if year % 400 == 0 then 1 else 0
    ensures year % 400 == 0 ==> year % 100 == 0
  {
    var q, r := year / 400, year % 400;
    assert year == 400 * q + r;
    assert r == 0 ==> year == 100 * (4 * q) && year - 1 == 400 * (q - 1) + 399;
  }

  // The first of a month when the month of the March year is known.
  lemma MarchYear(month: nat, year: int, fromMarch: int)
    requires month == 12 * year + fromMarch + 2 && 0 <= fromMarch < 12
    ensures FirstOfMonth(month) == FirstOfMarch(year) + (153 * fromMarch + 2) / 5
  {
    assert (month - 2) / 12 == year && (month - 2) % 12 == fromMarch;
  }

  // Of the March year's months all but the second, fourth, seventh and ninth have 31 days.
  lemma MarchYearMonth(fromMarch: int)
    requires 0 <= fromMarch < 11
    ensures (153 * (fromMarch + 1) + 2) / 5 - (153 * fromMarch + 2) / 5
         == if fromMarch == 1 || fromMarch == 3 || fromMarch == 6 || fromMarch == 8 then 30 else 31
  {
  }

  lemma FebruaryReachesMarch(month: nat)
    requires month % 12 == 1
    ensures DaysInMonth(month) == FirstOfMonth(month + 1) - FirstOfMonth(month)
  {
    var year := month / 12;
    MarchYear(month, year - 1, 11);
    MarchYear(month + 1, year, 0);
    LeapDays(year);
  }

  /** A month is as long as it takes to the first of the next one, in every year. */
  lemma MonthReachesTheNext(month: nat)
    ensures DaysInMonth(month) == FirstOfMonth(month + 1) - FirstOfMonth(month)
  {
    var year, m := month / 12, month % 12;
    if m == 1 {
      FebruaryReachesMarch(month);
    } else {
      var marchYear, fromMarch := if m == 0 then year - 1 else year, if m == 0 then 10 else m - 2;
      assert month == 12 * marchYear + fromMarch + 2;
      MarchYear(month, marchYear, fromMarch);
      MarchYear(month + 1, marchYear, fromMarch + 1);
      MarchYearMonth(fromMarch);
    }
  }

  predicate IsDate(d: Date) {
    1 <= d.day <= DaysInMonth(d.month)
  }

  predicate NotAfter(a: Date, b: Date) {
    a.month < b.month || (a.month == b.month && a.day <= b.day)
  }

  function EffectiveDay(dayOfMonth: nat, now: Date): nat {
    Min(dayOfMonth, DaysInMonth(now.month))
  }

  predicate ScheduleDue(dayOfMonth: nat, lastRunAt: Option<Date>, now: Date) {
    && now.day >= EffectiveDay(dayOfMonth, now)
    && (lastRunAt.None? || lastRunAt.value.month != now.month)
  }

  datatype Schedule = Schedule(dayOfMonth: nat, enabled: bool, lastRunAt: Option<Date>)

  /** What becomes of one schedule on one day's job; `canRun`: its module is on and an owner was found. */
  function AfterJob(s: Schedule, now: Date, canRun: bool): Schedule {
    if s.enabled && canRun && ScheduleDue(s.dayOfMonth, s.lastRunAt, now) then s.(lastRunAt := Some(now)) else s
  }

  class ScheduleTable {
    var schedules: map<ScheduleId, Schedule>

    constructor ()
      ensures schedules == map[]
    {
      schedules := map[];
    }

    /**
     * The daily job. `rows` is the snapshot it read, `moduleOff` the companies without the export module, `noOwner`
     * those without anyone to run it: there `run` fails before it records anything.
     */
    method Daily(rows: seq<ScheduleId>, now: Date, moduleOff: set<ScheduleId>, noOwner: set<ScheduleId>)
      requires forall id :: id in rows ==> id in schedules && schedules[id].enabled
      requires forall i, j :: 0 <= i < j < |rows| ==> rows[i] != rows[j]
      modifies this
      ensures schedules.Keys == old(schedules.Keys)
      ensures forall id | id in schedules :: schedules[id] ==
                (if id in rows then AfterJob(old(schedules)[id], now, id !in moduleOff && id !in noOwner)
                 else old(schedules)[id])
    {
      ghost var before := schedules;
      var snapshot := schedules;
      for i := 0 to |rows|
        invariant schedules.Keys == before.Keys
        invariant forall id | id in schedules :: schedules[id] ==
                    (if id in rows[..i] then AfterJob(before[id], now, id !in moduleOff && id !in noOwner)
                     else before[id])
      {
        var id := rows[i];
        assert id !in rows[..i];
        assert forall other :: other in rows[..i + 1] <==> other in rows[..i] || other == id;
        var s := snapshot[id];
        if !ScheduleDue(s.dayOfMonth, s.lastRunAt, now) || id in moduleOff {
          continue;
        }
        RunSchedule(id, now, id !in noOwner);
      }
    }

    /**
     * `run`, also behind the button that runs a schedule now: sent or failed, the day is recorded, and the daily job
     * leaves the schedule alone for the rest of the month.
     */
    method RunSchedule(id: ScheduleId, now: Date, ownerFound: bool)
      requires id in schedules
      modifies this
      ensures ownerFound ==> forall later: Date, canRun | later.month == now.month ::
                id in schedules && AfterJob(schedules[id], later, canRun) == schedules[id]
      ensures schedules == if ownerFound then old(schedules)[id := old(schedules)[id].(lastRunAt := Some(now))]
              else old(schedules)
    {
      if !ownerFound {
        return;
      }
      schedules := schedules[id := schedules[id].(lastRunAt := Some(now))];
    }
  }

  /** A recorded run holds for its month and no longer: in another month the job passes until the day, then runs. */
  lemma RecordedRunHoldsForItsMonth(s: Schedule, run: Date, later: Date)
    requires s.enabled
    ensures AfterJob(s.(lastRunAt := Some(run)), later, true).lastRunAt
         == if later.month == run.month || later.day < EffectiveDay(s.dayOfMonth, later) then Some(run) else Some(later)
  {
  }

  // ---- One schedule's history ----

  /** A day's job (with the day chosen and whether the schedule was on and could run at that time), or a run by hand. */
  datatype Event =
    | Tick(date: Date, dayOfMonth: nat, canRun: bool)
    | ByHand(date: Date)

  function NextLastRun(lastRunAt: Option<Date>, e: Event): Option<Date> {
    match e
    case Tick(date, dayOfMonth, canRun) => AfterJob(Schedule(dayOfMonth, true, lastRunAt), date, canRun).lastRunAt
    case ByHand(date) => Some(date)
  }

  function LastRun(events: seq<Event>): Option<Date> {
    if events == [] then None else NextLastRun(LastRun(events[..|events| - 1]), events[|events| - 1])
  }

  /** The job runs the schedule at its `k`-th event. */
  predicate JobRunsAt(events: seq<Event>, k: nat)
    requires k < |events|
  {
    var e := events[k];
    e.Tick? && e.canRun && ScheduleDue(e.dayOfMonth, LastRun(events[..k]), e.date)
  }

  predicate InOrder(events: seq<Event>) {
    forall i, j :: 0 <= i < j < |events| ==> NotAfter(events[i].date, events[j].date)
  }

  /** An event that leaves its month served: a run by hand, or a possible job on or after the day. */
  predicate Serves(e: Event) {
    e.ByHand? || (e.canRun && e.date.day >= EffectiveDay(e.dayOfMonth, e.date))
  }

  /** The last recorded run is in the current month exactly when something before now has served that month. */
  lemma {:induction false} LastRunKnowsTheMonth(events: seq<Event>, month: nat)
    requires InOrder(events) && forall i :: 0 <= i < |events| ==> events[i].date.month <= month
    ensures LastRun(events).Some? ==> LastRun(events).value.month <= month
    ensures LastRun(events).Some? && LastRun(events).value.month == month
            <==> exists i :: 0 <= i < |events| && events[i].date.month == month && Serves(events[i])
  {
    if events != [] {
      var n := |events| - 1;
      var before, last := events[..n], events[n];
      LastRunKnowsTheMonth(before, month);
      forall i | 0 <= i < n
        ensures before[i] == events[i]
      {
      }
      if last.date.month == month && Serves(last) {
        assert LastRun(events).Some?;
      } else if i :| 0 <= i < |events| && events[i].date.month == month && Serves(events[i]) {
        assert before[i] == events[i];
        assert NotAfter(events[i].date, last.date);
      }
    }
  }

  /**
   * Over any history, with days missed, jobs that could not run, runs by hand and changes of the chosen day: the job
   * runs the schedule exactly at the first event of the month that could serve it.
   */
  lemma JobRunsAtFirstChanceIff(events: seq<Event>, k: nat)
    requires InOrder(events) && k < |events|
    ensures JobRunsAt(events, k)
            <==> && events[k].Tick? && Serves(events[k])
                 && forall i | 0 <= i < k && events[i].date.month == events[k].date.month :: !Serves(events[i])
  {
    var before := events[..k];
    forall i | 0 <= i < k
      ensures before[i] == events[i] && events[i].date.month <= events[k].date.month
    {
      assert NotAfter(events[i].date, events[k].date);
    }
    LastRunKnowsTheMonth(before, events[k].date.month);
  }

  /** So the job runs a schedule at most once a month, and not at all in a month it was run by hand before its day. */
  lemma AtMostOneJobRunAMonth(events: seq<Event>, i: nat, k: nat)
    requires InOrder(events) && i < k < |events| && events[i].date.month == events[k].date.month
    requires JobRunsAt(events, i) || events[i].ByHand?
    ensures !JobRunsAt(events, k)
  {
    JobRunsAtFirstChanceIff(events, i);
    JobRunsAtFirstChanceIff(events, k);
  }

  /** A month without a single missing or failing job: one tick on each of its days, the chosen day unchanged. */
  ghost predicate FullMonth(events: seq<Event>, month: nat, dayOfMonth: nat) {
    && (forall i | 0 <= i < |events| && events[i].date.month == month ::
          events[i].Tick? && events[i].canRun && events[i].dayOfMonth == dayOfMonth && IsDate(events[i].date))
    && (forall i, j | 0 <= i < j < |events| :: events[i].date.month == month ==> events[i].date != events[j].date)
    && (forall day | 1 <= day <= DaysInMonth(month) :: TickOn(events, Date(month, day)))
  }

  ghost predicate TickOn(events: seq<Event>, date: Date) {
    exists i :: 0 <= i < |events| && events[i].date == date
  }

  /**
   * In such a month the job runs the schedule exactly once, on the chosen day or the month's last day if it is
   * shorter.
   */
  lemma FullMonthRunsOnceOnTheDay(events: seq<Event>, month: nat, dayOfMonth: nat)
    requires InOrder(events) && FullMonth(events, month, dayOfMonth) && 1 <= dayOfMonth
    ensures forall k | 0 <= k < |events| && events[k].date.month == month ::
              JobRunsAt(events, k) <==> events[k].date.day == Min(dayOfMonth, DaysInMonth(month))
    ensures var date := Date(month, Min(dayOfMonth, DaysInMonth(month)));
            exists k :: 0 <= k < |events| && events[k].date == date && JobRunsAt(events, k)
  {
    var day := Min(dayOfMonth, DaysInMonth(month));
    assert TickOn(events, Date(month, day));
    var on :| 0 <= on < |events| && events[on].date == Date(month, day);
    forall k | 0 <= k < |events| && events[k].date.month == month
      ensures JobRunsAt(events, k) <==> events[k].date.day == day
    {
      JobRunsAtFirstChanceIff(events, k);
      if k < on {
        assert NotAfter(events[k].date, events[on].date) && events[k].date != events[on].date;
      } else if on < k {
        assert Serves(events[on]);
        assert events[on].date != events[k].date;
      } else {
        forall i | 0 <= i < k && events[i].date.month == month
          ensures !Serves(events[i])
        {
          assert NotAfter(events[i].date, events[k].date) && events[i].date != events[k].date;
        }
      }
    }
  }
}
