// src/attendance/wfh-request-days.ts:28-60, src/attendance/attendance.service.ts:2561-2644,
// src/attendance/attendance-shift-config.ts:197-224: the days a Work From Home request covers and the days it leaves
// out. Dates are days counted from 1970-01-01.
module WfhDays {
  import opened Prelude
  import LeaveStamps

  type Day = int

  // ---- Weekly offs ----

  datatype WeeklyOff = EveryWeek(weekday: int) | OnOccurrences(weekday: int, occurrences: seq<nat>)

  /** 0 is Sunday; 1970-01-01 was a Thursday. */
  function Weekday(date: Day): int {
    (date + 4) % 7
  }

  /** Weekdays go round from 1970-01-01, a Thursday, in both directions. */
  lemma WeekdaysGoRound(date: Day)
    ensures Weekday(0) == 4
    ensures 0 <= Weekday(date) < 7
    ensures Weekday(date + 1) == if Weekday(date) == 6 then 0 else Weekday(date) + 1
  {
  }

  function NthWeekdayOccurrence(dayOfMonth: nat): nat {
    (dayOfMonth + 6) / 7
  }

  predicate IsWeeklyOff(date: Day, dayOfMonth: nat, weeklyOffs: seq<WeeklyOff>) {
    exists entry | entry in weeklyOffs ::
      match entry
      case EveryWeek(weekday) => weekday == Weekday(date)
      case OnOccurrences(weekday, occurrences) =>
        weekday == Weekday(date) && NthWeekdayOccurrence(dayOfMonth) in occurrences
  }

  /** The dates of the month up to and including `date` that fall on its weekday. */
  function SameWeekdaysSoFar(date: Day, dayOfMonth: nat): set<Day> {
    set d: Day | date - dayOfMonth < d <= date && Weekday(d) == Weekday(date)
  }

  lemma SameWeekdayIsAWeekApart(d: Day, date: Day)
    ensures Weekday(date - 7) == Weekday(date)
    ensures d < date && Weekday(d) == Weekday(date) ==> d <= date - 7
  {
  }

  /** Rounding a date of the month up to whole weeks counts its weekday's occurrences so far. */
  lemma {:induction false} OccurrenceCountsTheWeekday(date: Day, dayOfMonth: nat)
    requires dayOfMonth >= 1
    ensures |SameWeekdaysSoFar(date, dayOfMonth)| == NthWeekdayOccurrence(dayOfMonth)
    decreases dayOfMonth
  {
    var all := SameWeekdaysSoFar(date, dayOfMonth);
    forall d | d in all && d != date
      ensures d <= date - 7
    {
      SameWeekdayIsAWeekApart(d, date);
    }
    SameWeekdayIsAWeekApart(date, date);
    if dayOfMonth <= 7 {
      assert all == {date};
    } else {
      var earlier := SameWeekdaysSoFar(date - 7, dayOfMonth - 7);
      OccurrenceCountsTheWeekday(date - 7, dayOfMonth - 7);
      assert date !in earlier;
      assert all == earlier + {date};
    }
  }

  /** "The 2nd and 4th Saturday": such an entry marks exactly the listed occurrences of its weekday in every month. */
  lemma OccurrencesMarkTheListedWeekdays(date: Day, dayOfMonth: nat, weekday: int, occurrences: seq<nat>)
    requires dayOfMonth >= 1
    ensures IsWeeklyOff(date, dayOfMonth, [OnOccurrences(weekday, occurrences)])
            <==> Weekday(date) == weekday && |SameWeekdaysSoFar(date, dayOfMonth)| in occurrences
  {
    OccurrenceCountsTheWeekday(date, dayOfMonth);
    var entry := OnOccurrences(weekday, occurrences);
    assert entry in [entry];
  }

  // ---- The days of a request ----

  datatype Reason = WEEKLY_OFF | HOLIDAY | LEAVE | ALREADY_REQUESTED

  datatype Skip = Skip(date: Day, reason: Reason)

  datatype RequestDays = RequestDays(days: seq<Day>, skipped: seq<Skip>)

  /** What an employee's dates are looked up in; `dayOfMonth` reads the calendar. */
  datatype Agenda = Agenda(weeklyOffs: seq<WeeklyOff>, dayOfMonth: Day -> nat, holidays: set<Day>, leaves: set<Day>)

  type Why = Day -> Option<Reason>

  /** Why a date is left out, if it is. */
  function ReasonOf(agenda: Agenda): Why {
    date =>
      if IsWeeklyOff(date, agenda.dayOfMonth(date), agenda.weeklyOffs) then Some(WEEKLY_OFF)
      else if date in agenda.holidays then Some(HOLIDAY)
      else if date in agenda.leaves then Some(LEAVE)
      else None
  }

  /** A day that could be asked for is still left out when it already has a request. */
  function OrRequested(why: Why, already: set<Day>): Why {
    date => if why(date).None? && date in already then Some(ALREADY_REQUESTED) else why(date)
  }

  function DaysOf(dates: seq<Day>, why: Why): seq<Day> {
    if dates == [] then []
    else
      var date := dates[|dates| - 1];
      var before := DaysOf(dates[..|dates| - 1], why);
      if why(date).None? then before + [date] else before
  }

  function SkipsOf(dates: seq<Day>, why: Why): seq<Skip> {
    if dates == [] then []
    else
      var date := dates[|dates| - 1];
      var before := SkipsOf(dates[..|dates| - 1], why);
      if why(date).Some? then before + [Skip(date, why(date).value)] else before
  }

  function CalendarSpan(from: Day, to: Day): (span: nat)
    ensures span == |LeaveStamps.DatesBetween(from, to)|
  {
    if to < from then 0 else to - from + 1
  }

  method WfhRequestDays(from: Day, to: Day, agenda: Agenda) returns (r: RequestDays)
    ensures r.days == DaysOf(LeaveStamps.DatesBetween(from, to), ReasonOf(agenda))
    ensures r.skipped == SkipsOf(LeaveStamps.DatesBetween(from, to), ReasonOf(agenda))
  {
    var days, skipped := [], [];
    ghost var dates := LeaveStamps.DatesBetween(from, to);
    var span := CalendarSpan(from, to);
    for i := 0 to span
      invariant days == DaysOf(dates[..i], ReasonOf(agenda))
      invariant skipped == SkipsOf(dates[..i], ReasonOf(agenda))
    {
      var date := from + i;
      assert dates[..i + 1][..i] == dates[..i] && dates[i] == date;
      if IsWeeklyOff(date, agenda.dayOfMonth(date), agenda.weeklyOffs) {
        skipped := skipped + [Skip(date, WEEKLY_OFF)];
      } else if date in agenda.holidays {
        skipped := skipped + [Skip(date, HOLIDAY)];
      } else if date in agenda.leaves {
        skipped := skipped + [Skip(date, LEAVE)];
      } else {
        days := days + [date];
      }
    }
    assert dates[..span] == dates;
    return RequestDays(days, skipped);
  }

  predicate OnLeave(leaves: seq<(Day, Day)>, d: Day) {
    exists i :: 0 <= i < |leaves| && leaves[i].0 <= d <= leaves[i].1
  }

  function LeaveSet(leaves: seq<(Day, Day)>, from: Day, to: Day): set<Day> {
    set d: Day | from <= d <= to && OnLeave(leaves, d)
  }

  /** The dates of the full-day leaves, cut to the range asked for. */
  method LeaveDates(leaves: seq<(Day, Day)>, from: Day, to: Day) returns (dates: set<Day>)
    ensures dates == LeaveSet(leaves, from, to)
  {
    dates := {};
    for i := 0 to |leaves|
      invariant forall d :: d in dates <==> from <= d <= to && exists j :: 0 <= j < i && leaves[j].0 <= d <= leaves[j].1
    {
      var start := Max(leaves[i].0, from);
      var end := Min(leaves[i].1, to);
      ghost var before := dates;
      var d := start;
      while d <= end
        invariant start <= d <= Max(start, end + 1)
        invariant forall x :: x in dates <==> x in before || start <= x < d
      {
        dates := dates + {d};
        d := d + 1;
      }
    }
  }

  predicate Earlier(a: Skip, b: Skip) {
    a.date <= b.date
  }

  function AsRequested(days: seq<Day>): seq<Skip> {
    seq(|days|, i requires 0 <= i < |days| => Skip(days[i], ALREADY_REQUESTED))
  }

  function Inside(already: set<Day>): Day -> bool {
    date => date in already
  }

  function Outside(already: set<Day>): Day -> bool {
    date => date !in already
  }

  /** The days of the employed part of the range, everything that speaks against a day looked up at once. */
  ghost function LookedUpTogether(from: Day, to: Day, joined: Option<Day>, exit: Option<Day>, calendar: Agenda,
                                  leaves: seq<(Day, Day)>, already: set<Day>): RequestDays {
    var effFrom := if joined.Some? then Max(from, joined.value) else from;
    var effTo := if exit.Some? then Min(to, exit.value) else to;
    var dates := LeaveStamps.DatesBetween(effFrom, effTo);
    var why := OrRequested(ReasonOf(calendar.(leaves := LeaveSet(leaves, from, to))), already);
    RequestDays(DaysOf(dates, why), SkipsOf(dates, why))
  }

  /**
   * The days of a request within the employed part of the range. Days already requested are split off afterwards and
   * sorted in among the others; the result is as if they had been looked up with the rest.
   */
  method WfhDaysFor(from: Day, to: Day, joined: Option<Day>, exit: Option<Day>, calendar: Agenda,
                    leaves: seq<(Day, Day)>, already: set<Day>)
    returns (r: RequestDays)
    ensures r == LookedUpTogether(from, to, joined, exit, calendar, leaves, already)
  {
    var leaveDates := LeaveDates(leaves, from, to);
    var agenda := calendar.(leaves := leaveDates);
    var effFrom := if joined.Some? && from < joined.value then joined.value else from;
    var effTo := if exit.Some? && exit.value < to then exit.value else to;
    ghost var dates := LeaveStamps.DatesBetween(effFrom, effTo);
    var result := WfhRequestDays(effFrom, effTo, agenda);
    if already == {} {
      OrRequestedNothing(dates, ReasonOf(agenda));
      return result;
    }
    SplitOffDays(dates, ReasonOf(agenda), already);
    SplitOffSkips(dates, ReasonOf(agenda), already);
    var kept := Filter(result.days, Outside(already));
    var again := AsRequested(Filter(result.days, Inside(already)));
    return RequestDays(kept, StableSort(result.skipped + again, Earlier));
  }

  // ---- What the two lists hold ----

  predicate Increasing(dates: seq<Day>) {
    forall i, j :: 0 <= i < j < |dates| ==> dates[i] < dates[j]
  }

  predicate IncreasingSkips(skips: seq<Skip>) {
    forall i, j :: 0 <= i < j < |skips| ==> skips[i].date < skips[j].date
  }

  lemma {:induction false} MembersOfLists(dates: seq<Day>, why: Why)
    ensures forall d :: d in DaysOf(dates, why) <==> d in dates && why(d).None?
    ensures forall s :: s in SkipsOf(dates, why) <==> s.date in dates && why(s.date) == Some(s.reason)
    ensures |DaysOf(dates, why)| + |SkipsOf(dates, why)| == |dates|
  {
    if dates != [] {
      var n := |dates| - 1;
      MembersOfLists(dates[..n], why);
      assert dates == dates[..n] + [dates[n]];
    }
  }

  lemma {:induction false} ListsAreInOrder(dates: seq<Day>, why: Why)
    requires Increasing(dates)
    ensures Increasing(DaysOf(dates, why)) && IncreasingSkips(SkipsOf(dates, why))
  {
    if dates != [] {
      var n := |dates| - 1;
      ListsAreInOrder(dates[..n], why);
      MembersOfLists(dates[..n], why);
      var days, skips := DaysOf(dates[..n], why), SkipsOf(dates[..n], why);
      forall i | 0 <= i < |days|
        ensures days[i] < dates[n]
      {
        assert days[i] in days;
      }
      forall i | 0 <= i < |skips|
        ensures skips[i].date < dates[n]
      {
        assert skips[i] in skips;
      }
    }
  }

  /**
   * Every date of the range is in exactly one list: among the days when nothing speaks against it, otherwise among the
   * skipped with its own reason. Both lists are in date order without repeats.
   */
  lemma EveryDateIsCoveredOnce(from: Day, to: Day, why: Why)
    ensures var dates := LeaveStamps.DatesBetween(from, to);
            var days, skipped := DaysOf(dates, why), SkipsOf(dates, why);
            && Increasing(days) && IncreasingSkips(skipped)
            && (forall d :: d in days <==> from <= d <= to && why(d).None?)
            && (forall s :: s in skipped <==> from <= s.date <= to && why(s.date) == Some(s.reason))
            && |days| + |skipped| == |dates|
  {
    MembersOfLists(LeaveStamps.DatesBetween(from, to), why);
    ListsAreInOrder(LeaveStamps.DatesBetween(from, to), why);
  }

  /** A weekly off of the list falls on the date: every week, or on the listed ones of the month's. */
  ghost predicate OffThatWeek(date: Day, dayOfMonth: nat, weeklyOffs: seq<WeeklyOff>) {
    || EveryWeek(Weekday(date)) in weeklyOffs
    || exists entry :: entry in weeklyOffs && entry.OnOccurrences? && entry.weekday == Weekday(date)
                       && |SameWeekdaysSoFar(date, dayOfMonth)| in entry.occurrences
  }

  ghost predicate SomeLeaveOn(leaves: seq<(Day, Day)>, d: Day) {
    exists leave :: leave in leaves && leave.0 <= d && d <= leave.1
  }

  lemma OffIsWeeklyOff(date: Day, dayOfMonth: nat, weeklyOffs: seq<WeeklyOff>)
    requires dayOfMonth >= 1
    ensures IsWeeklyOff(date, dayOfMonth, weeklyOffs) <==> OffThatWeek(date, dayOfMonth, weeklyOffs)
  {
    OccurrenceCountsTheWeekday(date, dayOfMonth);
  }

  /**
   * Which days are asked for and which are left out, from the calendar: a date between joining and leaving is asked for
   * when it is no weekly off, no holiday, on no leave and not requested yet, and is left out for the first of these
   * that it is.
   */
  lemma AskedForIff(from: Day, to: Day, joined: Option<Day>, exit: Option<Day>, calendar: Agenda,
                    leaves: seq<(Day, Day)>, already: set<Day>, d: Day, reason: Reason)
    requires forall date :: calendar.dayOfMonth(date) >= 1
    ensures var r := LookedUpTogether(from, to, joined, exit, calendar, leaves, already);
            var employed := from <= d <= to && (joined.Some? ==> joined.value <= d) && (exit.Some? ==> d <= exit.value);
            var off, holiday := OffThatWeek(d, calendar.dayOfMonth(d), calendar.weeklyOffs), d in calendar.holidays;
            var onLeave, requested := SomeLeaveOn(leaves, d), d in already;
            && (d in r.days <==> employed && !off && !holiday && !onLeave && !requested)
            && (Skip(d, reason) in r.skipped
                <==> employed
                     && match reason
                        case WEEKLY_OFF => off
                        case HOLIDAY => !off && holiday
                        case LEAVE => !off && !holiday && onLeave
                        case ALREADY_REQUESTED => !off && !holiday && !onLeave && requested)
  {
    var effFrom := if joined.Some? then Max(from, joined.value) else from;
    var effTo := if exit.Some? then Min(to, exit.value) else to;
    var why := OrRequested(ReasonOf(calendar.(leaves := LeaveSet(leaves, from, to))), already);
    var dates := LeaveStamps.DatesBetween(effFrom, effTo);
    MembersOfLists(dates, why);
    assert d in dates <==> from <= d <= to && (joined.Some? ==> joined.value <= d) && (exit.Some? ==> d <= exit.value);
    if from <= d <= to {
      FirstReasonOf(from, to, calendar, leaves, already, d);
    }
    assert Skip(d, reason) in SkipsOf(dates, why) <==> d in dates && why(d) == Some(reason);
  }

  lemma FirstReasonOf(from: Day, to: Day, calendar: Agenda, leaves: seq<(Day, Day)>, already: set<Day>, d: Day)
    requires calendar.dayOfMonth(d) >= 1 && from <= d <= to
    ensures OrRequested(ReasonOf(calendar.(leaves := LeaveSet(leaves, from, to))), already)(d)
         == if OffThatWeek(d, calendar.dayOfMonth(d), calendar.weeklyOffs) then Some(WEEKLY_OFF)
            else if d in calendar.holidays then Some(HOLIDAY)
            else if SomeLeaveOn(leaves, d) then Some(LEAVE)
            else if d in already then Some(ALREADY_REQUESTED)
            else None
  {
    OffIsWeeklyOff(d, calendar.dayOfMonth(d), calendar.weeklyOffs);
    OnLeaveIff(leaves, d);
  }

  lemma OnLeaveIff(leaves: seq<(Day, Day)>, d: Day)
    ensures OnLeave(leaves, d) <==> SomeLeaveOn(leaves, d)
  {
    if OnLeave(leaves, d) {
      var i :| 0 <= i < |leaves| && leaves[i].0 <= d <= leaves[i].1;
      assert leaves[i] in leaves;
    }
  }

  // ---- Splitting the requested days off afterwards ----

  lemma {:induction false} OrRequestedNothing(dates: seq<Day>, why: Why)
    ensures DaysOf(dates, OrRequested(why, {})) == DaysOf(dates, why)
    ensures SkipsOf(dates, OrRequested(why, {})) == SkipsOf(dates, why)
  {
    if dates != [] {
      OrRequestedNothing(dates[..|dates| - 1], why);
    }
  }

  lemma FilterSnoc(s: seq<Day>, x: Day, p: Day -> bool)
    ensures Filter(s + [x], p) == if p(x) then Filter(s, p) + [x] else Filter(s, p)
  {
    FilterAppend(s, [x], p);
    assert [x][1..] == [];
  }

  lemma {:induction false} SplitOffDays(dates: seq<Day>, why: Why, already: set<Day>)
    ensures DaysOf(dates, OrRequested(why, already)) == Filter(DaysOf(dates, why), Outside(already))
  {
    if dates != [] {
      var n := |dates| - 1;
      SplitOffDays(dates[..n], why, already);
      FilterSnoc(DaysOf(dates[..n], why), dates[n], Outside(already));
    }
  }

  /** The skipped dates before sorting: those of the agenda, then those already requested. */
  function Joined(dates: seq<Day>, why: Why, already: set<Day>): seq<Skip> {
    SkipsOf(dates, why) + AsRequested(Filter(DaysOf(dates, why), Inside(already)))
  }

  lemma JoinedSnoc(before: seq<Day>, date: Day, why: Why, already: set<Day>)
    ensures multiset(Joined(before + [date], why, already))
         == if OrRequested(why, already)(date).Some?
            then multiset(Joined(before, why, already)) + multiset{Skip(date, OrRequested(why, already)(date).value)}
            else multiset(Joined(before, why, already))
  {
    assert (before + [date])[..|before|] == before;
    var days := DaysOf(before, why);
    FilterSnoc(days, date, Inside(already));
    var again := Filter(days, Inside(already));
    if why(date).None? && date in already {
      assert AsRequested(again + [date]) == AsRequested(again) + [Skip(date, ALREADY_REQUESTED)];
    }
  }

  lemma {:induction false} SplitOffPermutes(dates: seq<Day>, why: Why, already: set<Day>)
    ensures multiset(SkipsOf(dates, OrRequested(why, already))) == multiset(Joined(dates, why, already))
  {
    if dates != [] {
      var n := |dates| - 1;
      SplitOffPermutes(dates[..n], why, already);
      JoinedSnoc(dates[..n], dates[n], why, already);
      assert dates[..n] + [dates[n]] == dates;
    }
  }

  lemma FirstIsLeast(s: seq<Skip>, t: seq<Skip>)
    requires s != [] && IncreasingSkips(s) && Sorted(t, Earlier) && multiset(s) == multiset(t)
    ensures t != [] && s[0] == t[0]
  {
    assert s[0] in multiset(t);
    var j :| 0 <= j < |t| && t[j] == s[0];
    assert t[0] in multiset(s);
    var k :| 0 <= k < |s| && s[k] == t[0];
    assert j > 0 ==> Earlier(t[0], t[j]);
  }

  lemma RestIsSame(s: seq<Skip>, t: seq<Skip>)
    requires s != [] && t != [] && s[0] == t[0] && multiset(s) == multiset(t)
    ensures multiset(s[1..]) == multiset(t[1..])
  {
    assert s == [s[0]] + s[1..] && t == [t[0]] + t[1..];
    assert multiset(s[1..]) == multiset(s) - multiset{s[0]};
    assert multiset(t[1..]) == multiset(t) - multiset{t[0]};
  }

  /** A list strictly ordered by date is the only ordered arrangement of its elements. */
  lemma {:induction false} OrderIsUnique(s: seq<Skip>, t: seq<Skip>)
    requires IncreasingSkips(s) && Sorted(t, Earlier) && multiset(s) == multiset(t) && |s| == |t|
    ensures s == t
  {
    if s != [] {
      FirstIsLeast(s, t);
      RestIsSame(s, t);
      OrderIsUnique(s[1..], t[1..]);
      assert s == [s[0]] + s[1..] && t == [t[0]] + t[1..];
    }
  }

  lemma SplitOffSkips(dates: seq<Day>, why: Why, already: set<Day>)
    requires Increasing(dates)
    ensures SkipsOf(dates, OrRequested(why, already)) == StableSort(Joined(dates, why, already), Earlier)
  {
    ListsAreInOrder(dates, OrRequested(why, already));
    SplitOffPermutes(dates, why, already);
    StableSortPermutes(Joined(dates, why, already), Earlier);
    StableSortSorted(Joined(dates, why, already), Earlier);
    assert |multiset(StableSort(Joined(dates, why, already), Earlier))|
           == |multiset(SkipsOf(dates, OrRequested(why, already)))|;
    OrderIsUnique(SkipsOf(dates, OrRequested(why, already)), StableSort(Joined(dates, why, already), Earlier));
  }
}
