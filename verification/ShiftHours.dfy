// src/attendance/shift-hours.ts:9-67, src/attendance/attendance-shift-config.ts:242-263: which shift settings are
// accepted and what they make of a worked day. Hours are reals; rounding is JavaScript's Math.round.
module ShiftHours {
  import opened Prelude
  import ShiftDays
  import ZonedTime

  // ---- Times of day ----

  predicate IsDigit(c: char) {
    '0' <= c <= '9'
  }

  function Digit(c: char): int {
    c as int - '0' as int
  }

  /** `HH:mm` on a 24-hour clock, in minutes. */
  function ToMinutes(t: string): (r: Option<int>)
    ensures r.Some? ==> 0 <= r.value < 1440
  {
    if |t| == 5 && IsDigit(t[0]) && IsDigit(t[1]) && t[2] == ':' && IsDigit(t[3]) && IsDigit(t[4])
       && Digit(t[0]) * 10 + Digit(t[1]) <= 23 && Digit(t[3]) <= 5
    then Some((Digit(t[0]) * 10 + Digit(t[1])) * 60 + Digit(t[3]) * 10 + Digit(t[4]))
    else None
  }

  function DigitChar(n: int): char
    requires 0 <= n < 10
  {
    ('0' as int + n) as char
  }

  /** A time of day as it is written on a 24-hour clock. */
  function Clock(minutes: int): (t: string)
    requires 0 <= minutes < 1440
  {
    var hour, minute := minutes / 60, minutes % 60;
    [DigitChar(hour / 10), DigitChar(hour % 10), ':', DigitChar(minute / 10), DigitChar(minute % 10)]
  }

  lemma TwoDigits(tens: int, ones: int)
    requires 0 <= ones < 10
    ensures (10 * tens + ones) / 10 == tens && (10 * tens + ones) % 10 == ones
  {
  }

  lemma HourAndMinute(hour: int, minute: int)
    requires 0 <= minute < 60
    ensures (60 * hour + minute) / 60 == hour && (60 * hour + minute) % 60 == minute
  {
  }

  /** Exactly the 1440 clock times are read, each as its own minute of the day. */
  lemma ClockTimesAreReadIff(t: string, minutes: int)
    ensures ToMinutes(t) == Some(minutes) <==> 0 <= minutes < 1440 && t == Clock(minutes)
  {
    if ToMinutes(t).Some? {
      var hour, minute := 10 * Digit(t[0]) + Digit(t[1]), 10 * Digit(t[3]) + Digit(t[4]);
      HourAndMinute(hour, minute);
      TwoDigits(Digit(t[0]), Digit(t[1]));
      TwoDigits(Digit(t[3]), Digit(t[4]));
      assert ToMinutes(t).value == 60 * hour + minute;
      assert t == Clock(60 * hour + minute);
    }
    if 0 <= minutes < 1440 {
      ClockIsRead(minutes);
    }
  }

  lemma ClockIsRead(minutes: int)
    requires 0 <= minutes < 1440
    ensures ToMinutes(Clock(minutes)) == Some(minutes)
  {
    var hour, minute := minutes / 60, minutes % 60;
    assert Digit(DigitChar(hour / 10)) == hour / 10 && Digit(DigitChar(hour % 10)) == hour % 10;
    assert Digit(DigitChar(minute / 10)) == minute / 10 && Digit(DigitChar(minute % 10)) == minute % 10;
  }

  function ShiftSpanMinutes(start: string, end: string): (r: Option<int>)
    ensures r.Some? ==> 0 <= r.value < 1440
  {
    match (ToMinutes(start), ToMinutes(end))
    case (Some(s), Some(e)) => Some((e - s + 1440) % 1440)
    case _ => None
  }

  // ---- The settings ----

  datatype ShiftInputs = ShiftInputs(
    startTime: string, endTime: string, breakMinutes: real,
    minHoursForPresent: Option<real>, minHoursForHalfDay: Option<real>, crossesMidnight: Option<bool>)

  datatype Problem =
    | SameTime
    | EndsBeforeStart
    | NoBreak
    | BreakTooLong
    | PresentOutOfReach
    | HalfDayNotBelowPresent

  const TOLERANCE: real := 0.000000001

  function ShiftConsistencyError(i: ShiftInputs): Option<Problem> {
    var span := ShiftSpanMinutes(i.startTime, i.endTime);
    if span.None? then None
    else if span.value == 0 then Some(SameTime)
    else if ToMinutes(i.endTime).value < ToMinutes(i.startTime).value && i.crossesMidnight == Some(false)
        then Some(EndsBeforeStart)
    else if i.breakMinutes < 1.0 then Some(NoBreak)
    else if i.breakMinutes >= span.value as real then Some(BreakTooLong)
    else
      var net := (span.value as real - i.breakMinutes) / 60.0;
      if i.minHoursForPresent.Some? && i.minHoursForPresent.value > net + TOLERANCE then Some(PresentOutOfReach)
      else if i.minHoursForPresent.Some? && i.minHoursForHalfDay.Some?
              && i.minHoursForHalfDay.value >= i.minHoursForPresent.value then Some(HalfDayNotBelowPresent)
      else None
  }

  /**
   * Which settings are accepted: different times, an end before the start only where the shift is not said to stay
   * within its day, a break of at least a minute that leaves working time, no more hours wanted for Present than that
   * time (give or take a billionth), and fewer for a half day.
   */
  lemma SettingsAreAcceptedIff(i: ShiftInputs, start: int, end: int)
    requires 0 <= start < 1440 && 0 <= end < 1440 && i.startTime == Clock(start) && i.endTime == Clock(end)
    ensures var span := if start < end then end - start else end - start + 1440;
            && (ShiftConsistencyError(i) == None
                <==> && start != end && (end < start ==> i.crossesMidnight != Some(false))
                     && 1.0 <= i.breakMinutes < span as real
                     && (i.minHoursForPresent.Some? ==>
                           i.minHoursForPresent.value <= (span as real - i.breakMinutes) / 60.0 + 0.000000001)
                     && (i.minHoursForPresent.Some? && i.minHoursForHalfDay.Some? ==>
                           i.minHoursForHalfDay.value < i.minHoursForPresent.value))
            && (ShiftConsistencyError(i) == Some(SameTime) <==> start == end)
            && (ShiftConsistencyError(i) == Some(EndsBeforeStart) <==> end < start && i.crossesMidnight == Some(false))
            && (ShiftConsistencyError(i) == Some(NoBreak) ==> i.breakMinutes < 1.0)
            && (ShiftConsistencyError(i) == Some(BreakTooLong) ==> i.breakMinutes >= span as real)
            && (ShiftConsistencyError(i) == Some(HalfDayNotBelowPresent) ==>
                  i.minHoursForPresent.Some? && i.minHoursForHalfDay.Some?
                  && i.minHoursForHalfDay.value >= i.minHoursForPresent.value)
  {
    SpanOfClockTimes(start, end);
  }

  lemma SpanOfClockTimes(start: int, end: int)
    requires 0 <= start < 1440 && 0 <= end < 1440
    ensures ToMinutes(Clock(start)) == Some(start) && ToMinutes(Clock(end)) == Some(end)
    ensures ShiftSpanMinutes(Clock(start), Clock(end))
         == Some(if start <= end then end - start else end - start + 1440)
  {
    ClockIsRead(start);
    ClockIsRead(end);
  }

  // ---- A worked day ----

  function Round(x: real): int {
    (x + 0.5).Floor
  }

  datatype DayStatus = ABSENT | HALF_DAY | PRESENT

  function StatusForWorkedMinutes(minutes: int, breakMinutes: real, minHoursForPresent: real,
                                  minHoursForHalfDay: real): DayStatus {
    var afterBreak := MaxReal(0.0, minutes as real - breakMinutes);
    if afterBreak >= Round(minHoursForPresent * 60.0) as real then PRESENT
    else if minutes >= Round(minHoursForHalfDay * 60.0) then HALF_DAY
    else ABSENT
  }

  /** Working longer never makes a day worse, whatever the settings. */
  lemma StatusNeverWorsens(minutes: int, more: int, breakMinutes: real, present: real, half: real)
    requires minutes <= more
    ensures var before := StatusForWorkedMinutes(minutes, breakMinutes, present, half);
            var after := StatusForWorkedMinutes(more, breakMinutes, present, half);
            (before == PRESENT ==> after == PRESENT) && (before != ABSENT ==> after != ABSENT)
  {
  }

  /** `whole` is the nearest whole number of minutes, the later of two. */
  ghost predicate Nearest(whole: int, minutes: real) {
    whole as real - 0.5 <= minutes < whole as real + 0.5
  }

  /**
   * What a day is worth: Present when the minutes left after the break reach the whole minutes nearest to the hours for
   * Present, else a half day when the minutes on the clock reach those of a half day, else Absent.
   */
  lemma WorkedDayIs(minutes: int, breakMinutes: real, present: real, half: real, p: int, h: int)
    requires Nearest(p, present * 60.0) && Nearest(h, half * 60.0)
    ensures var enough := p <= 0 || minutes as real - breakMinutes >= p as real;
            var status := StatusForWorkedMinutes(minutes, breakMinutes, present, half);
            && (status == PRESENT <==> enough)
            && (status == HALF_DAY <==> !enough && minutes >= h)
            && (status == ABSENT <==> !enough && minutes < h)
  {
    assert Round(present * 60.0) == p && Round(half * 60.0) == h;
  }

  ghost predicate Accepted(i: ShiftInputs) {
    && ShiftSpanMinutes(i.startTime, i.endTime).Some?
    && ShiftConsistencyError(i).None?
    && i.minHoursForPresent.Some? && i.minHoursForHalfDay.Some?
  }

  function StatusOfShift(i: ShiftInputs, minutes: int): DayStatus
    requires i.minHoursForPresent.Some? && i.minHoursForHalfDay.Some?
  {
    StatusForWorkedMinutes(minutes, i.breakMinutes, i.minHoursForPresent.value, i.minHoursForHalfDay.value)
  }

  function Fraction(x: real): real {
    x - x.Floor as real
  }

  lemma RoundIsMonotone(x: real, y: real)
    requires x <= y
    ensures Round(x) <= Round(y)
  {
  }

  /**
   * A break that leaves the net minutes less than half a minute above a whole one (every whole number of minutes does)
   * is exactly one for which no accepted minimum is out of reach: working the whole span is Present.
   */
  lemma WholeSpanIsPresentIff(i: ShiftInputs)
    requires Accepted(i)
    ensures var span := ShiftSpanMinutes(i.startTime, i.endTime).value;
            (forall present | Accepted(i.(minHoursForPresent := Some(present))) ::
               StatusOfShift(i.(minHoursForPresent := Some(present)), span) == PRESENT)
            <==> Fraction(span as real - i.breakMinutes) < 0.5 - TOLERANCE * 60.0
  {
    var span := ShiftSpanMinutes(i.startTime, i.endTime).value;
    var net := span as real - i.breakMinutes;
    var most := net / 60.0 + TOLERANCE;
    var most60 := net + TOLERANCE * 60.0;
    assert most * 60.0 == most60;
    var strictest := i.(minHoursForPresent := Some(most));
    assert Accepted(strictest);
    assert StatusOfShift(strictest, span) == PRESENT <==> net >= Round(most60) as real;
    RoundOfAlmost(net, TOLERANCE * 60.0);
    if net >= Round(most60) as real {
      forall present | Accepted(i.(minHoursForPresent := Some(present)))
        ensures StatusOfShift(i.(minHoursForPresent := Some(present)), span) == PRESENT
      {
        RoundIsMonotone(present * 60.0, most60);
      }
    }
  }

  lemma RoundOfAlmost(net: real, slack: real)
    requires 0.0 < slack < 0.5
    ensures net >= Round(net + slack) as real <==> Fraction(net) < 0.5 - slack
  {
    var whole := net.Floor;
    var x := net + slack + 0.5;
    if Fraction(net) < 0.5 - slack {
      assert whole as real <= x < whole as real + 1.0;
      assert x.Floor == whole;
    } else {
      assert x >= whole as real + 1.0;
      assert x.Floor >= whole + 1;
    }
  }

  /** Accepted settings with a whole number of break minutes can always be met, and leave room for a half day below. */
  lemma AcceptedShiftCanBeMet(i: ShiftInputs)
    requires Accepted(i) && Fraction(i.breakMinutes) == 0.0
    ensures var span := ShiftSpanMinutes(i.startTime, i.endTime).value;
            var present, half := Round(i.minHoursForPresent.value * 60.0), Round(i.minHoursForHalfDay.value * 60.0);
            && StatusOfShift(i, span) == PRESENT
            && half <= present
            && (present > 0 ==> StatusOfShift(i, Max(0, half)) == HALF_DAY && Max(0, half) < span)
  {
    var span := ShiftSpanMinutes(i.startTime, i.endTime).value;
    var net := span as real - i.breakMinutes;
    assert net == (span - i.breakMinutes.Floor) as real;
    WholeSpanIsPresentIff(i);
    assert Accepted(i.(minHoursForPresent := Some(i.minHoursForPresent.value)));
    assert i.(minHoursForPresent := Some(i.minHoursForPresent.value)) == i;
    RoundIsMonotone(i.minHoursForHalfDay.value * 60.0, i.minHoursForPresent.value * 60.0);
  }

  /** A break that is not a whole number of minutes is accepted too, and can put Present out of everyone's reach. */
  lemma FractionalBreakCanRuleOutPresent()
    ensures exists i :: Accepted(i) && StatusOfShift(i, ShiftSpanMinutes(i.startTime, i.endTime).value) != PRESENT
  {
    var i := ShiftInputs("09:00", "18:00", 60.5, Some(479.5 / 60.0), Some(4.0), Some(false));
    assert ToMinutes("09:00") == Some(540) && ToMinutes("18:00") == Some(1080);
    assert ShiftSpanMinutes("09:00", "18:00") == Some(540);
    assert Accepted(i);
    assert 479.5 / 60.0 * 60.0 == 479.5;
    assert Round(479.5) == 480;
  }

  // ---- Accepted times and punch windows ----

  function AsShift(i: ShiftInputs): ShiftDays.Shift
    requires ToMinutes(i.startTime).Some? && ToMinutes(i.endTime).Some? && i.crossesMidnight.Some?
  {
    ShiftDays.Shift(ToMinutes(i.startTime).value, ToMinutes(i.endTime).value, i.crossesMidnight.value)
  }

  /**
   * An accepted shift has its start and its end in its own day's punch window exactly when it is not a day shift
   * marked as overnight: that combination is accepted, and its end then belongs to the next day.
   */
  lemma AcceptedShiftFitsItsDayIff(i: ShiftInputs, offset: int, day: int)
    requires Accepted(i) && i.crossesMidnight.Some?
    ensures var shift, zone := AsShift(i), ZonedTime.OneChange(offset, offset, 0);
            var lastDay := if shift.crossesMidnight then day + 1 else day;
            ShiftDays.InWindow(zone, shift, day, ShiftDays.ShiftDateTime(zone, day, shift.start))
            && ShiftDays.InWindow(zone, shift, day, ShiftDays.ShiftDateTime(zone, lastDay, shift.end))
            <==> !(shift.crossesMidnight && shift.start < shift.end)
  {
    var shift := AsShift(i);
    if shift.crossesMidnight {
      ShiftDays.OvernightShiftStaysInOneDayIff(offset, shift, day);
    }
  }
}
