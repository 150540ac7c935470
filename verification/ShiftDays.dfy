// src/attendance/attendance.service.ts:204-300: which shift-day a punch belongs to. Days are counted from 1970-01-01,
// shift times are minutes of the day, instants are milliseconds.
module ShiftDays {
  import opened Prelude
  import opened ZonedTime

  const DAY_MINUTES: int := 1440
  const MINUTE: int := 60_000

  datatype Shift = Shift(start: int, end: int, crossesMidnight: bool)

  predicate ClockTimes(shift: Shift) {
    0 <= shift.start < DAY_MINUTES && 0 <= shift.end < DAY_MINUTES
  }

  /** JavaScript's remainder, which takes the sign of the dividend. */
  function Remainder(a: int, b: int): int
    requires b > 0
  {
    if a >= 0 then a % b else -(-a % b)
  }

  /** The off-shift gap from the shift's end to its next start, in minutes. */
  function Gap(shift: Shift): int {
    Remainder(Remainder(shift.start - shift.end, DAY_MINUTES) + DAY_MINUTES, DAY_MINUTES)
  }

  /** `(start - gap / 2)` minutes; half a gap can end on a half minute, so the product is written in milliseconds. */
  function BoundaryOffset(shift: Shift): int {
    if !shift.crossesMidnight then 0 else shift.start * MINUTE - Gap(shift) * (MINUTE / 2)
  }

  function PunchWindow(zone: Zone, shift: Shift, day: int): Range {
    var offset := BoundaryOffset(shift);
    Range(StartOfDay(zone, day) + offset, StartOfDay(zone, day + 1) + offset)
  }

  predicate InWindow(zone: Zone, shift: Shift, day: int, punch: int) {
    PunchWindow(zone, shift, day).gte <= punch < PunchWindow(zone, shift, day).lt
  }

  function ResolveDate(zone: Zone, shift: Shift, punch: int): int {
    DateInZone(zone, punch - BoundaryOffset(shift))
  }

  function ShiftDateTime(zone: Zone, day: int, minutes: int): int {
    StartOfDay(zone, day) + minutes * MINUTE
  }

  /** The promise written beside the code: every punch lies in the window of the day it is given. */
  ghost predicate EveryPunchIsInItsDay(zone: Zone, shift: Shift) {
    forall punch :: InWindow(zone, shift, ResolveDate(zone, shift, punch), punch)
  }

  // ---- Windows follow one another ----

  /** One day's window ends where the next begins, and no punch is in two windows. */
  lemma WindowsDoNotOverlap(zone: Zone, shift: Shift, day: int, other: int, punch: int)
    requires ChangesUnder(zone, DAY)
    ensures PunchWindow(zone, shift, day).lt == PunchWindow(zone, shift, day + 1).gte
    ensures InWindow(zone, shift, day, punch) && InWindow(zone, shift, other, punch) ==> day == other
  {
  }

  // ---- Fixed-offset zones ----

  /** In a fixed-offset zone a punch is in exactly one window, that of the day it resolves to. */
  lemma WindowsTileTheTimeline(offset: int, shift: Shift, punch: int, day: int)
    ensures var zone := OneChange(offset, offset, 0);
            InWindow(zone, shift, day, punch) <==> day == ResolveDate(zone, shift, punch)
  {
  }

  /** A shift that stays within its day has the calendar day as its window, and its punches go by their date. */
  lemma DayShiftGoesByTheDate(zone: Zone, shift: Shift, punch: int, day: int)
    requires !shift.crossesMidnight
    ensures PunchWindow(zone, shift, day) == Range(StartOfDay(zone, day), StartOfDay(zone, day + 1))
    ensures ResolveDate(zone, shift, punch) == DateInZone(zone, punch)
  {
  }

  /**
   * For a shift marked as overnight, every day's window holds the shift's start and its end on the next morning
   * exactly when the shift ends earlier in the day than it starts.
   */
  lemma OvernightShiftStaysInOneDayIff(offset: int, shift: Shift, day: int)
    requires ClockTimes(shift) && shift.crossesMidnight
    ensures var zone := OneChange(offset, offset, 0);
            InWindow(zone, shift, day, ShiftDateTime(zone, day, shift.start))
            && InWindow(zone, shift, day, ShiftDateTime(zone, day + 1, shift.end))
            <==> shift.end < shift.start
  {
  }

  /** So a worker's first and last punch of an overnight shift, and everything between, land on the day it began. */
  lemma OvernightPunchesResolveToTheStartDay(offset: int, shift: Shift, day: int, punch: int)
    requires ClockTimes(shift) && shift.crossesMidnight && shift.end < shift.start
    requires var zone := OneChange(offset, offset, 0);
             ShiftDateTime(zone, day, shift.start) <= punch <= ShiftDateTime(zone, day + 1, shift.end)
    ensures ResolveDate(OneChange(offset, offset, 0), shift, punch) == day
  {
  }

  /** A punch outside the shift goes to whichever shift is nearer: the night that ended, or the one to come. */
  lemma OffShiftPunchGoesToTheNearerShift(offset: int, shift: Shift, day: int, punch: int)
    requires ClockTimes(shift) && shift.crossesMidnight && shift.end < shift.start
    requires var zone := OneChange(offset, offset, 0);
             ShiftDateTime(zone, day, shift.end) <= punch <= ShiftDateTime(zone, day, shift.start)
    ensures var zone := OneChange(offset, offset, 0);
            var late := punch - ShiftDateTime(zone, day, shift.end);
            var early := ShiftDateTime(zone, day, shift.start) - punch;
            ResolveDate(zone, shift, punch) == if late < early then day - 1 else day
  {
    var zone := OneChange(offset, offset, 0);
    var late := punch - ShiftDateTime(zone, day, shift.end);
    var early := ShiftDateTime(zone, day, shift.start) - punch;
    var resolved := if late < early then day - 1 else day;
    assert Gap(shift) == shift.start - shift.end;
    assert InWindow(zone, shift, resolved, punch);
    WindowsTileTheTimeline(offset, shift, punch, resolved);
  }

  // ---- Zones whose clocks change ----

  /** The change does not fall between a day's midnight in UTC and its midnight under either offset. */
  predicate ChangeMissesMidnight(before: int, after: int, change: int, day: int) {
    if day * DAY < change then day * DAY - before <= change && day * DAY - after <= change
    else day * DAY - before >= change && day * DAY - after >= change
  }

  lemma LocalDayAtLeast(zone: Zone, t: int, day: int)
    ensures DateInZone(zone, t) >= day <==> t + zone(t) >= day * DAY
  {
  }

  /**
   * When the change stays clear of a day's midnight, the day's start separates exactly the instants dated before it.
   */
  lemma StartSeparatesDates(before: int, after: int, change: int, day: int, t: int)
    requires ChangeMissesMidnight(before, after, change, day)
    ensures var zone := OneChange(before, after, change);
            DateInZone(zone, t) >= day <==> t >= StartOfDay(zone, day)
  {
  }

  /** When it does not, some instant is on the wrong side of the day's start. */
  lemma MisplacedInstant(before: int, after: int, change: int, day: int) returns (t: int)
    requires before != after && !ChangeMissesMidnight(before, after, change, day)
    ensures var zone := OneChange(before, after, change);
            (DateInZone(zone, t) >= day) != (t >= StartOfDay(zone, day))
  {
    var zone := OneChange(before, after, change);
    var one, other := day * DAY - before, day * DAY - after;
    t := if day * DAY < change then Max(change, Min(one, other)) else Min(change, Max(one, other)) - 1;
    LocalDayAtLeast(zone, t, day);
  }

  lemma MisplacedInstantLeavesItsWindow(zone: Zone, shift: Shift, day: int, t: int)
    requires ChangesUnder(zone, DAY)
    requires (DateInZone(zone, t) >= day) != (t >= StartOfDay(zone, day))
    ensures var punch := t + BoundaryOffset(shift); !InWindow(zone, shift, ResolveDate(zone, shift, punch), punch)
  {
  }

  /**
   * Exactly when the promise holds: in a zone whose clocks change once (by less than a day), every punch lies in the
   * window of its day if and only if the change never falls between a UTC midnight and the local midnight of that date,
   * since the start of a day is corrected only once.
   */
  lemma EveryPunchIsInItsDayIff(before: int, after: int, change: int, shift: Shift)
    requires -DAY < after - before < DAY
    ensures EveryPunchIsInItsDay(OneChange(before, after, change), shift)
            <==> before == after || forall day :: ChangeMissesMidnight(before, after, change, day)
  {
    var zone := OneChange(before, after, change);
    if before == after {
      forall punch
        ensures InWindow(zone, shift, ResolveDate(zone, shift, punch), punch)
      {
        FixedOffsetHolds(before, change, shift, punch);
      }
    } else if day :| !ChangeMissesMidnight(before, after, change, day) {
      var t := MisplacedInstant(before, after, change, day);
      MisplacedInstantLeavesItsWindow(zone, shift, day, t);
      assert !InWindow(zone, shift, ResolveDate(zone, shift, t + BoundaryOffset(shift)), t + BoundaryOffset(shift));
    } else {
      forall punch
        ensures InWindow(zone, shift, ResolveDate(zone, shift, punch), punch)
      {
        var date := ResolveDate(zone, shift, punch);
        StartSeparatesDates(before, after, change, date, punch - BoundaryOffset(shift));
        StartSeparatesDates(before, after, change, date + 1, punch - BoundaryOffset(shift));
      }
    }
  }

  lemma FixedOffsetHolds(offset: int, change: int, shift: Shift, punch: int)
    ensures var zone := OneChange(offset, offset, change);
            InWindow(zone, shift, ResolveDate(zone, shift, punch), punch)
  {
  }

  /** Clocks that go from UTC+2 to UTC+3 at midnight UTC put the last hour of the day before outside its own window. */
  lemma AClockChangeCanBreakThePromise()
    ensures var hour := 60 * MINUTE;
            !EveryPunchIsInItsDay(OneChange(2 * hour, 3 * hour, 0), Shift(540, 1080, false))
  {
    var hour := 60 * MINUTE;
    assert !ChangeMissesMidnight(2 * hour, 3 * hour, 0, 0);
    EveryPunchIsInItsDayIff(2 * hour, 3 * hour, 0, Shift(540, 1080, false));
  }
}
