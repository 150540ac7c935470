// src/common/zoned-time.ts:33-47, src/common/org-date.ts:118-142: from a wall-clock time to an instant and back.
// Instants, wall-clock times and offsets are whole milliseconds; a wall-clock time is written as the UTC instant with
// the same fields. A zone is its offset at every instant, positive east of Greenwich.
module ZonedTime {
  type Zone = int -> int

  const DAY: int := 86_400_000

  function WallTime(zone: Zone, instant: int): int {
    instant + zone(instant)
  }

  function ZonedWallTimeToUtc(zone: Zone, naive: int): int {
    var result := naive - zone(naive);
    var again := naive - zone(result);
    if again != result then again else result
  }

  /** The local calendar day (counted from 1970-01-01) at an instant. */
  function DateInZone(zone: Zone, instant: int): int {
    WallTime(zone, instant) / DAY
  }

  /** Local midnight, corrected once. */
  function StartOfDay(zone: Zone, day: int): int {
    day * DAY - zone(day * DAY)
  }

  datatype Range = Range(gte: int, lt: int)

  function DayRange(zone: Zone, day: int): Range {
    var start := StartOfDay(zone, day);
    Range(start, StartOfDay(zone, DateInZone(zone, start + DAY + DAY / 2)))
  }

  /** A zone whose clocks change once. */
  function OneChange(before: int, after: int, change: int): Zone {
    instant => if instant < change then before else after
  }

  /** Near `naive`, further than any offset reaches, the zone's clocks change at most once. */
  ghost predicate OneChangeNear(zone: Zone, naive: int, reach: int, before: int, after: int, change: int) {
    && (forall t :: -reach <= zone(t) <= reach)
    && (forall t | naive - reach <= t <= naive + reach :: zone(t) == OneChange(before, after, change)(t))
  }

  predicate InGap(before: int, after: int, change: int, naive: int) {
    change + before <= naive < change + after
  }

  predicate InOverlap(before: int, after: int, change: int, naive: int) {
    change + after <= naive < change + before
  }

  /** The instants that carry a wall-clock time: none in the gap, two in the overlap, one elsewhere. */
  lemma InstantsOf(zone: Zone, naive: int, reach: int, before: int, after: int, change: int, t: int)
    requires OneChangeNear(zone, naive, reach, before, after, change)
    ensures WallTime(zone, t) == naive
            <==> (t == naive - before && naive < change + before && -reach <= before <= reach)
                 || (t == naive - after && naive >= change + after && -reach <= after <= reach)
  {
  }

  /**
   * The instant found shows exactly the wall-clock time asked for, unless no instant does: the time lies in the
   * spring-forward gap. In the gap the clock at the instant found is off by exactly the jump.
   */
  lemma WallTimeIsMetIff(zone: Zone, naive: int, reach: int, before: int, after: int, change: int)
    requires OneChangeNear(zone, naive, reach, before, after, change)
    requires -reach <= before <= reach && -reach <= after <= reach
    ensures var t := ZonedWallTimeToUtc(zone, naive);
            && (WallTime(zone, t) == naive <==> !InGap(before, after, change, naive))
            && (WallTime(zone, t) == naive <==> exists u :: WallTime(zone, u) == naive)
            && (InGap(before, after, change, naive) ==>
                  WallTime(zone, t) == naive + (after - before) || WallTime(zone, t) == naive - (after - before))
  {
  }

  /** Exactly in the fall-back overlap there are two right answers, and the one found is among them. */
  lemma OverlapGivesOneOfTwo(zone: Zone, naive: int, reach: int, before: int, after: int, change: int)
    requires OneChangeNear(zone, naive, reach, before, after, change)
    requires -reach <= before <= reach && -reach <= after <= reach
    ensures var first, second, t := naive - before, naive - after, ZonedWallTimeToUtc(zone, naive);
            && (InOverlap(before, after, change, naive)
                <==> first != second && WallTime(zone, first) == naive && WallTime(zone, second) == naive)
            && (InOverlap(before, after, change, naive) ==> first < second && (t == first || t == second))
  {
  }

  /** Away from any change the conversion undoes reading the clock. */
  lemma ReadingBackGivesTheInstant(zone: Zone, instant: int, reach: int, offset: int, change: int)
    requires OneChangeNear(zone, WallTime(zone, instant), reach, offset, offset, change)
    ensures ZonedWallTimeToUtc(zone, WallTime(zone, instant)) == instant
  {
  }

  /**
   * Exactly when one correction finds local midnight: when the clocks do not change between the date's UTC midnight and
   * the instant found, or change by nothing.
   */
  lemma StartOfDayIsMidnightIff(before: int, after: int, change: int, day: int)
    ensures var zone := OneChange(before, after, change);
            var found := day * DAY - if day * DAY < change then before else after;
            && StartOfDay(zone, day) == found
            && (WallTime(zone, found) == day * DAY <==> before == after || (day * DAY < change <==> found < change))
  {
  }

  /**
   * Correcting once is not enough: a day's first instant can show another time, where correcting twice finds
   * midnight.
   */
  lemma OneCorrectionCanMissMidnight()
    ensures exists before, after, change, day ::
              var zone := OneChange(before, after, change);
              && WallTime(zone, StartOfDay(zone, day)) != day * DAY
              && WallTime(zone, ZonedWallTimeToUtc(zone, day * DAY)) == day * DAY
  {
    var hour := 3_600_000;
    var zone := OneChange(3 * hour, 4 * hour, -hour);
    assert WallTime(zone, StartOfDay(zone, 0)) != 0 * DAY;
    assert WallTime(zone, ZonedWallTimeToUtc(zone, 0)) == 0 * DAY;
  }

  ghost predicate ChangesUnder(zone: Zone, bound: int) {
    forall t, u :: zone(t) - zone(u) < bound
  }

  /**
   * 36 hours after a day's start is the next local day whatever the clocks do, so a day's range ends where the next
   * begins.
   */
  lemma DayRangeEndsAtNextDay(zone: Zone, day: int)
    requires ChangesUnder(zone, DAY / 2)
    ensures DayRange(zone, day) == Range(StartOfDay(zone, day), StartOfDay(zone, day + 1))
  {
  }
}
