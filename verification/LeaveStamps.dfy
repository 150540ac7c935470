// src/attendance/attendance.service.ts:3634-3767: approved leaves stamp attendance days and cancelled leaves revert
// them. One employee's rows, keyed by day number; `details` stands for every column the stamps never touch.
module LeaveStamps {
  import opened Attendance
  import opened Prelude

  type Day = int
  type LeaveId = nat

  datatype DayRow = DayRow(
    status: Status,
    source: Source,
    overriddenStatus: Option<Status>,
    overriddenSource: Option<Source>,
    details: nat)

  /** `onlyDates` are the charged days when they are fewer than the whole range. */
  datatype Leave = Leave(startDate: Day, endDate: Day, isHalfDay: bool, onlyDates: Option<seq<Day>>)

  const NO_DETAILS: nat := 0

  // ---- Dates ----

  function DatesBetween(start: Day, end: Day): (dates: seq<Day>)
    ensures forall d :: d in dates <==> start <= d <= end
    ensures |dates| == Max(0, end - start + 1)
    ensures forall i :: 0 <= i < |dates| ==> dates[i] == start + i
    decreases end - start
  {
    if end < start then [] else DatesBetween(start, end - 1) + [end]
  }

  method EnumerateDates(start: Day, end: Day) returns (dates: seq<Day>)
    ensures dates == DatesBetween(start, end)
  {
    dates := [];
    var current := start;
    while current <= end
      invariant start <= current <= Max(start, end + 1)
      invariant dates == DatesBetween(start, current - 1)
    {
      dates := dates + [current];
      current := current + 1;
    }
  }

  function StampDates(leave: Leave): seq<Day> {
    match leave.onlyDates
    case Some(dates) => dates
    case None => DatesBetween(leave.startDate, leave.endDate)
  }

  predicate Covers(leave: Leave, d: Day) {
    leave.startDate <= d <= leave.endDate
  }

  ghost predicate Stamps(leave: Leave, d: Day) {
    d in StampDates(leave)
  }

  /**
   * What the leave rules admit: charged days lie in the range once each, and a half day is one date, which it stamps.
   */
  ghost predicate WellFormed(leave: Leave) {
    && (forall d :: Stamps(leave, d) ==> Covers(leave, d))
    && (forall i, j :: 0 <= i < j < |StampDates(leave)| ==> StampDates(leave)[i] != StampDates(leave)[j])
    && (leave.isHalfDay ==> leave.startDate == leave.endDate && Stamps(leave, leave.startDate))
  }

  // ---- One day ----

  function StatusOf(isHalfDay: bool): Status {
    if isHalfDay then HALF_DAY else ON_LEAVE
  }

  function OrElse<T>(o: Option<T>, default: T): T {
    if o.Some? then o.value else default
  }

  function StampedRow(r: DayRow, isHalfDay: bool): DayRow {
    if isHalfDay && r.status == HALF_DAY && r.source == SYSTEM then
      r.(status := ON_LEAVE, source := SYSTEM)
    else
      r.(status := StatusOf(isHalfDay), source := SYSTEM,
         overriddenStatus := Some(OrElse(r.overriddenStatus, r.status)),
         overriddenSource := Some(OrElse(r.overriddenSource, r.source)))
  }

  function StampDay(row: Option<DayRow>, isHalfDay: bool): Option<DayRow> {
    match row
    case Some(r) => Some(StampedRow(r, isHalfDay))
    case None => Some(DayRow(StatusOf(isHalfDay), SYSTEM, None, None, NO_DETAILS))
  }

  /**
   * `after` is `before` under a leave stamp, column by column: the second half of a day off makes it a whole one, and
   * what the day was before its first stamp is remembered.
   */
  ghost predicate HasStamp(before: Option<DayRow>, after: Option<DayRow>, isHalfDay: bool) {
    && after.Some? && after.value.source == SYSTEM
    && match before
       case None =>
         && after.value.status == (if isHalfDay then HALF_DAY else ON_LEAVE) && after.value.details == NO_DETAILS
         && after.value.overriddenStatus == None && after.value.overriddenSource == None
       case Some(r) =>
         && after.value.details == r.details
         && if isHalfDay && r.status == HALF_DAY && r.source == SYSTEM
            then
              && after.value.status == ON_LEAVE
              && after.value.overriddenStatus == r.overriddenStatus
              && after.value.overriddenSource == r.overriddenSource
            else
              && after.value.status == (if isHalfDay then HALF_DAY else ON_LEAVE)
              && after.value.overriddenStatus == (if r.overriddenStatus == None then Some(r.status)
                                                  else r.overriddenStatus)
              && after.value.overriddenSource == (if r.overriddenSource == None then Some(r.source)
                                                  else r.overriddenSource)
  }

  predicate IsStamp(r: DayRow) {
    r.source == SYSTEM && (r.status == ON_LEAVE || r.status == HALF_DAY)
  }

  /** What reverting does to a day, given whether other approved leaves cover it and whether those are all half days. */
  function RevertDay(row: Option<DayRow>, covered: bool, onlyHalves: bool): Option<DayRow> {
    if row.None? || !IsStamp(row.value) then row
    else if covered then Some(row.value.(status := if onlyHalves then HALF_DAY else ON_LEAVE))
    else if row.value.overriddenStatus.Some? then
      Some(row.value.(status := row.value.overriddenStatus.value,
                      source := OrElse(row.value.overriddenSource, FACE_API),
                      overriddenStatus := None, overriddenSource := None))
    else None
  }

  predicate CoveredBy(leaves: map<LeaveId, Leave>, except: LeaveId, d: Day) {
    exists id :: id in leaves && id != except && Covers(leaves[id], d)
  }

  predicate OnlyHalvesCover(leaves: map<LeaveId, Leave>, except: LeaveId, d: Day) {
    forall id :: id in leaves && id != except && Covers(leaves[id], d) ==> leaves[id].isHalfDay
  }

  // ---- The table ----

  function Get(rows: map<Day, DayRow>, d: Day): Option<DayRow> {
    if d in rows then Some(rows[d]) else None
  }

  class AttendanceTable {
    var rows: map<Day, DayRow>

    constructor (rows: map<Day, DayRow>)
      ensures this.rows == rows
    {
      this.rows := rows;
    }

    method WriteAttendanceForApprovedLeave(leave: Leave)
      requires WellFormed(leave)
      modifies this
      ensures IsStampedBy(leave, old(rows), rows) && HasStampOnItsDates(leave, old(rows), rows)
    {
      var dates := StampDates(leave);
      var existing := rows;
      // One update per day that has a row ...
      var i := 0;
      while i < |dates|
        invariant 0 <= i <= |dates| && existing == old(rows)
        invariant forall d :: Get(rows, d) == if d in dates[..i] && d in existing
                  then Some(StampedRow(existing[d], leave.isHalfDay))
                                              else Get(existing, d)
      {
        if dates[i] in existing {
          rows := rows[dates[i] := StampedRow(existing[dates[i]], leave.isHalfDay)];
        }
        i := i + 1;
      }
      // ... then a new row for every day without one.
      var j := 0;
      while j < |dates|
        invariant 0 <= j <= |dates|
        invariant forall d :: Get(rows, d) ==
                    if d in dates && d in existing then Some(StampedRow(existing[d], leave.isHalfDay))
                    else if d in dates[..j] then StampDay(None, leave.isHalfDay)
                    else Get(existing, d)
      {
        if dates[j] !in existing {
          rows := rows[dates[j] := DayRow(StatusOf(leave.isHalfDay), SYSTEM, None, None, NO_DETAILS)];
        }
        j := j + 1;
      }
      StampsItsDates(leave, existing, rows);
    }

    /** `leaves` are the approved leaves, the cancelled one (`id`) possibly still among them. */
    method RevertAttendanceForLeave(leave: Leave, id: LeaveId, leaves: map<LeaveId, Leave>)
      modifies this
      ensures forall d :: Get(rows, d) ==
                if Covers(leave, d) then RevertDay(Get(old(rows), d), CoveredBy(leaves, id, d),
                    OnlyHalvesCover(leaves, id, d))
                else Get(old(rows), d)
    {
      var dates := EnumerateDates(leave.startDate, leave.endDate);
      var before := rows;
      var i := 0;
      while i < |dates|
        invariant 0 <= i <= |dates| && before == old(rows)
        invariant forall d :: Get(rows, d) ==
                    if d in dates[..i] then RevertDay(Get(before, d), CoveredBy(leaves, id, d),
                        OnlyHalvesCover(leaves, id, d))
                    else Get(before, d)
      {
        var d := dates[i];
        assert d !in dates[..i] && dates[..i + 1] == dates[..i] + [d];
        if d in rows && IsStamp(rows[d]) {
          var covering := set o | o in leaves && o != id && Covers(leaves[o], d);
          CoveringIsCovered(leaves, id, d, covering);
          if covering != {} {
            rows := rows[d := rows[d].(
              status := if forall o :: o in covering ==> leaves[o].isHalfDay then HALF_DAY else ON_LEAVE)];
          } else if rows[d].overriddenStatus.Some? {
            rows := rows[d := rows[d].(status := rows[d].overriddenStatus.value,
                                       source := OrElse(rows[d].overriddenSource, FACE_API),
                                       overriddenStatus := None, overriddenSource := None)];
          } else {
            rows := rows - {d};
          }
        }
        i := i + 1;
      }
      assert dates[..i] == dates;
    }
  }

  ghost predicate IsStampedBy(leave: Leave, before: map<Day, DayRow>, after: map<Day, DayRow>) {
    forall d :: Get(after, d) == if Stamps(leave, d) then StampDay(Get(before, d), leave.isHalfDay) else Get(before, d)
  }

  ghost predicate HasStampOnItsDates(leave: Leave, before: map<Day, DayRow>, after: map<Day, DayRow>) {
    forall d ::
      if (leave.onlyDates.Some? && d in leave.onlyDates.value)
         || (leave.onlyDates.None? && leave.startDate <= d <= leave.endDate)
      then HasStamp(Get(before, d), Get(after, d), leave.isHalfDay)
      else Get(after, d) == Get(before, d)
  }

  lemma StampsItsDates(leave: Leave, before: map<Day, DayRow>, after: map<Day, DayRow>)
    requires IsStampedBy(leave, before, after)
    ensures HasStampOnItsDates(leave, before, after)
  {
  }

  lemma CoveringIsCovered(leaves: map<LeaveId, Leave>, id: LeaveId, d: Day, covering: set<LeaveId>)
    requires covering == set o | o in leaves && o != id && Covers(leaves[o], d)
    ensures covering != {} <==> CoveredBy(leaves, id, d)
    ensures (forall o :: o in covering ==> leaves[o].isHalfDay) <==> OnlyHalvesCover(leaves, id, d)
  {
    if CoveredBy(leaves, id, d) {
      var o :| o in leaves && o != id && Covers(leaves[o], d);
      assert o in covering;
    }
  }

  // ---- Runs of approvals, cancellations and other writes ----

  datatype State = State(rows: map<Day, DayRow>, leaves: map<LeaveId, Leave>)

  /** `Edit`: something else writes the day, a regularization, an import or a punch. */
  datatype Event = Approve(id: LeaveId, leave: Leave) | Cancel(id: LeaveId) | Edit(day: Day, row: DayRow)

  /**
   * The overlap rule: two approved leaves may share a date only if both are half days, and then no third one does.
   */
  ghost predicate Compatible(leaves: map<LeaveId, Leave>) {
    && (forall a, b, d :: a in leaves && b in leaves && a != b && Covers(leaves[a], d) && Covers(leaves[b], d) ==>
          leaves[a].isHalfDay && leaves[b].isHalfDay)
    && (forall a, b, c, d | a in leaves && b in leaves && c in leaves && a != b && b != c && a != c ::
          !(Covers(leaves[a], d) && Covers(leaves[b], d) && Covers(leaves[c], d)))
  }

  datatype Session = FIRST_HALF | SECOND_HALF

  /** The check a leave passes before it is created, against each leave of the employee already there. */
  predicate RangesOverlap(a: Leave, sessionA: Option<Session>, b: Leave, sessionB: Option<Session>) {
    && a.startDate <= b.endDate && b.startDate <= a.endDate
    && !(a.startDate == a.endDate == b.startDate == b.endDate && a.isHalfDay && b.isHalfDay
         && sessionA.Some? && sessionB.Some? && sessionA != sessionB)
  }

  /** The leave takes this half of the date; a half day that names no half may be either, so it takes both. */
  ghost predicate Takes(leave: Leave, session: Option<Session>, d: Day, half: Session) {
    leave.startDate <= d <= leave.endDate && (leave.isHalfDay ==> session == None || session == Some(half))
  }

  /** Two leaves overlap if and only if there is a half of a date that both take. */
  lemma OverlapIffSharedHalf(a: Leave, sessionA: Option<Session>, b: Leave, sessionB: Option<Session>)
    requires a.startDate <= a.endDate && (a.isHalfDay ==> a.startDate == a.endDate)
    requires b.startDate <= b.endDate && (b.isHalfDay ==> b.startDate == b.endDate)
    ensures RangesOverlap(a, sessionA, b, sessionB)
       <==> exists d, half :: Takes(a, sessionA, d, half) && Takes(b, sessionB, d, half)
  {
    if RangesOverlap(a, sessionA, b, sessionB) {
      var d := Max(a.startDate, b.startDate);
      var half := if a.isHalfDay && sessionA.Some? then sessionA.value
                  else if b.isHalfDay && sessionB.Some? then sessionB.value else FIRST_HALF;
      assert Takes(a, sessionA, d, half) && Takes(b, sessionB, d, half);
    }
  }

  lemma SharedOnlyByHalves(a: Leave, sessionA: Option<Session>, b: Leave, sessionB: Option<Session>, d: Day)
    requires !RangesOverlap(a, sessionA, b, sessionB) && Covers(a, d) && Covers(b, d)
    ensures a.isHalfDay && b.isHalfDay
    ensures sessionA.Some? && sessionB.Some? && sessionA.value.FIRST_HALF? != sessionB.value.FIRST_HALF?
  {
  }

  ghost predicate PassOverlapCheck(leaves: map<LeaveId, Leave>, session: LeaveId -> Option<Session>, a: LeaveId,
                                   b: LeaveId) {
    a in leaves && b in leaves && a != b ==> !RangesOverlap(leaves[a], session(a), leaves[b], session(b))
  }

  /**
   * With two sessions to a day, leaves that pass the check pairwise are compatible: there is no room for a third
   * half.
   */
  lemma OverlapCheckMakesCompatible(leaves: map<LeaveId, Leave>, session: LeaveId -> Option<Session>)
    requires forall a, b :: PassOverlapCheck(leaves, session, a, b)
    ensures Compatible(leaves)
  {
    forall a, b, d | a in leaves && b in leaves && a != b && Covers(leaves[a], d) && Covers(leaves[b], d)
      ensures leaves[a].isHalfDay && leaves[b].isHalfDay
    {
      assert PassOverlapCheck(leaves, session, a, b);
      SharedOnlyByHalves(leaves[a], session(a), leaves[b], session(b), d);
    }
    forall a, b, c, d | a in leaves && b in leaves && c in leaves && a != b && b != c && a != c
      ensures !(Covers(leaves[a], d) && Covers(leaves[b], d) && Covers(leaves[c], d))
    {
      NoThirdHalf(leaves, session, a, b, c, d);
    }
  }

  lemma NoThirdHalf(leaves: map<LeaveId, Leave>, session: LeaveId -> Option<Session>, a: LeaveId, b: LeaveId,
                    c: LeaveId, d: Day)
    requires a in leaves && b in leaves && c in leaves && a != b && b != c && a != c
    requires PassOverlapCheck(leaves, session, a, b) && PassOverlapCheck(leaves, session, b, c)
    requires PassOverlapCheck(leaves, session, a, c)
    ensures !(Covers(leaves[a], d) && Covers(leaves[b], d) && Covers(leaves[c], d))
  {
    if Covers(leaves[a], d) && Covers(leaves[b], d) && Covers(leaves[c], d) {
      SharedOnlyByHalves(leaves[a], session(a), leaves[b], session(b), d);
      SharedOnlyByHalves(leaves[b], session(b), leaves[c], session(c), d);
      SharedOnlyByHalves(leaves[a], session(a), leaves[c], session(c), d);
      assert false;
    }
  }

  ghost predicate Enabled(s: State, e: Event) {
    match e
    case Approve(id, leave) => id !in s.leaves && WellFormed(leave) && Compatible(s.leaves[id := leave])
    case Cancel(id) => id in s.leaves
    case Edit(_, _) => true
  }

  /** `t` is what the two methods, or another write, leave of `s`. */
  ghost predicate Next(s: State, e: Event, t: State) {
    match e
    case Approve(id, leave) =>
      t.leaves == s.leaves[id := leave] && IsStampedBy(leave, s.rows, t.rows)
    case Cancel(id) =>
      && id in s.leaves && t.leaves == s.leaves - {id}
      && forall d :: Get(t.rows, d) ==
           if Covers(s.leaves[id], d)
               then RevertDay(Get(s.rows, d), CoveredBy(s.leaves, id, d), OnlyHalvesCover(s.leaves, id, d))
           else Get(s.rows, d)
    case Edit(day, row) => t == State(s.rows[day := row], s.leaves)
  }

  /**
   * An approval stamps the charged days and no other: those listed when the leave lists them, its whole range when it
   * does not.
   */
  lemma ApprovalStampsItsDates(s: State, id: LeaveId, leave: Leave, t: State, d: Day)
    requires Enabled(s, Approve(id, leave)) && Next(s, Approve(id, leave), t)
    ensures if (leave.onlyDates.Some? && d in leave.onlyDates.value)
               || (leave.onlyDates.None? && leave.startDate <= d <= leave.endDate)
            then HasStamp(Get(s.rows, d), Get(t.rows, d), leave.isHalfDay)
            else (d in t.rows <==> d in s.rows) && (d in s.rows ==> t.rows[d] == s.rows[d])
  {
    StampsItsDates(leave, s.rows, t.rows);
    assert Get(s.rows, d) == Get(t.rows, d) || HasStamp(Get(s.rows, d), Get(t.rows, d), leave.isHalfDay);
  }

  /**
   * A cancellation touches only the SYSTEM leave stamps in the leave's range. Another approved leave over the day keeps
   * a stamp there, a half day exactly when all of them are; otherwise the day gets back what was remembered, or goes.
   */
  lemma CancellationPutsDaysBack(s: State, id: LeaveId, t: State, d: Day)
    requires id in s.leaves && Next(s, Cancel(id), t)
    ensures var others := set o | o in s.leaves && o != id && s.leaves[o].startDate <= d <= s.leaves[o].endDate;
            if !(s.leaves[id].startDate <= d <= s.leaves[id].endDate) || d !in s.rows || s.rows[d].source != SYSTEM
               || (s.rows[d].status != ON_LEAVE && s.rows[d].status != HALF_DAY)
            then (d in t.rows <==> d in s.rows) && (d in s.rows ==> t.rows[d] == s.rows[d])
            else if others != {} then
              && d in t.rows
              && t.rows[d] == s.rows[d].(status := if forall o :: o in others ==> s.leaves[o].isHalfDay
                                                   then HALF_DAY else ON_LEAVE)
            else if s.rows[d].overriddenStatus == None then d !in t.rows
            else
              && d in t.rows && t.rows[d].status == s.rows[d].overriddenStatus.value
              && t.rows[d].source == (if s.rows[d].overriddenSource == None then FACE_API
                                      else s.rows[d].overriddenSource.value)
              && t.rows[d].details == s.rows[d].details
              && t.rows[d].overriddenStatus == None && t.rows[d].overriddenSource == None
  {
    var others := set o | o in s.leaves && o != id && Covers(s.leaves[o], d);
    CoveringIsCovered(s.leaves, id, d, others);
    assert Get(t.rows, d) == if Covers(s.leaves[id], d)
                             then RevertDay(Get(s.rows, d), CoveredBy(s.leaves, id, d),
                                            OnlyHalvesCover(s.leaves, id, d))
                             else Get(s.rows, d);
  }

  // ---- The row as a function of the original row and the approved leaves ----

  ghost predicate Stamped(leaves: map<LeaveId, Leave>, d: Day) {
    exists a :: a in leaves && Stamps(leaves[a], d)
  }

  ghost predicate WholeDay(leaves: map<LeaveId, Leave>, d: Day) {
    || (exists a :: a in leaves && Stamps(leaves[a], d) && !leaves[a].isHalfDay)
    || (exists a, b :: a in leaves && b in leaves && a != b && Stamps(leaves[a], d) && Stamps(leaves[b], d))
  }

  /** The original day under a leave stamp of the given status. */
  function Under(original: Option<DayRow>, status: Status): Option<DayRow> {
    match original
    case Some(r) => Some(r.(status := status, source := SYSTEM,
                            overriddenStatus := Some(r.status), overriddenSource := Some(r.source)))
    case None => Some(DayRow(status, SYSTEM, None, None, NO_DETAILS))
  }

  /** No leave: the original day; one half day: HALF_DAY; a full day or two halves: ON_LEAVE. */
  ghost function Expected(original: Option<DayRow>, leaves: map<LeaveId, Leave>, d: Day): Option<DayRow> {
    if !Stamped(leaves, d) then original
    else if WholeDay(leaves, d) then Under(original, ON_LEAVE)
    else Under(original, HALF_DAY)
  }

  /** A day the stamps can be told apart from: nothing remembered, and not itself a leave stamp. */
  predicate Clean(row: Option<DayRow>) {
    row.Some? ==> row.value.overriddenStatus.None? && row.value.overriddenSource.None? && !IsStamp(row.value)
  }

  /** The approved leaves are ones the rules admit. */
  ghost predicate Admitted(leaves: map<LeaveId, Leave>) {
    Compatible(leaves) && forall id :: id in leaves ==> WellFormed(leaves[id])
  }

  /** The day is what `origin` and its approved leaves say it is. */
  ghost predicate Follows(s: State, d: Day, origin: Option<DayRow>) {
    Get(s.rows, d) == Expected(origin, s.leaves, d)
  }

  lemma StampedWith(leaves: map<LeaveId, Leave>, id: LeaveId, leave: Leave, d: Day)
    requires id !in leaves
    ensures Stamped(leaves[id := leave], d) <==> Stamped(leaves, d) || Stamps(leave, d)
  {
    var all := leaves[id := leave];
    assert all[id] == leave;
    if Stamped(leaves, d) {
      var a :| a in leaves && Stamps(leaves[a], d);
      assert a in all && Stamps(all[a], d);
    }
  }

  lemma WholeDayWith(leaves: map<LeaveId, Leave>, id: LeaveId, leave: Leave, d: Day)
    requires id !in leaves
    ensures WholeDay(leaves[id := leave], d)
       <==> WholeDay(leaves, d) || (Stamps(leave, d) && (!leave.isHalfDay || Stamped(leaves, d)))
  {
    var all := leaves[id := leave];
    assert all[id] == leave;
    assert forall a :: a in leaves ==> a in all && all[a] == leaves[a] && a != id;
    if WholeDay(leaves, d) {
      if a :| a in leaves && Stamps(leaves[a], d) && !leaves[a].isHalfDay {
        assert Stamps(all[a], d);
      } else {
        var a, b :| a in leaves && b in leaves && a != b && Stamps(leaves[a], d) && Stamps(leaves[b], d);
        assert Stamps(all[a], d) && Stamps(all[b], d);
      }
    }
    if Stamps(leave, d) && Stamped(leaves, d) {
      var a :| a in leaves && Stamps(leaves[a], d);
      assert Stamps(all[a], d) && Stamps(all[id], d);
    }
  }

  // With another leave on the date, both are half days and nothing else is there.
  lemma SharedDate(leaves: map<LeaveId, Leave>, id: LeaveId, leave: Leave, d: Day, other: LeaveId)
    requires id !in leaves && Compatible(leaves[id := leave]) && Covers(leave, d)
    requires forall a :: a in leaves ==> WellFormed(leaves[a])
    requires other in leaves && Covers(leaves[other], d)
    ensures leave.isHalfDay && leaves[other].isHalfDay && Stamps(leaves[other], d)
    ensures forall a :: a in leaves && Covers(leaves[a], d) ==> a == other
    ensures Stamped(leaves, d) && !WholeDay(leaves, d)
  {
    var all := leaves[id := leave];
    assert all[id] == leave && all[other] == leaves[other];
    assert Covers(all[id], d) && Covers(all[other], d);
    forall a | a in leaves && Covers(leaves[a], d)
      ensures a == other
    {
      assert all[a] == leaves[a] && Covers(all[a], d);
    }
  }

  lemma Unshared(leaves: map<LeaveId, Leave>, d: Day)
    requires forall a :: a in leaves ==> WellFormed(leaves[a]) && !Covers(leaves[a], d)
    ensures !Stamped(leaves, d) && !WholeDay(leaves, d)
  {
  }

  lemma ApproveDay(original: Option<DayRow>, leaves: map<LeaveId, Leave>, id: LeaveId, leave: Leave, d: Day)
    requires Clean(original) && id !in leaves && WellFormed(leave) && Compatible(leaves[id := leave])
    requires forall a :: a in leaves ==> WellFormed(leaves[a])
    ensures Expected(original, leaves[id := leave], d)
         == if Stamps(leave, d) then StampDay(Expected(original, leaves, d), leave.isHalfDay)
             else Expected(original, leaves, d)
  {
    StampedWith(leaves, id, leave, d);
    WholeDayWith(leaves, id, leave, d);
    if Stamps(leave, d) {
      if other :| other in leaves && Covers(leaves[other], d) {
        SharedDate(leaves, id, leave, d, other);
      } else {
        Unshared(leaves, d);
      }
    }
  }

  lemma CancelDay(original: Option<DayRow>, leaves: map<LeaveId, Leave>, id: LeaveId, leave: Leave, d: Day)
    requires Clean(original) && id !in leaves && WellFormed(leave) && Compatible(leaves[id := leave])
    requires forall a :: a in leaves ==> WellFormed(leaves[a])
    ensures var row := Expected(original, leaves[id := leave], d);
            Expected(original, leaves, d)
            == if Covers(leave, d) then RevertDay(row, CoveredBy(leaves, id, d), OnlyHalvesCover(leaves, id, d))
                else row
  {
    StampedWith(leaves, id, leave, d);
    WholeDayWith(leaves, id, leave, d);
    if Covers(leave, d) {
      if other :| other in leaves && Covers(leaves[other], d) {
        SharedDate(leaves, id, leave, d, other);
        assert CoveredBy(leaves, id, d);
      } else {
        Unshared(leaves, d);
      }
    }
  }

  lemma CoverIgnoresItself(leaves: map<LeaveId, Leave>, id: LeaveId, d: Day)
    ensures CoveredBy(leaves, id, d) == CoveredBy(leaves - {id}, id, d)
    ensures OnlyHalvesCover(leaves, id, d) == OnlyHalvesCover(leaves - {id}, id, d)
  {
    var rest := leaves - {id};
    assert forall o :: o in rest <==> o in leaves && o != id;
    if CoveredBy(leaves, id, d) {
      var o :| o in leaves && o != id && Covers(leaves[o], d);
      assert o in rest && Covers(rest[o], d);
    }
    if OnlyHalvesCover(rest, id, d) {
      forall o | o in leaves && o != id && Covers(leaves[o], d)
        ensures leaves[o].isHalfDay
      {
        assert o in rest && Covers(rest[o], d);
      }
    }
  }

  lemma StepKeepsAdmitted(s: State, e: Event, t: State)
    requires Admitted(s.leaves) && Enabled(s, e) && Next(s, e, t)
    ensures Admitted(t.leaves)
  {
    if e.Cancel? {
      CompatibleWithout(s.leaves, e.id);
    }
  }

  lemma StepKeepsDay(s: State, e: Event, t: State, d: Day, origin: Option<DayRow>)
    requires Admitted(s.leaves) && Enabled(s, e) && Next(s, e, t)
    requires Clean(origin) && Follows(s, d, origin) && !(e.Edit? && e.day == d)
    ensures Follows(t, d, origin)
  {
    match e {
      case Approve(id, leave) => ApproveDay(origin, s.leaves, id, leave, d);
      case Cancel(id) =>
        assert s.leaves == t.leaves[id := s.leaves[id]];
        CompatibleWithout(s.leaves, id);
        CoverIgnoresItself(s.leaves, id, d);
        CancelDay(origin, t.leaves, id, s.leaves[id], d);
      case Edit(_, _) =>
    }
  }

  lemma CompatibleWithout(leaves: map<LeaveId, Leave>, id: LeaveId)
    requires Compatible(leaves)
    ensures Compatible(leaves - {id})
  {
  }

  ghost predicate Run(original: map<Day, DayRow>, states: seq<State>, events: seq<Event>) {
    && |states| == |events| + 1
    && states[0] == State(original, map[])
    && forall i :: 0 <= i < |events| ==> Enabled(states[i], events[i]) && Next(states[i], events[i], states[i + 1])
  }

  lemma {:induction false} LeavesStayAdmitted(
      original: map<Day, DayRow>, states: seq<State>, events: seq<Event>, i: nat)
    requires Run(original, states, events) && i < |states|
    ensures Admitted(states[i].leaves)
  {
    if i > 0 {
      LeavesStayAdmitted(original, states, events, i - 1);
      StepKeepsAdmitted(states[i - 1], events[i - 1], states[i]);
    }
  }

  ghost predicate Untouched(events: seq<Event>, i: nat, j: nat, d: Day)
    requires j <= |events|
  {
    forall k :: i <= k < j ==> !(events[k].Edit? && events[k].day == d)
  }

  lemma {:induction false} DayFollowsFrom(
      original: map<Day, DayRow>, states: seq<State>, events: seq<Event>, i: nat, j: nat, d: Day,
          origin: Option<DayRow>)
    requires Run(original, states, events) && i <= j < |states| && Untouched(events, i, j, d)
    requires Clean(origin) && Follows(states[i], d, origin)
    ensures Follows(states[j], d, origin)
  {
    if i < j {
      DayFollowsFrom(original, states, events, i, j - 1, d, origin);
      LeavesStayAdmitted(original, states, events, j - 1);
      assert Next(states[j - 1], events[j - 1], states[j]);
      StepKeepsDay(states[j - 1], events[j - 1], states[j], d, origin);
    }
  }

  /**
   * After any approvals and cancellations, whatever is written to other days, a day nothing else has written is what
   * its original row and its approved leaves say it is.
   */
  lemma DaysFollowTheirLeaves(original: map<Day, DayRow>, states: seq<State>, events: seq<Event>, j: nat, d: Day)
    requires Run(original, states, events) && j < |states|
    requires Clean(Get(original, d)) && Untouched(events, 0, j, d)
    ensures Get(states[j].rows, d) == Expected(Get(original, d), states[j].leaves, d)
  {
    DayFollowsFrom(original, states, events, 0, j, d, Get(original, d));
  }

  /**
   * And a day something else has written starts afresh at the last such write, if that left it clean and no approved
   * leave stamped it then: from there on the row written is its original, so cancelling later leaves brings it back.
   */
  lemma EditStartsAfresh(
      original: map<Day, DayRow>, states: seq<State>, events: seq<Event>, i: nat, j: nat, d: Day, row: DayRow)
    requires Run(original, states, events) && i < j < |states| && events[i] == Edit(d, row)
    requires Clean(Some(row)) && !Stamped(states[i].leaves, d) && Untouched(events, i + 1, j, d)
    ensures Get(states[j].rows, d) == Expected(Some(row), states[j].leaves, d)
  {
    assert Next(states[i], events[i], states[i + 1]);
    DayFollowsFrom(original, states, events, i + 1, j, d, Some(row));
  }

  /**
   * Cancelling every leave, in whatever order, restores every day nothing else has written, and removes those the
   * leaves created; with no other write at all the table is the original one.
   */
  lemma CancellingAllRestoresEverything(original: map<Day, DayRow>, states: seq<State>, events: seq<Event>)
    requires Run(original, states, events)
    requires forall d :: Clean(Get(original, d))
    requires states[|events|].leaves == map[]
    ensures forall d | Untouched(events, 0, |events|, d) :: Get(states[|events|].rows, d) == Get(original, d)
    ensures (forall k :: 0 <= k < |events| ==> !events[k].Edit?) ==> states[|events|].rows == original
  {
    var rows := states[|events|].rows;
    forall d | Untouched(events, 0, |events|, d)
      ensures Get(rows, d) == Get(original, d)
    {
      DaysFollowTheirLeaves(original, states, events, |events|, d);
    }
    if forall k :: 0 <= k < |events| ==> !events[k].Edit? {
      forall d
        ensures d in rows <==> d in original
        ensures d in rows ==> rows[d] == original[d]
      {
        assert Untouched(events, 0, |events|, d);
        assert Get(rows, d) == Get(original, d);
      }
    }
  }

  ghost predicate Writes(e: Event, d: Day) {
    (e.Edit? && e.day == d) || (e.Approve? && Stamps(e.leave, d))
  }

  /**
   * A day regularized, imported or punched over a leave stamp is left alone by every cancellation from then on, until
   * another leave is approved over it or something writes it again.
   */
  lemma {:induction false} EditedDayIsLeftAlone(
      original: map<Day, DayRow>, states: seq<State>, events: seq<Event>, i: nat, j: nat, d: Day, row: DayRow)
    requires Run(original, states, events) && i < j <= |events| && events[i] == Edit(d, row) && !IsStamp(row)
    requires forall k :: i < k < j ==> !Writes(events[k], d)
    ensures Get(states[j].rows, d) == Some(row)
  {
    assert Next(states[j - 1], events[j - 1], states[j]);
    if j > i + 1 {
      EditedDayIsLeftAlone(original, states, events, i, j - 1, d, row);
      assert !Writes(events[j - 1], d);
    }
  }

  /**
   * Which rows one leave can be approved over and cancelled from without a trace: exactly those with nothing
   * remembered, except that a half day must not find a SYSTEM half day there already.
   */
  lemma OneLeaveRestoresIff(r: DayRow, isHalfDay: bool)
    ensures RevertDay(StampDay(Some(r), isHalfDay), false, true) == Some(r)
       <==> && r.overriddenStatus.None? && r.overriddenSource.None?
            && !(isHalfDay && r.status == HALF_DAY && r.source == SYSTEM)
  {
  }

  /**
   * What a regularization leaves of a stamped day: its own status and source, and the remembered fields as they were.
   */
  function Regularized(stamped: DayRow): DayRow {
    stamped.(status := PRESENT, source := REGULARIZED)
  }

  /** A full day of leave on date `d` alone. */
  function DayOff(d: Day): Leave {
    Leave(d, d, false, None)
  }

  /**
   * Why the last write has to leave the day clean. A day is stamped by a leave, regularized, and the leave cancelled;
   * the fields remembered under the leave stay on the row. A second leave approved and cancelled brings back the
   * status from before the first, and the regularization is lost.
   */
  lemma StaleMemoryComesBack(r: DayRow, d: Day) returns (states: seq<State>, events: seq<Event>)
    requires Clean(Some(r)) && r.status == ABSENT
    ensures Run(map[d := r], states, events) && |events| == 5
    ensures var regularized := Regularized(StampedRow(r, false));
            && events == [Approve(0, DayOff(d)), Edit(d, regularized), Cancel(0), Approve(1, DayOff(d)), Cancel(1)]
            && Get(states[3].rows, d) == Some(regularized) && states[3].leaves == map[]
            && states[5].leaves == map[] && Get(states[5].rows, d).Some?
            && Get(states[5].rows, d).value.status == ABSENT && Get(states[5].rows, d).value.source == r.source
  {
    var stamped := StampedRow(r, false);
    var regularized := Regularized(stamped);
    var again := StampedRow(regularized, false);
    var back := again.(status := r.status, source := r.source, overriddenStatus := None, overriddenSource := None);
    DayOffStamps(d);
    var s0 := State(map[d := r], map[]);
    var s1 := State(map[d := stamped], map[0 := DayOff(d)]);
    var s2 := State(map[d := regularized], map[0 := DayOff(d)]);
    var s3 := State(map[d := regularized], map[]);
    var s4 := State(map[d := again], map[1 := DayOff(d)]);
    var s5 := State(map[d := back], map[]);
    events := [Approve(0, DayOff(d)), Edit(d, regularized), Cancel(0), Approve(1, DayOff(d)), Cancel(1)];
    states := [s0, s1, s2, s3, s4, s5];
    ApprovesAlone(s0, 0, d, s1);
    assert Next(s1, Edit(d, regularized), s2);
    CancelsAlone(s2, 0, d, s3);
    ApprovesAlone(s3, 1, d, s4);
    CancelsAlone(s4, 1, d, s5);
  }

  lemma DayOffStamps(d: Day)
    ensures WellFormed(DayOff(d)) && forall e :: Stamps(DayOff(d), e) <==> e == d
  {
    assert DatesBetween(d, d) == [d];
  }

  lemma ApprovesAlone(s: State, id: LeaveId, d: Day, t: State)
    requires s.leaves == map[] && s.rows.Keys == {d}
    requires t == State(map[d := StampedRow(s.rows[d], false)], map[id := DayOff(d)])
    ensures Enabled(s, Approve(id, DayOff(d))) && Next(s, Approve(id, DayOff(d)), t)
  {
    DayOffStamps(d);
  }

  lemma CancelsAlone(s: State, id: LeaveId, d: Day, t: State)
    requires s.leaves == map[id := DayOff(d)] && s.rows.Keys == {d} && t.leaves == map[] && t.rows.Keys == {d}
    requires RevertDay(Some(s.rows[d]), false, true) == Some(t.rows[d])
    ensures Enabled(s, Cancel(id)) && Next(s, Cancel(id), t)
  {
    assert s.leaves - {id} == map[];
    assert !CoveredBy(s.leaves, id, d) && OnlyHalvesCover(s.leaves, id, d);
  }

  /** A third half day on a date would demote it: the overlap rule is what keeps the day a whole day off. */
  lemma ThirdHalfDemotes(original: Option<DayRow>)
    requires Clean(original)
    ensures var twice := StampDay(StampDay(original, true), true);
            twice.Some? && twice.value.status == ON_LEAVE && StampDay(twice, true).value.status == HALF_DAY
  {
  }
}
