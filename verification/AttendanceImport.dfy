// src/attendance/attendance.service.ts:5000-5241 and src/attendance/import-protection.ts: executing an attendance
// import. The loop works from rows and leaves fetched once for the whole file; it must agree with reading each day
// afresh.
module AttendanceImport {
  import opened Attendance
  import opened Prelude

  type EmployeeId = nat
  type Code = nat
  type DepartmentId = nat
  type Day = int
  type Time = int
  type Place = nat

  datatype Regularization = NoRequest | PendingRequest | ApprovedRequest | RejectedRequest

  datatype Key = Key(employee: EmployeeId, date: Day)

  /** `details` stands for the columns an import never writes. */
  datatype DayRow = DayRow(
    department: Option<DepartmentId>,
    status: Status, source: Source,
    inTime: Option<Time>, outTime: Option<Time>,
    workDurationMinutes: int, isLate: bool, isEarlyOut: bool,
    checkinLocation: Option<Place>, checkoutLocation: Option<Place>,
    regularization: Regularization,
    leaveOverriddenStatus: Option<Status>, leaveOverriddenSource: Option<Source>,
    details: nat)

  type Table = map<Key, DayRow>

  /** A time cell of the sheet: blank, unreadable, or an instant. */
  datatype Cell = Blank | Unreadable | At(time: Time)

  datatype ImportRow = ImportRow(code: Code, date: Option<Day>, inCell: Cell, outCell: Cell,
                                 inLocation: Option<Place>, outLocation: Option<Place>)

  datatype ApprovedLeave = ApprovedLeave(employee: EmployeeId, startDate: Day, endDate: Day, isHalfDay: bool)

  /** A holiday of one department, or of all when it has none. */
  datatype Holiday = Holiday(date: Day, department: Option<DepartmentId>, isOptional: bool)

  datatype Outcome = Outcome(status: Status, workDurationMinutes: int, isLate: bool, isEarlyOut: bool)

  /**
   * What the loop reads besides the table: employees by code with their department, approved leaves, holidays, locked
   * payroll periods, and the day-outcome rules (None when they throw) for a day, a department's shift, a holiday, a
   * leave and two times.
   */
  datatype Context = Context(
    byCode: map<Code, EmployeeId>,
    departments: map<EmployeeId, DepartmentId>,
    leaves: seq<ApprovedLeave>,
    holidays: seq<Holiday>,
    locked: Key -> bool,
    derive: (Key, Option<DepartmentId>, Option<Holiday>, Option<ApprovedLeave>, Option<Time>,
        Option<Time>) -> Option<Outcome>)

  datatype SkipReason = OnApprovedLeave | AlreadyRegularized | RegularizationWaiting | AlreadyHasPunch

  datatype RowError = UnknownEmployeeOrDate | PayrollLocked | InvalidTime | NoTime | FailedToImport

  // ---- import-protection.ts ----

  predicate IsHalfLeaveStamp(d: Option<DayRow>) {
    d.Some? && d.value.status == HALF_DAY && d.value.source == SYSTEM
  }

  function ImportSkipReason(existing: Option<DayRow>, approvedLeave: Option<ApprovedLeave>): Option<SkipReason> {
    if approvedLeave.Some? && !approvedLeave.value.isHalfDay then Some(OnApprovedLeave)
    else if existing.None? then None
    else
      var e := existing.value;
      if e.status == ON_LEAVE then Some(OnApprovedLeave)
      else if e.source == REGULARIZED || e.regularization == ApprovedRequest then Some(AlreadyRegularized)
      else if e.regularization == PendingRequest then Some(RegularizationWaiting)
      else if e.source == FACE_API && e.inTime.Some? then Some(AlreadyHasPunch)
      else if IsHalfLeaveStamp(existing) && e.leaveOverriddenSource == Some(FACE_API) && e.inTime.Some?
          then Some(AlreadyHasPunch)
      else None
  }

  // ---- One row against the day it finds ----

  function LeaveFor(leaves: seq<ApprovedLeave>, k: Key): Option<ApprovedLeave> {
    if leaves == [] then None
    else if CoversKey(leaves[0], k) then Some(leaves[0])
    else LeaveFor(leaves[1..], k)
  }

  /** The first holiday on the date that is the department's or everybody's. */
  function HolidayFor(holidays: seq<Holiday>, date: Day, department: Option<DepartmentId>): Option<Holiday> {
    if holidays == [] then None
    else if HolidayApplies(holidays[0], date, department) then Some(holidays[0])
    else HolidayFor(holidays[1..], date, department)
  }

  predicate HolidayApplies(h: Holiday, date: Day, department: Option<DepartmentId>) {
    h.date == date && (h.department.None? || h.department == department)
  }

  function DepartmentOf(c: Context, employee: EmployeeId): Option<DepartmentId> {
    if employee in c.departments then Some(c.departments[employee]) else None
  }

  function KeyOf(c: Context, row: ImportRow): Option<Key> {
    if row.code in c.byCode && row.date.Some? then Some(Key(c.byCode[row.code], row.date.value)) else None
  }

  function TimeOf(cell: Cell): Option<Time> {
    if cell.At? then Some(cell.time) else None
  }

  /** The shift of the day: the department remembered on an existing row wins over the employee's current one. */
  function ShiftDepartment(c: Context, k: Key, existing: Option<DayRow>): Option<DepartmentId> {
    if existing.Some? && existing.value.department.Some? then existing.value.department else DepartmentOf(c, k.employee)
  }

  datatype Verdict = Skip(reason: SkipReason) | Fail(error: RowError) | Write(row: DayRow)

  function Written(c: Context, k: Key, row: ImportRow, existing: Option<DayRow>, o: Outcome): DayRow {
    var inTime, outTime := TimeOf(row.inCell), TimeOf(row.outCell);
    if IsHalfLeaveStamp(existing) then
      existing.value.(inTime := inTime, outTime := outTime, workDurationMinutes := o.workDurationMinutes,
                      leaveOverriddenStatus := Some(o.status), leaveOverriddenSource := Some(EXCEL_IMPORT))
    else
      var base := if existing.Some? then existing.value
                  else DayRow(DepartmentOf(c, k.employee), ABSENT, FACE_API, None, None, 0, false, false, None, None,
                              NoRequest, None, None, 0);
      base.(status := o.status, source := EXCEL_IMPORT, inTime := inTime, outTime := outTime,
            workDurationMinutes := o.workDurationMinutes, isLate := o.isLate, isEarlyOut := o.isEarlyOut,
            checkinLocation := row.inLocation, checkoutLocation := row.outLocation)
  }

  function Judge(c: Context, k: Key, row: ImportRow, existing: Option<DayRow>): Verdict {
    var leave := LeaveFor(c.leaves, k);
    var reason := ImportSkipReason(existing, leave);
    if reason.Some? then Skip(reason.value)
    else if c.locked(k) then Fail(PayrollLocked)
    else if row.inCell.Unreadable? || row.outCell.Unreadable? then Fail(InvalidTime)
    else if row.inCell.Blank? && row.outCell.Blank? then Fail(NoTime)
    else
      var holiday := HolidayFor(c.holidays, k.date, DepartmentOf(c, k.employee));
      var outcome := c.derive(k, ShiftDepartment(c, k, existing), holiday, leave, TimeOf(row.inCell),
          TimeOf(row.outCell));
      if outcome.None? then Fail(FailedToImport) else Write(Written(c, k, row, existing, outcome.value))
  }

  // ---- Row by row, re-reading the day each time ----

  datatype Report = Report(imported: nat, skipped: nat, errors: nat,
                           rowErrors: seq<(nat, RowError)>, skippedRows: seq<(nat, Key, SkipReason)>)

  datatype Progress = Progress(table: Table, report: Report)

  function Get(t: Table, k: Key): Option<DayRow> {
    if k in t then Some(t[k]) else None
  }

  function Record(r: Report, rowNum: nat, k: Option<Key>, v: Verdict): Report {
    match v
    case Skip(reason) =>
      r.(skipped := r.skipped + 1, skippedRows := r.skippedRows + if k.Some? then [(rowNum, k.value, reason)] else [])
    case Fail(error) => r.(errors := r.errors + 1, rowErrors := r.rowErrors + [(rowNum, error)])
    case Write(_) => r.(imported := r.imported + 1)
  }

  function VerdictAt(c: Context, t: Table, row: ImportRow): Verdict {
    var k := KeyOf(c, row);
    if k.None? then Fail(UnknownEmployeeOrDate) else Judge(c, k.value, row, Get(t, k.value))
  }

  function ProcessRow(c: Context, p: Progress, rowNum: nat, row: ImportRow): Progress {
    var k := KeyOf(c, row);
    var v := VerdictAt(c, p.table, row);
    Progress(if v.Write? && k.Some? then p.table[k.value := v.row] else p.table, Record(p.report, rowNum, k, v))
  }

  function RowByRow(c: Context, t: Table, rows: seq<ImportRow>): Progress {
    if rows == [] then Progress(t, Report(0, 0, 0, [], []))
    else ProcessRow(c, RowByRow(c, t, rows[..|rows| - 1]), |rows|, rows[|rows| - 1])
  }

  // ---- The loop with its prefetched days ----

  function EmployeesIn(c: Context, rows: seq<ImportRow>): set<EmployeeId> {
    set i | 0 <= i < |rows| && KeyOf(c, rows[i]).Some? :: KeyOf(c, rows[i]).value.employee
  }

  function DatesIn(c: Context, rows: seq<ImportRow>): set<Day> {
    set i | 0 <= i < |rows| && KeyOf(c, rows[i]).Some? :: KeyOf(c, rows[i]).value.date
  }

  function DepartmentsIn(c: Context, rows: seq<ImportRow>): set<DepartmentId> {
    set i | 0 <= i < |rows| && rows[i].code in c.byCode && c.byCode[rows[i].code] in c.departments ::
      c.departments[c.byCode[rows[i].code]]
  }

  class AttendanceLedger {
    var table: Table

    constructor (table: Table)
      ensures this.table == table
    {
      this.table := table;
    }

    method ApplyImportBatchRows(c: Context, rows: seq<ImportRow>) returns (report: Report)
      modifies this
      ensures Progress(table, report) == RowByRow(c, old(table), rows)
    {
      var existingByKey, leaves, holidays;
      ghost var employees, dates, departments;
      existingByKey, leaves, holidays, employees, dates, departments := Prefetch(c, rows);
      report := Report(0, 0, 0, [], []);
      var i := 0;
      while i < |rows|
        invariant 0 <= i <= |rows|
        invariant Progress(table, report) == RowByRow(c, old(table), rows[..i])
        invariant SameDays(existingByKey, table, employees, dates)
      {
        OneMoreRow(c, old(table), rows, i);
        var row, rowNum := rows[i], i + 1;
        i := i + 1;
        var key := KeyOf(c, row);
        if key.None? {
          report := Record(report, rowNum, None, Fail(UnknownEmployeeOrDate));
          continue;
        }
        var k := key.value;
        assert InFile(c, rows[rowNum - 1], employees, dates, departments);
        var existing := Get(existingByKey, k);
        var verdict := JudgePrefetched(c, leaves, holidays, k, row, existing, employees, dates, departments);
        assert verdict == VerdictAt(c, table, row);
        if verdict.Write? {
          SameDaysAfterWrite(existingByKey, table, employees, dates, k, verdict.row);
          table := table[k := verdict.row];
          existingByKey := existingByKey[k := verdict.row];
        }
        report := Record(report, rowNum, key, verdict);
      }
      assert rows[..i] == rows;
    }

    // What is read once for the whole file: its days, and the leaves and holidays that can matter to them.
    method Prefetch(c: Context, rows: seq<ImportRow>)
      returns (existingByKey: Table, leaves: seq<ApprovedLeave>, holidays: seq<Holiday>,
               ghost employees: set<EmployeeId>, ghost dates: set<Day>, ghost departments: set<DepartmentId>)
      ensures SameDays(existingByKey, table, employees, dates)
      ensures leaves == Filter(c.leaves, Prefetched(employees, dates))
      ensures holidays == Filter(c.holidays, PrefetchedHoliday(departments, dates))
      ensures forall i :: 0 <= i < |rows| ==> InFile(c, rows[i], employees, dates, departments)
    {
      var people, days, theirs := EmployeesIn(c, rows), DatesIn(c, rows), DepartmentsIn(c, rows);
      existingByKey := map k | k in table && k.employee in people && k.date in days :: table[k];
      leaves := Filter(c.leaves, Prefetched(people, days));
      holidays := Filter(c.holidays, PrefetchedHoliday(theirs, days));
      employees, dates, departments := people, days, theirs;
    }

    // The body of the loop's try block, on the leaves and holidays fetched for the whole file.
    method JudgePrefetched(c: Context, leaves: seq<ApprovedLeave>, holidays: seq<Holiday>, k: Key, row: ImportRow,
                           existing: Option<DayRow>, ghost employees: set<EmployeeId>, ghost dates: set<Day>,
                           ghost departments: set<DepartmentId>)
      returns (verdict: Verdict)
      requires leaves == Filter(c.leaves, Prefetched(employees, dates)) && k.employee in employees && k.date in dates
      requires holidays == Filter(c.holidays, PrefetchedHoliday(departments, dates))
      requires DepartmentOf(c, k.employee).Some? ==> DepartmentOf(c, k.employee).value in departments
      ensures verdict == Judge(c, k, row, existing)
    {
      verdict := Judge(c.(leaves := leaves, holidays := holidays), k, row, existing);
      PrefetchedLeavesAgree(c.leaves, employees, dates, k);
      PrefetchedHolidaysAgree(c.holidays, departments, dates, k.date, DepartmentOf(c, k.employee));
    }
  }

  /** The in-memory days agree with the stored ones for every person and date of the file. */
  ghost predicate SameDays(memory: Table, table: Table, employees: set<EmployeeId>, dates: set<Day>) {
    forall k: Key :: k.employee in employees && k.date in dates ==> Get(memory, k) == Get(table, k)
  }

  lemma SameDaysAfterWrite(memory: Table, table: Table, employees: set<EmployeeId>, dates: set<Day>, k: Key,
                           row: DayRow)
    requires SameDays(memory, table, employees, dates)
    ensures SameDays(memory[k := row], table[k := row], employees, dates)
  {
  }

  /** The one query for the file's leaves: its people, and any leave meeting its date range. */
  function Prefetched(employees: set<EmployeeId>, dates: set<Day>): ApprovedLeave -> bool {
    (l: ApprovedLeave) =>
      l.employee in employees && (exists d :: d in dates && l.startDate <= d)
          && (exists d :: d in dates && d <= l.endDate)
  }

  /** The one query for the file's holidays: its dates, and those of its people's departments or of everybody. */
  function PrefetchedHoliday(departments: set<DepartmentId>, dates: set<Day>): Holiday -> bool {
    (h: Holiday) => h.date in dates && (h.department.None? || h.department.value in departments)
  }

  lemma OneMoreRow(c: Context, t: Table, rows: seq<ImportRow>, i: nat)
    requires i < |rows|
    ensures RowByRow(c, t, rows[..i + 1]) == ProcessRow(c, RowByRow(c, t, rows[..i]), i + 1, rows[i])
  {
    assert rows[..i + 1][..i] == rows[..i];
  }

  /** The row's employee, date and department are among those of the file. */
  ghost predicate InFile(c: Context, row: ImportRow, employees: set<EmployeeId>, dates: set<Day>,
                         departments: set<DepartmentId>) {
    var k := KeyOf(c, row);
    k.Some? ==>
      && k.value.employee in employees && k.value.date in dates
      && (DepartmentOf(c, k.value.employee).Some? ==> DepartmentOf(c, k.value.employee).value in departments)
  }

  predicate CoversKey(l: ApprovedLeave, k: Key) {
    l.employee == k.employee && l.startDate <= k.date <= l.endDate
  }

  /** For a day of the file the prefetched leaves give the leave that reading them all would give. */
  lemma {:induction false} PrefetchedLeavesAgree(leaves: seq<ApprovedLeave>, employees: set<EmployeeId>,
                                                 dates: set<Day>,
                                                 k: Key)
    requires k.employee in employees && k.date in dates
    ensures LeaveFor(Filter(leaves, Prefetched(employees, dates)), k) == LeaveFor(leaves, k)
  {
    if leaves != [] {
      PrefetchedLeavesAgree(leaves[1..], employees, dates, k);
      var p := Prefetched(employees, dates);
      assert CoversKey(leaves[0], k) ==> p(leaves[0]);
      var rest := Filter(leaves[1..], p);
      if p(leaves[0]) {
        assert Filter(leaves, p) == [leaves[0]] + rest;
        assert ([leaves[0]] + rest)[1..] == rest;
      } else {
        assert Filter(leaves, p) == rest;
      }
    }
  }

  /** And the prefetched holidays give the holiday that reading them all would give. */
  lemma {:induction false} PrefetchedHolidaysAgree(holidays: seq<Holiday>, departments: set<DepartmentId>,
                                                   dates: set<Day>,
                                                   date: Day, department: Option<DepartmentId>)
    requires date in dates && (department.Some? ==> department.value in departments)
    ensures HolidayFor(Filter(holidays, PrefetchedHoliday(departments, dates)), date, department)
         == HolidayFor(holidays, date, department)
  {
    if holidays != [] {
      PrefetchedHolidaysAgree(holidays[1..], departments, dates, date, department);
      var p := PrefetchedHoliday(departments, dates);
      var rest := Filter(holidays[1..], p);
      if p(holidays[0]) {
        assert Filter(holidays, p) == [holidays[0]] + rest;
        assert ([holidays[0]] + rest)[1..] == rest;
      } else {
        assert Filter(holidays, p) == rest;
      }
    }
  }

  // ---- What an import does to the ledger ----

  /** Every row of the file is counted once, and the lists match their counts. */
  lemma {:induction false} EveryRowIsCounted(c: Context, t: Table, rows: seq<ImportRow>)
    ensures var r := RowByRow(c, t, rows).report;
            && r.imported + r.skipped + r.errors == |rows|
            && |r.rowErrors| == r.errors && |r.skippedRows| == r.skipped
  {
    if rows != [] {
      EveryRowIsCounted(c, t, rows[..|rows| - 1]);
    }
  }

  ghost predicate Protected(c: Context, t: Table, k: Key) {
    ImportSkipReason(Get(t, k), LeaveFor(c.leaves, k)).Some?
  }

  ghost predicate Mentions(c: Context, rows: seq<ImportRow>, k: Key) {
    exists i :: 0 <= i < |rows| && KeyOf(c, rows[i]) == Some(k)
  }

  /** A protected day, and a day the file does not mention, end exactly as they were. */
  lemma {:induction false} ProtectedDaysAreUnchanged(c: Context, t: Table, rows: seq<ImportRow>, k: Key)
    requires Protected(c, t, k) || !Mentions(c, rows, k)
    ensures Get(RowByRow(c, t, rows).table, k) == Get(t, k)
  {
    if rows != [] {
      var front := rows[..|rows| - 1];
      assert forall i :: 0 <= i < |front| ==> front[i] == rows[i];
      if Mentions(c, front, k) {
        var i :| 0 <= i < |front| && KeyOf(c, front[i]) == Some(k);
        assert KeyOf(c, rows[i]) == Some(k);
      }
      ProtectedDaysAreUnchanged(c, t, front, k);
    }
  }

  /** What a half day of leave keeps whatever is imported onto it. */
  predicate SameHalfLeave(a: DayRow, b: DayRow) {
    && b.status == HALF_DAY && b.source == SYSTEM
    && b.department == a.department && b.isLate == a.isLate && b.isEarlyOut == a.isEarlyOut
    && b.checkinLocation == a.checkinLocation && b.checkoutLocation == a.checkoutLocation
    && b.regularization == a.regularization && b.details == a.details
  }

  /** A half-day leave stamp keeps its status and source through the whole file. */
  lemma {:induction false} HalfLeaveKeepsItsStatus(c: Context, t: Table, rows: seq<ImportRow>, k: Key)
    requires IsHalfLeaveStamp(Get(t, k))
    ensures k in RowByRow(c, t, rows).table && SameHalfLeave(t[k], RowByRow(c, t, rows).table[k])
  {
    if rows != [] {
      HalfLeaveKeepsItsStatus(c, t, rows[..|rows| - 1], k);
    }
  }

  /** The row's own times are on the day: as the day's times, under the leave if it is a half day of leave. */
  ghost predicate ShowsRow(t: Table, k: Key, row: ImportRow) {
    && k in t
    && t[k].inTime == TimeOf(row.inCell) && t[k].outTime == TimeOf(row.outCell)
    && (t[k].source == EXCEL_IMPORT || (IsHalfLeaveStamp(Some(t[k]))
        && t[k].leaveOverriddenSource == Some(EXCEL_IMPORT)))
  }

  /** The last imported row for a day decides it: no later row of the file writes it again. */
  lemma {:induction false} LastImportedRowWins(c: Context, t: Table, rows: seq<ImportRow>, i: nat)
    requires i < |rows| && KeyOf(c, rows[i]).Some?
    requires VerdictAt(c, RowByRow(c, t, rows[..i]).table, rows[i]).Write?
    requires forall j :: i < j < |rows| && KeyOf(c, rows[j]) == KeyOf(c, rows[i]) ==>
               !VerdictAt(c, RowByRow(c, t, rows[..j]).table, rows[j]).Write?
    ensures ShowsRow(RowByRow(c, t, rows).table, KeyOf(c, rows[i]).value, rows[i])
    decreases |rows|, 1
  {
    var last := |rows| - 1;
    var k := KeyOf(c, rows[i]).value;
    OneMoreRow(c, t, rows, last);
    assert rows[..last + 1] == rows;
    if i < last {
      WinsAmongTheFirst(c, t, rows, i);
      NotWrittenAgain(c, RowByRow(c, t, rows[..last]), last + 1, rows[last], k);
    } else {
      WrittenRowShows(c, RowByRow(c, t, rows[..last]), last + 1, rows[i], k);
    }
  }

  lemma WinsAmongTheFirst(c: Context, t: Table, rows: seq<ImportRow>, i: nat)
    requires i < |rows| - 1 && KeyOf(c, rows[i]).Some?
    requires VerdictAt(c, RowByRow(c, t, rows[..i]).table, rows[i]).Write?
    requires forall j :: i < j < |rows| && KeyOf(c, rows[j]) == KeyOf(c, rows[i]) ==>
               !VerdictAt(c, RowByRow(c, t, rows[..j]).table, rows[j]).Write?
    ensures ShowsRow(RowByRow(c, t, rows[..|rows| - 1]).table, KeyOf(c, rows[i]).value, rows[i])
    decreases |rows|, 0
  {
    var front := rows[..|rows| - 1];
    assert forall j :: 0 <= j < |rows| ==> front[..j] == rows[..j];
    LastImportedRowWins(c, t, front, i);
  }

  lemma NotWrittenAgain(c: Context, p: Progress, rowNum: nat, row: ImportRow, k: Key)
    requires KeyOf(c, row) == Some(k) ==> !VerdictAt(c, p.table, row).Write?
    ensures Get(ProcessRow(c, p, rowNum, row).table, k) == Get(p.table, k)
  {
  }

  lemma WrittenRowShows(c: Context, p: Progress, rowNum: nat, row: ImportRow, k: Key)
    requires KeyOf(c, row) == Some(k) && VerdictAt(c, p.table, row).Write?
    ensures ShowsRow(ProcessRow(c, p, rowNum, row).table, k, row)
  {
  }

  // ---- The same by columns ----

  ghost predicate NoLeaveOn(leaves: seq<ApprovedLeave>, k: Key) {
    forall l :: l in leaves && l.employee == k.employee ==> k.date < l.startDate || l.endDate < k.date
  }

  /** The first leave of the list that covers the employee's day, if any does. */
  ghost predicate IsFirstLeave(leaves: seq<ApprovedLeave>, k: Key, leave: Option<ApprovedLeave>) {
    match leave
    case None => NoLeaveOn(leaves, k)
    case Some(l) =>
      && l.employee == k.employee && l.startDate <= k.date && k.date <= l.endDate
      && exists i :: 0 <= i < |leaves| && leaves[i] == l && NoLeaveOn(leaves[..i], k)
  }

  ghost predicate NoHolidayOn(holidays: seq<Holiday>, date: Day, department: Option<DepartmentId>) {
    forall h :: h in holidays && h.date == date ==> h.department.Some? && h.department != department
  }

  /** The first holiday of the list on the date, everybody's or the department's, if there is one. */
  ghost predicate IsFirstHoliday(holidays: seq<Holiday>, date: Day, department: Option<DepartmentId>,
                                 holiday: Option<Holiday>) {
    match holiday
    case None => NoHolidayOn(holidays, date, department)
    case Some(h) =>
      && h.date == date && (h.department == None || h.department == department)
      && exists i :: 0 <= i < |holidays| && holidays[i] == h && NoHolidayOn(holidays[..i], date, department)
  }

  lemma {:induction false} LeaveForIsFirst(leaves: seq<ApprovedLeave>, k: Key)
    ensures IsFirstLeave(leaves, k, LeaveFor(leaves, k))
  {
    if leaves != [] && CoversKey(leaves[0], k) {
      assert leaves[..0] == [];
    } else if leaves != [] {
      var rest := leaves[1..];
      LeaveForIsFirst(rest, k);
      if LeaveFor(rest, k).Some? {
        var j :| 0 <= j < |rest| && rest[j] == LeaveFor(rest, k).value && NoLeaveOn(rest[..j], k);
        assert leaves[..j + 1] == [leaves[0]] + rest[..j];
        assert leaves[j + 1] == LeaveFor(leaves, k).value && NoLeaveOn(leaves[..j + 1], k);
      }
    }
  }

  lemma {:induction false} HolidayForIsFirst(holidays: seq<Holiday>, date: Day, department: Option<DepartmentId>)
    ensures IsFirstHoliday(holidays, date, department, HolidayFor(holidays, date, department))
  {
    if holidays != [] && HolidayApplies(holidays[0], date, department) {
      assert holidays[..0] == [];
    } else if holidays != [] {
      var rest := holidays[1..];
      HolidayForIsFirst(rest, date, department);
      if HolidayFor(rest, date, department).Some? {
        var j :| 0 <= j < |rest| && rest[j] == HolidayFor(rest, date, department).value
            && NoHolidayOn(rest[..j], date, department);
        assert holidays[..j + 1] == [holidays[0]] + rest[..j];
        assert holidays[j + 1] == HolidayFor(holidays, date, department).value
            && NoHolidayOn(holidays[..j + 1], date, department);
      }
    }
  }

  lemma NotAmongTheFirst<T>(s: seq<T>, i: nat, j: nat)
    requires i < |s| && j < |s| && s[j] !in s[..i]
    ensures i <= j
  {
  }

  lemma OneFirstLeave(leaves: seq<ApprovedLeave>, k: Key, a: Option<ApprovedLeave>, b: Option<ApprovedLeave>)
    requires IsFirstLeave(leaves, k, a) && IsFirstLeave(leaves, k, b)
    ensures a == b
  {
    if a.Some? && b.Some? {
      var i :| 0 <= i < |leaves| && leaves[i] == a.value && NoLeaveOn(leaves[..i], k);
      var j :| 0 <= j < |leaves| && leaves[j] == b.value && NoLeaveOn(leaves[..j], k);
      NotAmongTheFirst(leaves, i, j);
      NotAmongTheFirst(leaves, j, i);
    }
  }

  lemma OneFirstHoliday(holidays: seq<Holiday>, date: Day, department: Option<DepartmentId>, a: Option<Holiday>,
                        b: Option<Holiday>)
    requires IsFirstHoliday(holidays, date, department, a) && IsFirstHoliday(holidays, date, department, b)
    ensures a == b
  {
    if a.Some? && b.Some? {
      var i :| 0 <= i < |holidays| && holidays[i] == a.value && NoHolidayOn(holidays[..i], date, department);
      var j :| 0 <= j < |holidays| && holidays[j] == b.value && NoHolidayOn(holidays[..j], date, department);
      NotAmongTheFirst(holidays, i, j);
      NotAmongTheFirst(holidays, j, i);
    }
  }

  lemma FirstLeaveIsFound(leaves: seq<ApprovedLeave>, k: Key, leave: Option<ApprovedLeave>)
    requires IsFirstLeave(leaves, k, leave)
    ensures LeaveFor(leaves, k) == leave
  {
    LeaveForIsFirst(leaves, k);
    OneFirstLeave(leaves, k, leave, LeaveFor(leaves, k));
  }

  /** Why the day is closed to an import, read off its row and its first leave. */
  ghost predicate ClosedBecause(row: Option<DayRow>, leave: Option<ApprovedLeave>, reason: SkipReason) {
    var onLeave := (leave.Some? && !leave.value.isHalfDay) || (row.Some? && row.value.status == ON_LEAVE);
    var regularized := row.Some?
        && (row.value.source == REGULARIZED || row.value.regularization == ApprovedRequest);
    var waiting := row.Some? && row.value.regularization == PendingRequest;
    var halfLeave := row.Some? && row.value.status == HALF_DAY && row.value.source == SYSTEM;
    var punched := row.Some? && row.value.inTime.Some?
        && (row.value.source == FACE_API || (halfLeave && row.value.leaveOverriddenSource == Some(FACE_API)));
    match reason
    case OnApprovedLeave => onLeave
    case AlreadyRegularized => !onLeave && regularized
    case RegularizationWaiting => !onLeave && !regularized && waiting
    case AlreadyHasPunch => !onLeave && !regularized && !waiting && punched
  }

  ghost predicate IsOpen(row: Option<DayRow>, leave: Option<ApprovedLeave>) {
    forall reason :: !ClosedBecause(row, leave, reason)
  }

  /** The row names this employee and day. */
  ghost predicate Names(c: Context, row: ImportRow, k: Key) {
    row.code in c.byCode && c.byCode[row.code] == k.employee && row.date == Some(k.date)
  }

  /**
   * A day that is a full day of leave, regularized, waiting for a regularization, or punched, also under a half day of
   * leave, is unchanged by the whole file, and every row naming it is reported as skipped for that reason.
   */
  lemma {:induction false} ClosedDaysAreReported(c: Context, t: Table, rows: seq<ImportRow>, k: Key,
                                                 leave: Option<ApprovedLeave>, reason: SkipReason, i: nat)
    requires IsFirstLeave(c.leaves, k, leave) && ClosedBecause(if k in t then Some(t[k]) else None, leave, reason)
    requires i < |rows| && Names(c, rows[i], k)
    ensures var p := RowByRow(c, t, rows);
            && (k in p.table <==> k in t) && (k in t ==> p.table[k] == t[k])
            && (i + 1, k, reason) in p.report.skippedRows
  {
    var n := |rows| - 1;
    FirstLeaveIsFound(c.leaves, k, leave);
    ProtectedDaysAreUnchanged(c, t, rows, k);
    ProtectedDaysAreUnchanged(c, t, rows[..n], k);
    if i < n {
      ClosedDaysAreReported(c, t, rows[..n], k, leave, reason, i);
    }
  }

  /** What the file makes of a row naming a day that is open when its turn comes. */
  ghost predicate TakesRow(before: Progress, after: Progress, k: Key, row: ImportRow, o: Outcome) {
    var inTime := if row.inCell.At? then Some(row.inCell.time) else None;
    var outTime := if row.outCell.At? then Some(row.outCell.time) else None;
    && k in after.table && after.table[k].inTime == inTime && after.table[k].outTime == outTime
    && after.table[k].workDurationMinutes == o.workDurationMinutes
    && after.report == before.report.(imported := before.report.imported + 1)
    && if k in before.table && before.table[k].status == HALF_DAY && before.table[k].source == SYSTEM
       then SameHalfLeave(before.table[k], after.table[k])
            && after.table[k].leaveOverriddenStatus == Some(o.status)
            && after.table[k].leaveOverriddenSource == Some(EXCEL_IMPORT)
       else
         && after.table[k].status == o.status && after.table[k].source == EXCEL_IMPORT
         && after.table[k].isLate == o.isLate && after.table[k].isEarlyOut == o.isEarlyOut
         && after.table[k].checkinLocation == row.inLocation && after.table[k].checkoutLocation == row.outLocation
         && (k in before.table ==>
               && after.table[k].department == before.table[k].department
               && after.table[k].regularization == before.table[k].regularization
               && after.table[k].leaveOverriddenStatus == before.table[k].leaveOverriddenStatus
               && after.table[k].leaveOverriddenSource == before.table[k].leaveOverriddenSource
               && after.table[k].details == before.table[k].details)
         && (k !in before.table ==>
               && after.table[k].regularization == NoRequest && after.table[k].details == 0
               && after.table[k].leaveOverriddenStatus == None && after.table[k].leaveOverriddenSource == None)
  }

  ghost predicate AddsError(before: Progress, after: Progress, rowNum: nat, error: RowError) {
    && after.table == before.table
    && after.report == before.report.(errors := before.report.errors + 1,
                                      rowErrors := before.report.rowErrors + [(rowNum, error)])
  }

  ghost predicate OnlyTouches(before: Table, after: Table, k: Key) {
    forall other :: other != k ==>
      && (other in after <==> other in before)
      && (other in before ==> after[other] == before[other])
  }

  /** What the rules say of the row: with the shift of the department on the day, or else the employee's own. */
  ghost function AskRules(c: Context, t: Table, k: Key, row: ImportRow, own: Option<DepartmentId>,
                          leave: Option<ApprovedLeave>, holiday: Option<Holiday>): Option<Outcome> {
    c.derive(k, if k in t && t[k].department.Some? then t[k].department else own, holiday, leave,
      if row.inCell.At? then Some(row.inCell.time) else None, if row.outCell.At? then Some(row.outCell.time) else None)
  }

  /** The row is written, or is an error for the first reason that applies. */
  ghost predicate HandlesRow(c: Context, before: Progress, after: Progress, k: Key, rowNum: nat, row: ImportRow,
                             own: Option<DepartmentId>, o: Option<Outcome>) {
    if c.locked(k) then AddsError(before, after, rowNum, PayrollLocked)
    else if row.inCell == Unreadable || row.outCell == Unreadable then AddsError(before, after, rowNum, InvalidTime)
    else if row.inCell == Blank && row.outCell == Blank then AddsError(before, after, rowNum, NoTime)
    else if o.None? then AddsError(before, after, rowNum, FailedToImport)
    else
      && TakesRow(before, after, k, row, o.value) && OnlyTouches(before.table, after.table, k)
      && (k !in before.table ==> after.table[k].department == own)
  }

  /**
   * The converse: a row naming an open day is written with the outcome's columns, or is an error for one of four
   * reasons, the first that applies: a locked period, an unreadable time, no time at all, rules that fail.
   */
  lemma OpenDaysTakeTheRow(c: Context, t: Table, rows: seq<ImportRow>, i: nat, k: Key, own: Option<DepartmentId>,
                           leave: Option<ApprovedLeave>, holiday: Option<Holiday>)
    requires i < |rows| && Names(c, rows[i], k)
    requires own == if k.employee in c.departments then Some(c.departments[k.employee]) else None
    requires IsFirstLeave(c.leaves, k, leave) && IsFirstHoliday(c.holidays, k.date, own, holiday)
    requires var table := RowByRow(c, t, rows[..i]).table;
             IsOpen(if k in table then Some(table[k]) else None, leave)
    ensures var before, after := RowByRow(c, t, rows[..i]), RowByRow(c, t, rows[..i + 1]);
            HandlesRow(c, before, after, k, i + 1, rows[i], own,
                       AskRules(c, before.table, k, rows[i], own, leave, holiday))
  {
    var before := RowByRow(c, t, rows[..i]);
    OneMoreRow(c, t, rows, i);
    FirstLeaveIsFound(c.leaves, k, leave);
    HolidayForIsFirst(c.holidays, k.date, own);
    OneFirstHoliday(c.holidays, k.date, own, holiday, HolidayFor(c.holidays, k.date, own));
    NoReasonWhenOpen(Get(before.table, k), leave);
    OpenDayIsHandled(c, before, k, i + 1, rows[i], own, leave, holiday);
  }

  lemma OpenDayIsHandled(c: Context, p: Progress, k: Key, rowNum: nat, row: ImportRow, own: Option<DepartmentId>,
                         leave: Option<ApprovedLeave>, holiday: Option<Holiday>)
    requires KeyOf(c, row) == Some(k) && own == DepartmentOf(c, k.employee)
    requires LeaveFor(c.leaves, k) == leave && HolidayFor(c.holidays, k.date, own) == holiday
    requires ImportSkipReason(Get(p.table, k), leave).None?
    ensures HandlesRow(c, p, ProcessRow(c, p, rowNum, row), k, rowNum, row, own,
                       AskRules(c, p.table, k, row, own, leave, holiday))
  {
    var o := AskRules(c, p.table, k, row, own, leave, holiday);
    assert ShiftDepartment(c, k, Get(p.table, k))
           == if k in p.table && p.table[k].department.Some? then p.table[k].department else own;
    if o.Some? {
      WrittenIsTaken(c, p, k, row, o.value);
    }
  }

  lemma WrittenIsTaken(c: Context, p: Progress, k: Key, row: ImportRow, o: Outcome)
    ensures var written := Written(c, k, row, Get(p.table, k), o);
            var after := Progress(p.table[k := written], p.report.(imported := p.report.imported + 1));
            TakesRow(p, after, k, row, o) && OnlyTouches(p.table, after.table, k)
            && (k !in p.table ==> written.department == DepartmentOf(c, k.employee))
  {
  }

  lemma NoReasonWhenOpen(row: Option<DayRow>, leave: Option<ApprovedLeave>)
    requires IsOpen(row, leave)
    ensures ImportSkipReason(row, leave).None?
  {
    if ImportSkipReason(row, leave).Some? {
      assert ClosedBecause(row, leave, ImportSkipReason(row, leave).value);
    }
  }

  /** A row whose employee or date is unknown is an error and nothing else. */
  lemma UnknownRowsAreErrors(c: Context, t: Table, rows: seq<ImportRow>, i: nat)
    requires i < |rows| && (rows[i].code !in c.byCode || rows[i].date == None)
    ensures AddsError(RowByRow(c, t, rows[..i]), RowByRow(c, t, rows[..i + 1]), i + 1, UnknownEmployeeOrDate)
  {
    OneMoreRow(c, t, rows, i);
  }
}
