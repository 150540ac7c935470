// src/comp-offs/comp-off-consumption.ts: the comp-off ledger arithmetic. Days are reals (the columns are Float and
// hold halves); an expiry date is an optional day number; a row without one never expires.
module CompOffConsumption {
  import opened Prelude

  type RowId = nat
  type Day = int

  datatype Status = PENDING | APPROVED | REJECTED | AVAILED | PARTIALLY_AVAILED | EXPIRED

  datatype Row = Row(id: RowId, daysEarned: real, daysAvailed: real, expiry: Option<Day>, status: Status)

  datatype Update = Update(id: RowId, daysAvailed: real, status: Status)

  predicate ExpiresNoLater(a: Row, b: Row) {
    b.expiry.None? || (a.expiry.Some? && a.expiry.value <= b.expiry.value)
  }

  predicate ExpiresNoSooner(a: Row, b: Row) {
    ExpiresNoLater(b, a)
  }

  function SoonestFirst(rows: seq<Row>): (sorted: seq<Row>) {
    StableSort(rows, ExpiresNoLater)
  }

  function LatestFirst(rows: seq<Row>): (sorted: seq<Row>) {
    StableSort(rows, ExpiresNoSooner)
  }

  /** What is still to be taken from a row; a row used beyond what it earned has nothing. */
  function Open(r: Row): (open: real) {
    MaxReal(0.0, r.daysEarned - r.daysAvailed)
  }

  /** What can still be given back to a row. */
  function Used(r: Row): (used: real) {
    MaxReal(0.0, r.daysAvailed)
  }

  predicate Lasts(r: Row, on: Day) {
    r.expiry.None? || r.expiry.value >= on
  }

  function LastsOn(on: Day): Row -> bool {
    (r: Row) => Lasts(r, on)
  }

  function Unconsumed(r: Row): real {
    r.daysEarned - r.daysAvailed
  }

  function Availed(r: Row): real {
    r.daysAvailed
  }

  ghost function SumAvailable(rows: seq<Row>): real {
    Sum(rows, Unconsumed)
  }

  ghost function SumAvailableOn(rows: seq<Row>, asOf: Day): real {
    SumAvailable(Filter(rows, LastsOn(asOf)))
  }

  predicate DifferentIds(a: Row, b: Row) {
    a.id != b.id
  }

  predicate DifferentExpiries(a: Row, b: Row) {
    a.expiry != b.expiry
  }

  ghost predicate DistinctIds(rows: seq<Row>) {
    Pairwise(rows, DifferentIds)
  }

  ghost predicate DistinctExpiries(rows: seq<Row>) {
    Pairwise(rows, DifferentExpiries)
  }

  /** Every row is used within what it earned. */
  ghost predicate WithinEarned(rows: seq<Row>) {
    forall r :: r in rows ==> 0.0 <= r.daysAvailed <= r.daysEarned
  }

  // ---- Consuming and releasing along an ordered list ----

  function ConsumedRow(r: Row, portion: real): Row {
    var newAvailed := r.daysAvailed + portion;
    r.(daysAvailed := newAvailed, status := if newAvailed >= r.daysEarned then AVAILED else PARTIALLY_AVAILED)
  }

  function ReleasedRow(r: Row, portion: real): Row {
    var newAvailed := r.daysAvailed - portion;
    r.(daysAvailed := newAvailed, status := if newAvailed > 0.0 then PARTIALLY_AVAILED else APPROVED)
  }

  function UpdateOf(r: Row): Update {
    Update(r.id, r.daysAvailed, r.status)
  }

  function Spend(s: seq<Row>, days: real): seq<Update> {
    if s == [] || days <= 0.0 then []
    else if Open(s[0]) <= 0.0 then Spend(s[1..], days)
    else
      var portion := MinReal(Open(s[0]), days);
      [UpdateOf(ConsumedRow(s[0], portion))] + Spend(s[1..], days - portion)
  }

  function GiveBack(s: seq<Row>, days: real): seq<Update> {
    if s == [] || days <= 0.0 then []
    else if Used(s[0]) <= 0.0 then GiveBack(s[1..], days)
    else
      var portion := MinReal(Used(s[0]), days);
      [UpdateOf(ReleasedRow(s[0], portion))] + GiveBack(s[1..], days - portion)
  }

  /** The part of `days` that the open balance of `s` cannot cover. */
  ghost function Uncovered(s: seq<Row>, days: real): real {
    MaxReal(0.0, days - Sum(s, Open))
  }

  /** Where the loop stands before row `i`: what it still owes is what spending along the rest would do. */
  ghost predicate SpentUpTo(sorted: seq<Row>, days: real, i: nat, remaining: real, updated: seq<Update>)
    requires i <= |sorted|
  {
    && updated + Spend(sorted[i..], remaining) == Spend(sorted, days)
    && Uncovered(sorted[i..], remaining) == Uncovered(sorted, days)
  }

  lemma SpendStep(sorted: seq<Row>, days: real, i: nat, remaining: real, updated: seq<Update>)
    requires i < |sorted| && remaining > 0.0 && SpentUpTo(sorted, days, i, remaining, updated)
    ensures var portion := MinReal(Open(sorted[i]), remaining);
            if Open(sorted[i]) <= 0.0 then SpentUpTo(sorted, days, i + 1, remaining, updated)
            else SpentUpTo(sorted, days, i + 1, remaining - portion,
                           updated + [UpdateOf(ConsumedRow(sorted[i], portion))])
  {
    assert sorted[i..][1..] == sorted[i + 1..];
    OpenNonNegative(sorted[i + 1..]);
    if Open(sorted[i]) > 0.0 {
      var portion := MinReal(Open(sorted[i]), remaining);
      var rest := Spend(sorted[i + 1..], remaining - portion);
      var one := [UpdateOf(ConsumedRow(sorted[i], portion))];
      assert updated + (one + rest) == (updated + one) + rest;
    }
  }

  lemma SpendEnds(sorted: seq<Row>, days: real, i: nat, remaining: real, updated: seq<Update>)
    requires i <= |sorted| && SpentUpTo(sorted, days, i, remaining, updated)
    requires remaining <= 0.0 || i == |sorted|
    ensures updated == Spend(sorted, days) && Uncovered(sorted, days) == MaxReal(remaining, 0.0)
  {
    OpenNonNegative(sorted[i..]);
  }

  /** Consumes `days` across `rows`, soonest-expiring first; `shortfall` is what the rows could not cover. */
  method ConsumeCompOff(rows: seq<Row>, days: real) returns (updated: seq<Update>, shortfall: real)
    ensures updated == Spend(SoonestFirst(rows), days)
    ensures shortfall == Uncovered(rows, days)
  {
    var sorted := SoonestFirst(rows);
    StableSortSum(rows, ExpiresNoLater, Open);
    updated, shortfall := SpendAlong(sorted, days);
  }

  // The loop, over the sorted rows.
  method SpendAlong(sorted: seq<Row>, days: real) returns (updated: seq<Update>, shortfall: real)
    ensures updated == Spend(sorted, days)
    ensures shortfall == Uncovered(sorted, days)
  {
    var remaining := days;
    updated := [];
    assert sorted[0..] == sorted;
    var i := 0;
    while i < |sorted|
      invariant 0 <= i <= |sorted| && SpentUpTo(sorted, days, i, remaining, updated)
    {
      if remaining <= 0.0 {
        break;
      }
      SpendStep(sorted, days, i, remaining, updated);
      var row := sorted[i];
      var available := row.daysEarned - row.daysAvailed;
      i := i + 1;
      if available <= 0.0 {
        continue;
      }
      var portion := MinReal(available, remaining);
      var newAvailed := row.daysAvailed + portion;
      updated := updated + [Update(row.id, newAvailed,
                                   if newAvailed >= row.daysEarned then AVAILED else PARTIALLY_AVAILED)];
      remaining := remaining - portion;
    }
    SpendEnds(sorted, days, i, remaining, updated);
    shortfall := MaxReal(remaining, 0.0);
  }

  /** Gives `days` back, latest-expiring rows first. */
  method ReleaseCompOff(rows: seq<Row>, days: real) returns (updated: seq<Update>)
    ensures updated == GiveBack(LatestFirst(rows), days)
  {
    var sorted := LatestFirst(rows);
    var remaining := days;
    updated := [];
    var i := 0;
    while i < |sorted|
      invariant 0 <= i <= |sorted|
      invariant updated + GiveBack(sorted[i..], remaining) == GiveBack(sorted, days)
    {
      if remaining <= 0.0 {
        break;
      }
      assert sorted[i..][1..] == sorted[i + 1..];
      var row := sorted[i];
      i := i + 1;
      if row.daysAvailed <= 0.0 {
        continue;
      }
      var portion := MinReal(row.daysAvailed, remaining);
      var newAvailed := row.daysAvailed - portion;
      updated := updated + [Update(row.id, newAvailed, if newAvailed > 0.0 then PARTIALLY_AVAILED else APPROVED)];
      remaining := remaining - portion;
    }
  }

  lemma {:induction false} OpenNonNegative(s: seq<Row>)
    ensures Sum(s, Open) >= 0.0
  {
    if s != [] {
      OpenNonNegative(s[1..]);
    }
  }

  // ---- Writing the updates back by id ----

  /** The row after the updates addressed to its id (the first one, as ids are unique). */
  function Written(r: Row, us: seq<Update>): (w: Row)
    ensures w.id == r.id && w.daysEarned == r.daysEarned && w.expiry == r.expiry
  {
    if us == [] then r
    else if us[0].id == r.id then r.(daysAvailed := us[0].daysAvailed, status := us[0].status)
    else Written(r, us[1..])
  }

  function WriteBack(rows: seq<Row>, us: seq<Update>): (after: seq<Row>)
    ensures |after| == |rows|
    ensures forall i :: 0 <= i < |rows| ==> after[i] == Written(rows[i], us)
  {
    seq(|rows|, i requires 0 <= i < |rows| => Written(rows[i], us))
  }

  ghost predicate Touches(us: seq<Update>, id: RowId) {
    exists u :: u in us && u.id == id
  }

  lemma {:induction false} WrittenUntouched(r: Row, us: seq<Update>)
    requires !Touches(us, r.id)
    ensures Written(r, us) == r
  {
    if us != [] {
      assert us[0] in us;
      assert !Touches(us[1..], r.id);
      WrittenUntouched(r, us[1..]);
    }
  }

  lemma SameIdSameRow(rows: seq<Row>, r: Row)
    requires DistinctIds(rows) && r in rows
    ensures forall q :: q in rows && q.id == r.id ==> q == r
  {
  }

  lemma {:induction false} WrittenByOne(r: Row, us: seq<Update>) returns (u: Update)
    requires Touches(us, r.id)
    ensures u in us && u.id == r.id && Written(r, us) == r.(daysAvailed := u.daysAvailed, status := u.status)
  {
    if us[0].id == r.id {
      u := us[0];
    } else {
      assert Touches(us[1..], r.id);
      u := WrittenByOne(r, us[1..]);
    }
  }

  lemma {:induction false} SpendPortion(s: seq<Row>, days: real, u: Update) returns (r: Row, portion: real)
    requires u in Spend(s, days)
    ensures r in s && u == UpdateOf(ConsumedRow(r, portion)) && 0.0 < portion <= Open(r)
  {
    if Open(s[0]) > 0.0 && u == UpdateOf(ConsumedRow(s[0], MinReal(Open(s[0]), days))) {
      r, portion := s[0], MinReal(Open(s[0]), days);
    } else {
      r, portion := SpendPortion(s[1..], if Open(s[0]) <= 0.0 then days else days - MinReal(Open(s[0]), days), u);
    }
  }

  lemma {:induction false} GiveBackPortion(s: seq<Row>, days: real, u: Update) returns (r: Row, portion: real)
    requires u in GiveBack(s, days)
    ensures r in s && u == UpdateOf(ReleasedRow(r, portion)) && 0.0 < portion <= Used(r)
  {
    if Used(s[0]) > 0.0 && u == UpdateOf(ReleasedRow(s[0], MinReal(Used(s[0]), days))) {
      r, portion := s[0], MinReal(Used(s[0]), days);
    } else {
      r, portion := GiveBackPortion(s[1..], if Used(s[0]) <= 0.0 then days else days - MinReal(Used(s[0]), days), u);
    }
  }

  lemma {:induction false} SpendTouchesOnlyIts(s: seq<Row>, days: real, id: RowId)
    requires Touches(Spend(s, days), id)
    ensures exists r :: r in s && r.id == id
  {
    if s != [] && days > 0.0 {
      var rest := if Open(s[0]) <= 0.0 then days else days - MinReal(Open(s[0]), days);
      if s[0].id == id {
        assert s[0] in s;
      } else {
        var u :| u in Spend(s, days) && u.id == id;
        assert u in Spend(s[1..], rest);
        SpendTouchesOnlyIts(s[1..], rest, id);
      }
    }
  }

  lemma {:induction false} GiveBackTouchesOnlyIts(s: seq<Row>, days: real, id: RowId)
    requires Touches(GiveBack(s, days), id)
    ensures exists r :: r in s && r.id == id
  {
    if s != [] && days > 0.0 {
      var rest := if Used(s[0]) <= 0.0 then days else days - MinReal(Used(s[0]), days);
      if s[0].id == id {
        assert s[0] in s;
      } else {
        var u :| u in GiveBack(s, days) && u.id == id;
        assert u in GiveBack(s[1..], rest);
        GiveBackTouchesOnlyIts(s[1..], rest, id);
      }
    }
  }

  /** The ordered list after spending, row by row. */
  ghost function AfterSpend(s: seq<Row>, days: real): (after: seq<Row>)
    ensures |after| == |s|
  {
    if s == [] || days <= 0.0 then s
    else if Open(s[0]) <= 0.0 then [s[0]] + AfterSpend(s[1..], days)
    else
      var portion := MinReal(Open(s[0]), days);
      [ConsumedRow(s[0], portion)] + AfterSpend(s[1..], days - portion)
  }

  ghost function AfterGiveBack(s: seq<Row>, days: real): (after: seq<Row>)
    ensures |after| == |s|
  {
    if s == [] || days <= 0.0 then s
    else if Used(s[0]) <= 0.0 then [s[0]] + AfterGiveBack(s[1..], days)
    else
      var portion := MinReal(Used(s[0]), days);
      [ReleasedRow(s[0], portion)] + AfterGiveBack(s[1..], days - portion)
  }

  lemma {:induction false} SpendWritesAfterSpend(s: seq<Row>, days: real)
    requires DistinctIds(s)
    ensures WriteBack(s, Spend(s, days)) == AfterSpend(s, days)
  {
    if s != [] && days > 0.0 {
      var rest := if Open(s[0]) <= 0.0 then days else days - MinReal(Open(s[0]), days);
      var us := Spend(s[1..], rest);
      SpendWritesAfterSpend(s[1..], rest);
      if Touches(us, s[0].id) {
        SpendTouchesOnlyIts(s[1..], rest, s[0].id);
        assert false;
      }
      WrittenUntouched(s[0], us);
      if Open(s[0]) > 0.0 {
        WriteBackTail(s, Spend(s, days)[0], us);
      } else {
        assert WriteBack(s, us) == [Written(s[0], us)] + WriteBack(s[1..], us);
      }
    }
  }

  lemma {:induction false} GiveBackWritesAfterGiveBack(s: seq<Row>, days: real)
    requires DistinctIds(s)
    ensures WriteBack(s, GiveBack(s, days)) == AfterGiveBack(s, days)
  {
    if s != [] && days > 0.0 {
      var rest := if Used(s[0]) <= 0.0 then days else days - MinReal(Used(s[0]), days);
      var us := GiveBack(s[1..], rest);
      GiveBackWritesAfterGiveBack(s[1..], rest);
      if Touches(us, s[0].id) {
        GiveBackTouchesOnlyIts(s[1..], rest, s[0].id);
        assert false;
      }
      WrittenUntouched(s[0], us);
      if Used(s[0]) > 0.0 {
        WriteBackTail(s, GiveBack(s, days)[0], us);
      } else {
        assert WriteBack(s, us) == [Written(s[0], us)] + WriteBack(s[1..], us);
      }
    }
  }

  // Prepending an update for the head's own id does not change what the tail receives.
  lemma WriteBackTail(s: seq<Row>, u: Update, us: seq<Update>)
    requires s != [] && DistinctIds(s) && u.id == s[0].id
    ensures WriteBack(s, [u] + us) == [Written(s[0], [u])] + WriteBack(s[1..], us)
  {
  }
}
