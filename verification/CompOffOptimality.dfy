// Soonest-expiry-first is optimal: for one consumption against every other way of taking the days, and over whole
// runs of leaves and new credits (src/comp-offs/comp-off-consumption.ts:34-76, comp-off.service.ts:775-826).
module CompOffOptimality {
  import opened Prelude
  import opened CompOffConsumption

  /** The rows after `consumeCompOff` and writing its updates back. */
  function Consumed(rows: seq<Row>, days: real): (after: seq<Row>)
    ensures |after| == |rows|
  {
    WriteBack(rows, Spend(SoonestFirst(rows), days))
  }

  function Released(rows: seq<Row>, days: real): (after: seq<Row>)
    ensures |after| == |rows|
  {
    WriteBack(rows, GiveBack(LatestFirst(rows), days))
  }

  // ---- Any total over the written rows is the total over the ordered list ----

  function AfterWriting(f: Row -> real, us: seq<Update>): Row -> real {
    (r: Row) => f(Written(r, us))
  }

  lemma {:induction false} SumWriteBack(rows: seq<Row>, us: seq<Update>, f: Row -> real)
    ensures Sum(WriteBack(rows, us), f) == Sum(rows, AfterWriting(f, us))
  {
    if rows != [] {
      SumWriteBack(rows[1..], us, f);
      assert WriteBack(rows, us)[1..] == WriteBack(rows[1..], us);
    }
  }

  lemma SumConsumed(rows: seq<Row>, days: real, f: Row -> real)
    requires DistinctIds(rows)
    ensures DistinctIds(SoonestFirst(rows))
    ensures Sum(Consumed(rows, days), f) == Sum(AfterSpend(SoonestFirst(rows), days), f)
  {
    var sorted := SoonestFirst(rows);
    var us := Spend(sorted, days);
    StableSortPairwise(rows, ExpiresNoLater, DifferentIds);
    SumWriteBack(rows, us, f);
    SumWriteBack(sorted, us, f);
    StableSortSum(rows, ExpiresNoLater, AfterWriting(f, us));
    SpendWritesAfterSpend(sorted, days);
  }

  // ---- Facts about the ordered list ----

  lemma SoonestFirstSorted(rows: seq<Row>)
    ensures Sorted(SoonestFirst(rows), ExpiresNoLater)
    ensures forall r :: r in SoonestFirst(rows) <==> r in rows
  {
    StableSortSorted(rows, ExpiresNoLater);
    StableSortMembers(rows, ExpiresNoLater);
  }

  ghost function OpenOn(s: seq<Row>, on: Day): real {
    Sum(s, OpenIfLasts(on))
  }

  function OpenIfLasts(on: Day): Row -> real {
    Restrict(LastsOn(on), Open)
  }

  lemma {:induction false} OpenOnBounds(s: seq<Row>, on: Day)
    ensures 0.0 <= OpenOn(s, on) <= Sum(s, Open)
  {
    if s != [] {
      OpenOnBounds(s[1..], on);
    }
  }

  /** The exact profile a soonest-first consumption leaves: it touches what lasts to `on` only when it has to. */
  lemma {:induction false} AfterSpendProfile(s: seq<Row>, days: real, on: Day)
    requires Sorted(s, ExpiresNoLater) && 0.0 <= days <= Sum(s, Open)
    ensures OpenOn(AfterSpend(s, days), on) == MinReal(OpenOn(s, on), Sum(s, Open) - days)
  {
    OpenOnBounds(s, on);
    if s != [] && days > 0.0 {
      var portion := if Open(s[0]) <= 0.0 then 0.0 else MinReal(Open(s[0]), days);
      OpenNonNegative(s[1..]);
      OpenOnBounds(s[1..], on);
      AfterSpendProfile(s[1..], days - portion, on);
      if Lasts(s[0], on) {
        AllLast(s, on);
        AllLast(s[1..], on);
      }
    }
  }

  lemma AllLast(s: seq<Row>, on: Day)
    requires forall r :: r in s ==> Lasts(r, on)
    ensures OpenOn(s, on) == Sum(s, Open)
  {
  }

  // ---- One consumption ----

  /** `after` is `before` with `days` taken out of what the rows still had, in any way whatever. */
  ghost predicate IsSpending(before: seq<Row>, after: seq<Row>, days: real) {
    && |after| == |before|
    && (forall i :: 0 <= i < |before| ==>
          && after[i].daysEarned == before[i].daysEarned && after[i].expiry == before[i].expiry
          && 0.0 <= after[i].daysAvailed - before[i].daysAvailed <= Open(before[i]))
    && Sum(after, Availed) == Sum(before, Availed) + days
  }

  lemma {:induction false} SumAvailableOnIsOpenOn(rows: seq<Row>, on: Day)
    requires WithinEarned(rows)
    ensures SumAvailableOn(rows, on) == OpenOn(rows, on)
  {
    SumFilter(rows, LastsOn(on), Unconsumed);
    SumCongruent(rows, Restrict(LastsOn(on), Unconsumed), OpenIfLasts(on));
  }

  lemma {:induction false} SpendingBounds(before: seq<Row>, after: seq<Row>, on: Day)
    requires |after| == |before| && WithinEarned(before)
    requires forall i :: 0 <= i < |before| ==>
               && after[i].daysEarned == before[i].daysEarned && after[i].expiry == before[i].expiry
               && 0.0 <= after[i].daysAvailed - before[i].daysAvailed <= Open(before[i])
    ensures OpenOn(after, on) <= OpenOn(before, on)
    ensures Sum(after, Open) + Sum(after, Availed)
         == Sum(before, Open) + Sum(before, Availed)
  {
    if before != [] {
      SpendingBounds(before[1..], after[1..], on);
    }
  }

  lemma ConsumedProfile(rows: seq<Row>, days: real, on: Day)
    requires DistinctIds(rows) && 0.0 <= days <= Sum(rows, Open)
    ensures OpenOn(Consumed(rows, days), on) == MinReal(OpenOn(rows, on), Sum(rows, Open) - days)
  {
    SoonestFirstSorted(rows);
    StableSortSum(rows, ExpiresNoLater, Open);
    StableSortSum(rows, ExpiresNoLater, OpenIfLasts(on));
    SumConsumed(rows, days, OpenIfLasts(on));
    AfterSpendProfile(SoonestFirst(rows), days, on);
  }

  lemma SpendingProfile(rows: seq<Row>, other: seq<Row>, days: real, on: Day)
    requires WithinEarned(rows) && IsSpending(rows, other, days)
    ensures WithinEarned(other)
    ensures 0.0 <= days <= Sum(rows, Open)
    ensures OpenOn(other, on) <= MinReal(OpenOn(rows, on), Sum(rows, Open) - days)
  {
    SpendingBounds(rows, other, on);
    OpenOnBounds(other, on);
    SpendingIsNonNegative(rows, other, days);
    forall r | r in other
      ensures 0.0 <= r.daysAvailed <= r.daysEarned
    {
      var i :| 0 <= i < |other| && other[i] == r;
      assert rows[i] in rows;
    }
  }

  /** Whatever other rows the days are taken from, no more is left for any date than soonest-first leaves. */
  lemma SoonestFirstIsOptimal(rows: seq<Row>, days: real, other: seq<Row>, on: Day)
    requires DistinctIds(rows) && WithinEarned(rows) && IsSpending(rows, other, days)
    ensures SumAvailableOn(other, on) <= SumAvailableOn(Consumed(rows, days), on)
    ensures SumAvailableOn(Consumed(rows, days), on)
         == MinReal(SumAvailableOn(rows, on), SumAvailable(rows) - days)
  {
    SpendingProfile(rows, other, days, on);
    ConsumedProfile(rows, days, on);
    ConsumedWithinEarned(rows, days);
    SumAvailableOnIsOpenOn(rows, on);
    SumAvailableOnIsOpenOn(other, on);
    SumAvailableOnIsOpenOn(Consumed(rows, days), on);
    SumCongruent(rows, Open, Unconsumed);
  }

  lemma {:induction false} SpendingIsNonNegative(before: seq<Row>, after: seq<Row>, days: real)
    requires IsSpending(before, after, days)
    ensures 0.0 <= days
  {
    if before != [] {
      var first := after[0].daysAvailed - before[0].daysAvailed;
      SpendingIsNonNegative(before[1..], after[1..], days - first);
    }
  }

  lemma {:induction false} AfterSpendWithinEarned(s: seq<Row>, days: real)
    requires WithinEarned(s)
    ensures WithinEarned(AfterSpend(s, days))
  {
    if s != [] && days > 0.0 {
      AfterSpendWithinEarned(s[1..], if Open(s[0]) <= 0.0 then days else days - MinReal(Open(s[0]), days));
    }
  }

  /** A row of the written ledger is a row of the ordered list after spending. */
  lemma ConsumedMember(rows: seq<Row>, days: real, r: Row)
    requires DistinctIds(rows) && r in rows
    ensures Written(r, Spend(SoonestFirst(rows), days)) in AfterSpend(SoonestFirst(rows), days)
  {
    var sorted := SoonestFirst(rows);
    StableSortPairwise(rows, ExpiresNoLater, DifferentIds);
    SoonestFirstSorted(rows);
    SpendWritesAfterSpend(sorted, days);
    var j :| 0 <= j < |sorted| && sorted[j] == r;
    assert WriteBack(sorted, Spend(sorted, days))[j] == Written(r, Spend(sorted, days));
  }

  lemma ConsumedWithinEarned(rows: seq<Row>, days: real)
    requires DistinctIds(rows) && WithinEarned(rows)
    ensures WithinEarned(Consumed(rows, days))
  {
    SoonestFirstSorted(rows);
    AfterSpendWithinEarned(SoonestFirst(rows), days);
    forall i | 0 <= i < |rows|
      ensures Consumed(rows, days)[i] in AfterSpend(SoonestFirst(rows), days)
    {
      ConsumedMember(rows, days, rows[i]);
    }
  }

  // ---- Whole runs ----

  predicate Consumable(s: Status) {
    s.APPROVED? || s.PARTIALLY_AVAILED?
  }

  /** The rows a leave starting its consumption on day `on` may draw from. */
  predicate Usable(r: Row, on: Day) {
    Consumable(r.status) && Lasts(r, on)
  }

  function UsableAt(on: Day): Row -> bool {
    (r: Row) => Usable(r, on)
  }

  function UsableRows(rows: seq<Row>, on: Day): (usable: seq<Row>) {
    Filter(rows, UsableAt(on))
  }

  /** The employee's ledger after `consumeForLeave` committed on day `on`. */
  function ConsumedOn(rows: seq<Row>, on: Day, days: real): (after: seq<Row>)
    ensures |after| == |rows|
  {
    WriteBack(rows, Spend(SoonestFirst(UsableRows(rows, on)), days))
  }

  /** What a leave taken on day `on` could draw. */
  ghost function Profile(rows: seq<Row>, on: Day): real {
    Sum(rows, UsableOpen(on))
  }

  function UsableOpen(on: Day): Row -> real {
    Restrict(UsableAt(on), Open)
  }

  // After spending, a row is either as consumable as before or has nothing left.
  lemma {:induction false} AfterSpendStatus(s: seq<Row>, days: real, on: Day)
    requires forall r :: r in s ==> Consumable(r.status)
    ensures Profile(AfterSpend(s, days), on) == OpenOn(AfterSpend(s, days), on)
  {
    if s != [] && days > 0.0 {
      AfterSpendStatus(s[1..], if Open(s[0]) <= 0.0 then days else days - MinReal(Open(s[0]), days), on);
    } else {
      SumCongruent(s, UsableOpen(on), OpenIfLasts(on));
    }
  }

  lemma SumUsable(rows: seq<Row>, on: Day, later: Day)
    requires on <= later
    ensures OpenOn(UsableRows(rows, on), later) == Profile(rows, later)
    ensures Sum(UsableRows(rows, on), Open) == Profile(rows, on)
  {
    SumFilter(rows, UsableAt(on), OpenIfLasts(later));
    SumCongruent(rows, Restrict(UsableAt(on), OpenIfLasts(later)), UsableOpen(later));
    SumFilter(rows, UsableAt(on), Open);
  }

  lemma SpendLeavesOthers(rows: seq<Row>, on: Day, days: real, r: Row)
    requires DistinctIds(rows) && r in rows && !Usable(r, on)
    ensures Written(r, Spend(SoonestFirst(UsableRows(rows, on)), days)) == r
  {
    var usable := UsableRows(rows, on);
    var us := Spend(SoonestFirst(usable), days);
    SoonestFirstSorted(usable);
    if Touches(us, r.id) {
      SpendTouchesOnlyIts(SoonestFirst(usable), days, r.id);
      assert false;
    }
    WrittenUntouched(r, us);
  }

  // Only the usable rows contribute to the profile of a later date, before and after the write.
  lemma ConsumedOnIsConsumedUsable(rows: seq<Row>, on: Day, days: real, later: Day)
    requires DistinctIds(rows) && on <= later
    ensures Profile(ConsumedOn(rows, on, days), later) == Profile(Consumed(UsableRows(rows, on), days), later)
  {
    var usable := UsableRows(rows, on);
    var us := Spend(SoonestFirst(usable), days);
    var p, g := UsableAt(on), AfterWriting(UsableOpen(later), us);
    SumWriteBack(rows, us, UsableOpen(later));
    forall r | r in rows
      ensures g(r) == Restrict(p, g)(r)
    {
      if !p(r) {
        SpendLeavesOthers(rows, on, days, r);
      }
    }
    SumCongruent(rows, g, Restrict(p, g));
    SumFilter(rows, p, g);
    SumWriteBack(usable, us, UsableOpen(later));
  }

  /** The profile for every later date after one committed leave. */
  lemma ConsumedOnProfile(rows: seq<Row>, on: Day, days: real, later: Day)
    requires DistinctIds(rows) && on <= later && 0.0 <= days <= Profile(rows, on)
    ensures Profile(ConsumedOn(rows, on, days), later)
         == MinReal(Profile(rows, later), Profile(rows, on) - days)
  {
    var usable := UsableRows(rows, on);
    FilterPairwise(rows, UsableAt(on), DifferentIds);
    ConsumedOnIsConsumedUsable(rows, on, days, later);
    SumConsumed(usable, days, UsableOpen(later));
    SumConsumed(usable, days, OpenIfLasts(later));
    SoonestFirstSorted(usable);
    AfterSpendStatus(SoonestFirst(usable), days, later);
    SumUsable(rows, on, later);
    ConsumedProfile(usable, days, later);
  }

  /** Any legal way of granting a leave of `days` on day `on`: only usable rows are drawn, and statuses follow. */
  ghost predicate LegalLeave(before: seq<Row>, after: seq<Row>, on: Day, days: real) {
    && |after| == |before|
    && (forall i :: 0 <= i < |before| ==> LegalRow(before[i], after[i], on))
    && Sum(after, Availed) == Sum(before, Availed) + days
  }

  ghost predicate LegalRow(b: Row, a: Row, on: Day) {
    || a == b
    || exists portion :: 0.0 < portion <= Open(b) && Usable(b, on) && a == ConsumedRow(b, portion)
  }

  lemma {:induction false} LegalLeaveProfile(before: seq<Row>, after: seq<Row>, on: Day, later: Day)
    requires |after| == |before| && on <= later
    requires forall i :: 0 <= i < |before| ==> LegalRow(before[i], after[i], on)
    ensures Profile(after, later) <= Profile(before, later)
    ensures Profile(after, later) <= Profile(after, on)
    ensures Profile(after, on) + Sum(after, Availed)
         == Profile(before, on) + Sum(before, Availed)
    ensures Sum(before, Availed) <= Sum(after, Availed)
  {
    if before != [] {
      assert LegalRow(before[0], after[0], on);
      LegalLeaveProfile(before[1..], after[1..], on, later);
    }
  }

  datatype Event = Leave(on: Day, days: real) | Credit(on: Day, row: Row)

  /** One event served by some strategy: a leave is granted in full in any legal way, a credit joins the ledger. */
  ghost predicate ServesOne(before: seq<Row>, after: seq<Row>, event: Event) {
    match event
    case Leave(on, days) => LegalLeave(before, after, on, days)
    case Credit(_, row) => after == before + [row]
  }

  /** Some strategy's ledgers, one per moment of the run. */
  ghost predicate Serves(ledgers: seq<seq<Row>>, events: seq<Event>) {
    && |ledgers| == |events| + 1
    && forall i :: 0 <= i < |events| ==> ServesOne(ledgers[i], ledgers[i + 1], events[i])
  }

  predicate Refused(rows: seq<Row>, event: Event) {
    event.Leave? && event.days > Available(UsableRows(rows, event.on))
  }

  function AfterEvent(rows: seq<Row>, event: Event): seq<Row> {
    match event
    case Leave(on, days) => ConsumedOn(rows, on, days)
    case Credit(_, row) => rows + [row]
  }

  /** The ledger `consumeForLeave` ends with, or None as soon as one leave is refused for insufficient balance. */
  function RunSoonestFirst(rows: seq<Row>, events: seq<Event>): Option<seq<Row>>
    decreases |events|
  {
    if events == [] then Some(rows)
    else if Refused(rows, events[0]) then None
    else RunSoonestFirst(AfterEvent(rows, events[0]), events[1..])
  }

  function Available(rows: seq<Row>): (total: real)
    ensures total == Sum(rows, Open)
  {
    if rows == [] then 0.0 else Open(rows[0]) + Available(rows[1..])
  }

  ghost predicate InOrder(events: seq<Event>) {
    forall i, j :: 0 <= i < j < |events| ==> events[i].on <= events[j].on
  }

  /** Ids are never reused: no credit repeats an id of the ledger or of another credit. */
  ghost predicate FreshCredits(rows: seq<Row>, events: seq<Event>) {
    && (forall i :: 0 <= i < |events| && events[i].Credit? ==> forall r :: r in rows ==> r.id != events[i].row.id)
    && (forall i, j :: 0 <= i < j < |events| && events[i].Credit? && events[j].Credit? ==>
          events[i].row.id != events[j].row.id)
  }

  ghost predicate Dominates(a: seq<Row>, b: seq<Row>, from: Day) {
    forall d :: from <= d ==> Profile(a, d) >= Profile(b, d)
  }

  lemma DominatesStep(rows: seq<Row>, before: seq<Row>, after: seq<Row>, on: Day, days: real)
    requires DistinctIds(rows) && Dominates(rows, before, on) && LegalLeave(before, after, on, days)
    ensures 0.0 <= days <= Profile(rows, on)
    ensures Dominates(ConsumedOn(rows, on, days), after, on)
  {
    LegalLeaveProfile(before, after, on, on);
    ProfileNonNegative(after, on);
    forall d | on <= d
      ensures Profile(ConsumedOn(rows, on, days), d) >= Profile(after, d)
    {
      LegalLeaveProfile(before, after, on, d);
      ConsumedOnProfile(rows, on, days, d);
    }
  }

  lemma {:induction false} ProfileNonNegative(rows: seq<Row>, on: Day)
    ensures Profile(rows, on) >= 0.0
  {
    if rows != [] {
      ProfileNonNegative(rows[1..], on);
    }
  }

  lemma CreditStep(rows: seq<Row>, before: seq<Row>, row: Row, on: Day)
    requires Dominates(rows, before, on)
    ensures Dominates(rows + [row], before + [row], on)
  {
    forall d | on <= d
      ensures Profile(rows + [row], d) >= Profile(before + [row], d)
    {
      assert Profile(rows, d) >= Profile(before, d);
      SumAppend(rows, [row], UsableOpen(d));
      SumAppend(before, [row], UsableOpen(d));
    }
  }

  lemma EventStep(rows: seq<Row>, before: seq<Row>, after: seq<Row>, event: Event)
    requires DistinctIds(rows) && Dominates(rows, before, event.on) && ServesOne(before, after, event)
    ensures !Refused(rows, event)
    ensures Dominates(AfterEvent(rows, event), after, event.on)
  {
    match event {
      case Leave(on, days) =>
        DominatesStep(rows, before, after, on, days);
        SumUsable(rows, on, on);
      case Credit(on, row) =>
        CreditStep(rows, before, row, on);
    }
  }

  lemma EventKeepsIds(rows: seq<Row>, events: seq<Event>)
    requires events != [] && DistinctIds(rows) && FreshCredits(rows, events)
    ensures DistinctIds(AfterEvent(rows, events[0]))
    ensures FreshCredits(AfterEvent(rows, events[0]), events[1..])
  {
  }

  /**
   * If any strategy at all can grant every leave of a run of leaves and new credits, soonest-expiry-first grants
   * them all too, and is left with at least as much for every later date.
   */
  lemma {:induction false} SoonestFirstServesEveryRun(rows: seq<Row>, ledgers: seq<seq<Row>>, events: seq<Event>,
                                                      from: Day)
    requires DistinctIds(rows) && InOrder(events) && FreshCredits(rows, events) && Serves(ledgers, events)
    requires events != [] ==> from <= events[0].on
    requires Dominates(rows, ledgers[0], from)
    ensures RunSoonestFirst(rows, events).Some?
    ensures Dominates(RunSoonestFirst(rows, events).value, ledgers[|events|],
                      if events == [] then from else events[|events| - 1].on)
    decreases |events|
  {
    if events != [] {
      var on, next := events[0].on, AfterEvent(rows, events[0]);
      DominatesFromLater(rows, ledgers[0], from, on);
      EventStep(rows, ledgers[0], ledgers[1], events[0]);
      EventKeepsIds(rows, events);
      ServesRest(ledgers, events);
      SoonestFirstServesEveryRun(next, ledgers[1..], events[1..], on);
    }
  }

  lemma DominatesFromLater(a: seq<Row>, b: seq<Row>, from: Day, later: Day)
    requires Dominates(a, b, from) && from <= later
    ensures Dominates(a, b, later)
  {
  }

  lemma ServesRest(ledgers: seq<seq<Row>>, events: seq<Event>)
    requires events != [] && Serves(ledgers, events)
    ensures Serves(ledgers[1..], events[1..])
  {
  }

  // ---- And it serves only what can be served ----

  lemma ConsumedRowIsLegal(rows: seq<Row>, on: Day, days: real, r: Row)
    requires DistinctIds(rows) && r in rows
    ensures LegalRow(r, Written(r, Spend(SoonestFirst(UsableRows(rows, on)), days)), on)
  {
    var usable := UsableRows(rows, on);
    var us := Spend(SoonestFirst(usable), days);
    if Touches(us, r.id) {
      var u := WrittenByOne(r, us);
      var drawn, portion := SpendPortion(SoonestFirst(usable), days, u);
      SoonestFirstSorted(usable);
      assert drawn in rows && drawn.id == r.id;
      SameIdSameRow(rows, r);
    } else {
      WrittenUntouched(r, us);
    }
  }

  lemma ConsumedOnIsLegal(rows: seq<Row>, on: Day, days: real)
    requires DistinctIds(rows) && 0.0 <= days <= Available(UsableRows(rows, on))
    ensures LegalLeave(rows, ConsumedOn(rows, on, days), on, days)
  {
    var after := ConsumedOn(rows, on, days);
    forall i | 0 <= i < |rows|
      ensures LegalRow(rows[i], after[i], on)
    {
      ConsumedRowIsLegal(rows, on, days, rows[i]);
    }
    SumUsable(rows, on, on);
    ConsumedOnProfile(rows, on, days, on);
    LegalLeaveProfile(rows, after, on, on);
  }

  ghost predicate NoNegativeLeave(events: seq<Event>) {
    forall i :: 0 <= i < |events| && events[i].Leave? ==> events[i].days >= 0.0
  }

  lemma {:induction false} ServedHasLedgers(rows: seq<Row>, events: seq<Event>) returns (ledgers: seq<seq<Row>>)
    requires DistinctIds(rows) && FreshCredits(rows, events) && NoNegativeLeave(events)
    requires RunSoonestFirst(rows, events).Some?
    ensures Serves(ledgers, events) && ledgers[0] == rows
    decreases |events|
  {
    ledgers := [rows];
    if events != [] {
      EventKeepsIds(rows, events);
      var rest := ServedHasLedgers(AfterEvent(rows, events[0]), events[1..]);
      if events[0].Leave? {
        ConsumedOnIsLegal(rows, events[0].on, events[0].days);
      }
      ledgers := [rows] + rest;
      assert forall i :: 0 < i < |events| ==> ServesOne(rest[i - 1], rest[i], events[1..][i - 1]);
    }
  }

  lemma ServedIsNotNegative(ledgers: seq<seq<Row>>, events: seq<Event>)
    requires Serves(ledgers, events)
    ensures NoNegativeLeave(events)
  {
    forall i | 0 <= i < |events| && events[i].Leave?
      ensures events[i].days >= 0.0
    {
      assert ServesOne(ledgers[i], ledgers[i + 1], events[i]);
      LegalLeaveProfile(ledgers[i], ledgers[i + 1], events[i].on, events[i].on);
    }
  }

  /**
   * Soonest-expiry-first gets through a run of leaves and new credits, refusing none, if and only if it can be got
   * through at all: some way of granting every leave from usable credits exists.
   */
  lemma SoonestFirstServesIff(rows: seq<Row>, events: seq<Event>)
    requires DistinctIds(rows) && InOrder(events) && FreshCredits(rows, events)
    ensures RunSoonestFirst(rows, events).Some? && NoNegativeLeave(events)
       <==> exists ledgers :: Serves(ledgers, events) && ledgers[0] == rows
  {
    if RunSoonestFirst(rows, events).Some? && NoNegativeLeave(events) {
      var ledgers := ServedHasLedgers(rows, events);
    }
    if ledgers :| Serves(ledgers, events) && ledgers[0] == rows {
      SoonestFirstServesEveryRun(rows, ledgers, events, if events == [] then 0 else events[0].on);
      ServedIsNotNegative(ledgers, events);
    }
  }
}
