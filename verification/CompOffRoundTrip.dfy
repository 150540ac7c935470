// Conservation, status agreement and the conditional round trip of consuming and releasing
// (src/comp-offs/comp-off-consumption.ts:53-112).
module CompOffRoundTrip {
  import opened Prelude
  import opened CompOffConsumption
  import opened CompOffOptimality

  // ---- Conservation ----

  lemma {:induction false} AfterSpendAvailed(s: seq<Row>, days: real)
    requires 0.0 <= days
    ensures Sum(AfterSpend(s, days), Availed) == Sum(s, Availed) + MinReal(days, Sum(s, Open))
  {
    OpenNonNegative(s);
    if s != [] && days > 0.0 {
      OpenNonNegative(s[1..]);
      AfterSpendAvailed(s[1..], if Open(s[0]) <= 0.0 then days else days - MinReal(Open(s[0]), days));
    }
  }

  lemma {:induction false} UsedNonNegative(s: seq<Row>)
    ensures Sum(s, Used) >= 0.0
  {
    if s != [] {
      UsedNonNegative(s[1..]);
    }
  }

  lemma {:induction false} AfterGiveBackAvailed(s: seq<Row>, days: real)
    requires 0.0 <= days
    ensures Sum(AfterGiveBack(s, days), Availed) == Sum(s, Availed) - MinReal(days, Sum(s, Used))
  {
    UsedNonNegative(s);
    if s != [] && days > 0.0 {
      UsedNonNegative(s[1..]);
      AfterGiveBackAvailed(s[1..], if Used(s[0]) <= 0.0 then days else days - MinReal(Used(s[0]), days));
    }
  }

  lemma SumReleased(rows: seq<Row>, days: real, f: Row -> real)
    requires DistinctIds(rows)
    ensures DistinctIds(LatestFirst(rows))
    ensures Sum(Released(rows, days), f) == Sum(AfterGiveBack(LatestFirst(rows), days), f)
  {
    var sorted := LatestFirst(rows);
    var us := GiveBack(sorted, days);
    StableSortPairwise(rows, ExpiresNoSooner, DifferentIds);
    SumWriteBack(rows, us, f);
    SumWriteBack(sorted, us, f);
    StableSortSum(rows, ExpiresNoSooner, AfterWriting(f, us));
    GiveBackWritesAfterGiveBack(sorted, days);
  }

  /** Consuming adds exactly the requested days minus the shortfall. */
  lemma ConsumeAddsDaysMinusShortfall(rows: seq<Row>, days: real)
    requires DistinctIds(rows) && 0.0 <= days
    ensures Sum(Consumed(rows, days), Availed)
         == Sum(rows, Availed) + days - MaxReal(0.0, days - Sum(rows, Open))
  {
    var sorted := SoonestFirst(rows);
    assert Sum(sorted, Availed) == Sum(rows, Availed) && Sum(sorted, Open) == Sum(rows, Open) by {
      StableSortSum(rows, ExpiresNoLater, Availed);
      StableSortSum(rows, ExpiresNoLater, Open);
    }
    assert Sum(Consumed(rows, days), Availed) == Sum(AfterSpend(sorted, days), Availed) by {
      SumConsumed(rows, days, Availed);
    }
    assert Sum(AfterSpend(sorted, days), Availed) == Sum(sorted, Availed) + MinReal(days, Sum(sorted, Open)) by {
      AfterSpendAvailed(sorted, days);
    }
    assert MinReal(days, Sum(rows, Open)) == days - MaxReal(0.0, days - Sum(rows, Open));
  }

  /** Releasing gives back exactly the smaller of the requested and the used days. */
  lemma ReleaseReturnsAtMostUsed(rows: seq<Row>, days: real)
    requires DistinctIds(rows) && 0.0 <= days
    ensures Sum(Released(rows, days), Availed) == Sum(rows, Availed) - MinReal(days, Sum(rows, Used))
  {
    SumReleased(rows, days, Availed);
    AfterGiveBackAvailed(LatestFirst(rows), days);
    StableSortSum(rows, ExpiresNoSooner, Availed);
    StableSortSum(rows, ExpiresNoSooner, Used);
  }

  // ---- What both operations keep, row by row ----

  /** A row whose count is within what it earned and whose status says how much of it is used. */
  predicate Settled(r: Row) {
    && 0.0 <= r.daysAvailed <= r.daysEarned
    && r.status == if r.daysAvailed <= 0.0 then APPROVED
                   else if r.daysAvailed >= r.daysEarned then AVAILED else PARTIALLY_AVAILED
  }

  ghost predicate AllSettled(rows: seq<Row>) {
    forall r :: r in rows ==> Settled(r)
  }

  /** Soonest-first shape: a row that has been used at all has every sooner-expiring row fully used. */
  ghost predicate UsedSoonestFirst(rows: seq<Row>) {
    forall a, b :: a in rows && b in rows && a.expiry != b.expiry && ExpiresNoLater(a, b) && b.daysAvailed > 0.0 ==>
      a.daysAvailed >= a.daysEarned
  }

  ghost predicate SameCredits(a: seq<Row>, b: seq<Row>) {
    && |a| == |b|
    && forall i :: 0 <= i < |a| ==>
          a[i].id == b[i].id && a[i].daysEarned == b[i].daysEarned && a[i].expiry == b[i].expiry
  }

  /** A ledger in use: unique ids, settled rows, used soonest-first. Several credits may expire on one day. */
  ghost predicate InShape(rows: seq<Row>) {
    DistinctIds(rows) && AllSettled(rows) && UsedSoonestFirst(rows)
  }

  /** Spending only adds, and reaches a row only when every row before it is used up. */
  lemma {:induction false} SpendingFillsInOrder(s: seq<Row>, days: real)
    requires AllSettled(s)
    ensures AllSettled(AfterSpend(s, days)) && SameCredits(AfterSpend(s, days), s)
    ensures forall i :: 0 <= i < |s| ==> s[i].daysAvailed <= AfterSpend(s, days)[i].daysAvailed
    ensures forall i, j :: 0 <= i < j < |s| && AfterSpend(s, days)[j] != s[j] ==>
              AfterSpend(s, days)[i].daysAvailed >= s[i].daysEarned
  {
    if s != [] && days > 0.0 {
      var rest := if Open(s[0]) <= 0.0 then days else days - MinReal(Open(s[0]), days);
      SpendingFillsInOrder(s[1..], rest);
      var after, tail := AfterSpend(s, days), AfterSpend(s[1..], rest);
      assert after[1..] == tail;
      assert s[0] in s && Settled(s[0]);
    }
  }

  /** Giving back only takes off, and reaches a row only when every row before it is unused. */
  lemma {:induction false} GivingBackEmptiesInOrder(s: seq<Row>, days: real)
    requires AllSettled(s)
    ensures AllSettled(AfterGiveBack(s, days)) && SameCredits(AfterGiveBack(s, days), s)
    ensures forall i :: 0 <= i < |s| ==> AfterGiveBack(s, days)[i].daysAvailed <= s[i].daysAvailed
    ensures forall i, j :: 0 <= i < j < |s| && AfterGiveBack(s, days)[j] != s[j] ==>
              AfterGiveBack(s, days)[i].daysAvailed <= 0.0
  {
    if s != [] && days > 0.0 {
      var rest := if Used(s[0]) <= 0.0 then days else days - MinReal(Used(s[0]), days);
      GivingBackEmptiesInOrder(s[1..], rest);
      var after, tail := AfterGiveBack(s, days), AfterGiveBack(s[1..], rest);
      assert after[1..] == tail;
      assert s[0] in s && Settled(s[0]);
    }
  }

  ghost predicate ShapeHolds(a: Row, b: Row) {
    a.expiry != b.expiry && ExpiresNoLater(a, b) && b.daysAvailed > 0.0 ==> a.daysAvailed >= a.daysEarned
  }

  lemma SoonerComesFirst(s: seq<Row>, i: nat, j: nat)
    requires Sorted(s, ExpiresNoLater) && i < |s| && j < |s|
    requires s[i].expiry != s[j].expiry && ExpiresNoLater(s[i], s[j])
    ensures i < j
  {
  }

  lemma LaterComesFirst(s: seq<Row>, i: nat, j: nat)
    requires Sorted(s, ExpiresNoSooner) && i < |s| && j < |s|
    requires s[i].expiry != s[j].expiry && ExpiresNoLater(s[i], s[j])
    ensures j < i
  {
  }

  lemma SpendingKeepsShape(s: seq<Row>, days: real)
    requires AllSettled(s) && UsedSoonestFirst(s) && Sorted(s, ExpiresNoLater)
    ensures UsedSoonestFirst(AfterSpend(s, days))
  {
    var after := AfterSpend(s, days);
    SpendingFillsInOrder(s, days);
    forall i, j | 0 <= i < |s| && 0 <= j < |s|
      ensures ShapeHolds(after[i], after[j])
    {
      if s[i].expiry != s[j].expiry && ExpiresNoLater(s[i], s[j]) {
        SoonerComesFirst(s, i, j);
        assert s[i] in s && s[j] in s;
      }
    }
    ShapeOfPairs(after);
  }

  lemma GivingBackKeepsShape(s: seq<Row>, days: real)
    requires AllSettled(s) && UsedSoonestFirst(s) && Sorted(s, ExpiresNoSooner)
    ensures UsedSoonestFirst(AfterGiveBack(s, days))
  {
    var after := AfterGiveBack(s, days);
    GivingBackEmptiesInOrder(s, days);
    forall i, j | 0 <= i < |s| && 0 <= j < |s|
      ensures ShapeHolds(after[i], after[j])
    {
      if s[i].expiry != s[j].expiry && ExpiresNoLater(s[i], s[j]) {
        LaterComesFirst(s, i, j);
        assert s[i] in s && s[j] in s;
      }
    }
    ShapeOfPairs(after);
  }

  lemma ShapeOfPairs(s: seq<Row>)
    requires forall i, j :: 0 <= i < |s| && 0 <= j < |s| ==> ShapeHolds(s[i], s[j])
    ensures UsedSoonestFirst(s)
  {
    forall a, b | a in s && b in s
      ensures ShapeHolds(a, b)
    {
      var i :| 0 <= i < |s| && s[i] == a;
      var j :| 0 <= j < |s| && s[j] == b;
    }
  }

  lemma ReleasedMember(rows: seq<Row>, days: real, r: Row)
    requires DistinctIds(rows) && r in rows
    ensures Written(r, GiveBack(LatestFirst(rows), days)) in AfterGiveBack(LatestFirst(rows), days)
  {
    var sorted := LatestFirst(rows);
    StableSortPairwise(rows, ExpiresNoSooner, DifferentIds);
    StableSortMembers(rows, ExpiresNoSooner);
    GiveBackWritesAfterGiveBack(sorted, days);
    var j :| 0 <= j < |sorted| && sorted[j] == r;
    assert WriteBack(sorted, GiveBack(sorted, days))[j] == Written(r, GiveBack(sorted, days));
  }

  lemma SameCreditsSameIds(a: seq<Row>, s: seq<Row>)
    requires SameCredits(a, s)
    ensures DistinctIds(s) ==> DistinctIds(a)
    ensures DistinctExpiries(s) ==> DistinctExpiries(a)
  {
    forall i, j | 0 <= i < j < |a|
      ensures DifferentIds(a[i], a[j]) == DifferentIds(s[i], s[j])
      ensures DifferentExpiries(a[i], a[j]) == DifferentExpiries(s[i], s[j])
    {
    }
  }

  // What holds of all rows, or all pairs of rows, carries over to any list drawn from them.
  lemma DrawnFrom(now: seq<Row>, after: seq<Row>)
    requires forall r :: r in now ==> r in after
    requires AllSettled(after) && UsedSoonestFirst(after)
    ensures AllSettled(now) && UsedSoonestFirst(now)
  {
  }

  lemma ConsumedDrawnFrom(rows: seq<Row>, days: real)
    requires DistinctIds(rows)
    ensures forall r :: r in Consumed(rows, days) ==> r in AfterSpend(SoonestFirst(rows), days)
  {
    forall i | 0 <= i < |rows|
      ensures Consumed(rows, days)[i] in AfterSpend(SoonestFirst(rows), days)
    {
      ConsumedMember(rows, days, rows[i]);
    }
  }

  lemma ReleasedDrawnFrom(rows: seq<Row>, days: real)
    requires DistinctIds(rows)
    ensures forall r :: r in Released(rows, days) ==> r in AfterGiveBack(LatestFirst(rows), days)
  {
    forall i | 0 <= i < |rows|
      ensures Released(rows, days)[i] in AfterGiveBack(LatestFirst(rows), days)
    {
      ReleasedMember(rows, days, rows[i]);
    }
  }

  lemma ConsumeKeepsShape(rows: seq<Row>, days: real)
    requires InShape(rows)
    ensures InShape(Consumed(rows, days))
  {
    var sorted := SoonestFirst(rows);
    SoonestFirstSorted(rows);
    DrawnFrom(sorted, rows);
    SpendingFillsInOrder(sorted, days);
    SpendingKeepsShape(sorted, days);
    ConsumedDrawnFrom(rows, days);
    DrawnFrom(Consumed(rows, days), AfterSpend(sorted, days));
    SameCreditsSameIds(Consumed(rows, days), rows);
  }

  lemma ReleaseKeepsShape(rows: seq<Row>, days: real)
    requires InShape(rows)
    ensures InShape(Released(rows, days))
  {
    var sorted := LatestFirst(rows);
    StableSortSorted(rows, ExpiresNoSooner);
    StableSortMembers(rows, ExpiresNoSooner);
    DrawnFrom(sorted, rows);
    GivingBackEmptiesInOrder(sorted, days);
    GivingBackKeepsShape(sorted, days);
    ReleasedDrawnFrom(rows, days);
    DrawnFrom(Released(rows, days), AfterGiveBack(sorted, days));
    SameCreditsSameIds(Released(rows, days), rows);
  }

  // ---- The shape determines the ledger ----

  lemma {:induction false} SmallerSomewhere(a: seq<Row>, b: seq<Row>, i: nat) returns (j: nat)
    requires |a| == |b| && i < |a| && a[i].daysAvailed < b[i].daysAvailed
    requires Sum(a, Availed) >= Sum(b, Availed)
    ensures j < |a| && a[j].daysAvailed > b[j].daysAvailed
  {
    if forall k :: 0 <= k < |a| ==> a[k].daysAvailed <= b[k].daysAvailed {
      StrictlySmaller(a, b, i);
      assert false;
    }
    j :| 0 <= j < |a| && a[j].daysAvailed > b[j].daysAvailed;
  }

  lemma {:induction false} StrictlySmaller(a: seq<Row>, b: seq<Row>, i: nat)
    requires |a| == |b| && i < |a| && a[i].daysAvailed < b[i].daysAvailed
    requires forall k :: 0 <= k < |a| ==> a[k].daysAvailed <= b[k].daysAvailed
    ensures Sum(a, Availed) < Sum(b, Availed)
  {
    if i == 0 {
      NotLarger(a[1..], b[1..]);
    } else {
      StrictlySmaller(a[1..], b[1..], i - 1);
    }
  }

  lemma {:induction false} NotLarger(a: seq<Row>, b: seq<Row>)
    requires |a| == |b|
    requires forall k :: 0 <= k < |a| ==> a[k].daysAvailed <= b[k].daysAvailed
    ensures Sum(a, Availed) <= Sum(b, Availed)
  {
    if a != [] {
      NotLarger(a[1..], b[1..]);
    }
  }

  lemma NotBothDirections(ai: Row, bi: Row, aj: Row, bj: Row, a: seq<Row>, b: seq<Row>)
    requires ai in a && aj in a && bi in b && bj in b
    requires AllSettled(a) && AllSettled(b) && UsedSoonestFirst(a) && UsedSoonestFirst(b)
    requires ai.expiry == bi.expiry && aj.expiry == bj.expiry && ai.expiry != aj.expiry
    requires ai.daysEarned == bi.daysEarned && aj.daysEarned == bj.daysEarned
    ensures !(ai.daysAvailed < bi.daysAvailed && aj.daysAvailed > bj.daysAvailed)
  {
  }

  lemma NowhereSmaller(a: seq<Row>, b: seq<Row>, i: nat)
    requires InShape(a) && InShape(b) && DistinctExpiries(a) && SameCredits(a, b) && Sum(a, Availed) == Sum(b, Availed)
    requires i < |a|
    ensures a[i].daysAvailed >= b[i].daysAvailed
  {
    if a[i].daysAvailed < b[i].daysAvailed {
      var j := SmallerSomewhere(a, b, i);
      assert DifferentExpiries(a[Min(i, j)], a[Max(i, j)]);
      NotBothDirections(a[i], b[i], a[j], b[j], a, b);
    }
  }

  /** Two ledgers of the same credits, both used soonest-first, with the same total used, are the same row by row. */
  lemma ShapeDeterminesLedger(a: seq<Row>, b: seq<Row>)
    requires InShape(a) && InShape(b) && DistinctExpiries(a) && SameCredits(a, b) && Sum(a, Availed) == Sum(b, Availed)
    ensures a == b
  {
    forall i | 0 <= i < |a|
      ensures a[i] == b[i]
    {
      NowhereSmaller(a, b, i);
      NowhereSmaller(b, a, i);
      assert a[i] in a && b[i] in b;
    }
  }

  lemma SettledUsedIsAvailed(rows: seq<Row>)
    requires AllSettled(rows)
    ensures Sum(rows, Used) == Sum(rows, Availed)
    ensures Sum(rows, Open) == SumAvailable(rows)
  {
    SumCongruent(rows, Used, Availed);
    SumCongruent(rows, Open, Unconsumed);
  }

  // ---- Writing does not change the order ----

  ghost predicate ByExpiry(leq: (Row, Row) -> bool, us: seq<Update>) {
    forall a, b :: leq(Written(a, us), Written(b, us)) == leq(a, b)
  }

  lemma WriteBackCons(r: Row, s: seq<Row>, us: seq<Update>)
    ensures WriteBack([r] + s, us) == [Written(r, us)] + WriteBack(s, us)
  {
  }

  lemma {:induction false} InsertCommutes(r: Row, s: seq<Row>, us: seq<Update>, leq: (Row, Row) -> bool)
    requires ByExpiry(leq, us)
    ensures Insert(Written(r, us), WriteBack(s, us), leq) == WriteBack(Insert(r, s, leq), us)
  {
    if s == [] || leq(r, s[0]) {
      WriteBackCons(r, s, us);
    } else {
      InsertCommutes(r, s[1..], us, leq);
      WriteBackCons(s[0], Insert(r, s[1..], leq), us);
      assert WriteBack(s, us)[1..] == WriteBack(s[1..], us);
    }
  }

  lemma {:induction false} SortCommutes(rows: seq<Row>, us: seq<Update>, leq: (Row, Row) -> bool)
    requires ByExpiry(leq, us)
    ensures StableSort(WriteBack(rows, us), leq) == WriteBack(StableSort(rows, leq), us)
  {
    if rows != [] {
      SortCommutes(rows[1..], us, leq);
      InsertCommutes(rows[0], StableSort(rows[1..], leq), us, leq);
      assert WriteBack(rows, us)[1..] == WriteBack(rows[1..], us);
    }
  }

  // A second write brings every row back exactly when it brings the ordered rows back.
  lemma BackInAnyOrder(rows: seq<Row>, sorted: seq<Row>, us: seq<Update>, back: seq<Update>)
    requires forall r :: r in sorted <==> r in rows
    ensures WriteBack(WriteBack(rows, us), back) == rows <==> WriteBack(WriteBack(sorted, us), back) == sorted
  {
    BackForEach(rows, us, back);
    BackForEach(sorted, us, back);
  }

  lemma BackForEach(rows: seq<Row>, us: seq<Update>, back: seq<Update>)
    ensures WriteBack(WriteBack(rows, us), back) == rows
            <==> forall r :: r in rows ==> Written(Written(r, us), back) == r
  {
    var both := WriteBack(WriteBack(rows, us), back);
    assert forall i :: 0 <= i < |rows| ==> both[i] == Written(Written(rows[i], us), back);
    if forall r :: r in rows ==> Written(Written(r, us), back) == r {
      assert forall i :: 0 <= i < |rows| ==> rows[i] in rows;
    } else {
      var r :| r in rows && Written(Written(r, us), back) != r;
      var i :| 0 <= i < |rows| && rows[i] == r;
      assert both[i] != rows[i];
    }
  }

  // ---- When a release undoes a consumption ----

  /** `a` is `r` after some consumption, or `r` itself. */
  ghost predicate Advanced(a: Row, r: Row) {
    a == r || (r.daysAvailed < a.daysAvailed <= r.daysEarned && a == ConsumedRow(r, a.daysAvailed - r.daysAvailed))
  }

  lemma {:induction false} AdvancedTotals(s: seq<Row>, a: seq<Row>)
    requires |a| == |s| && forall i :: 0 <= i < |s| ==> Advanced(a[i], s[i])
    ensures Sum(a, Availed) >= Sum(s, Availed)
    ensures Sum(a, Availed) == Sum(s, Availed) <==> a == s
  {
    if s != [] {
      AdvancedTotals(s[1..], a[1..]);
      assert s == [s[0]] + s[1..] && a == [a[0]] + a[1..];
    }
  }

  /** No row with `front` stands before a row that changed. */
  ghost predicate NoneBehind(s: seq<Row>, a: seq<Row>, front: Row -> bool)
    requires |a| == |s|
  {
    forall i, k :: 0 <= i < k < |s| && front(s[i]) ==> a[k] == s[k]
  }

  lemma NoneBehindTail(s: seq<Row>, a: seq<Row>, front: Row -> bool)
    requires |a| == |s| && s != []
    ensures NoneBehind(s, a, front) <==> NoneBehind(s[1..], a[1..], front) && (front(s[0]) ==> a[1..] == s[1..])
  {
    if NoneBehind(s[1..], a[1..], front) && (front(s[0]) ==> a[1..] == s[1..]) {
      forall i, k | 0 <= i < k < |s| && front(s[i])
        ensures a[k] == s[k]
      {
        assert a[k] == a[1..][k - 1] && s[k] == s[1..][k - 1];
        if i > 0 {
          assert front(s[1..][i - 1]);
        }
      }
    }
  }

  predicate InUse(r: Row) {
    r.daysAvailed > 0.0
  }

  predicate HasRoom(r: Row) {
    Open(r) > 0.0
  }

  function GivenBack(a: Row, days: real): real {
    if Used(a) <= 0.0 then 0.0 else MinReal(Used(a), days)
  }

  function OneGivenBack(a: Row, days: real): Row {
    if Used(a) <= 0.0 then a else ReleasedRow(a, GivenBack(a, days))
  }

  lemma OneRestoredIff(r: Row, a: Row, days: real)
    requires Settled(r) && Advanced(a, r) && a.daysAvailed - r.daysAvailed <= days && days > 0.0
    ensures var taken := a.daysAvailed - r.daysAvailed;
            && (OneGivenBack(a, days) == r <==> GivenBack(a, days) == taken)
            && (GivenBack(a, days) == taken <==> r.daysAvailed <= 0.0 || taken == days)
  {
  }

  lemma AfterGiveBackCons(a: seq<Row>, days: real)
    requires a != [] && days > 0.0
    ensures AfterGiveBack(a, days) == [OneGivenBack(a[0], days)] + AfterGiveBack(a[1..], days - GivenBack(a[0], days))
  {
  }

  lemma HeadAndTail(a: seq<Row>, x: Row, rest: seq<Row>, s: seq<Row>)
    requires a == [x] + rest && s != []
    ensures a == s <==> x == s[0] && rest == s[1..]
  {
    assert s == [s[0]] + s[1..];
    assert a[0] == x && a[1..] == rest;
  }

  lemma {:induction false} GiveBackRestoresIff(s: seq<Row>, a: seq<Row>, days: real)
    requires |a| == |s| && AllSettled(s) && forall i :: 0 <= i < |s| ==> Advanced(a[i], s[i])
    requires days == Sum(a, Availed) - Sum(s, Availed)
    ensures AfterGiveBack(a, days) == s <==> NoneBehind(s, a, InUse)
  {
    AdvancedTotals(s, a);
    if s != [] && days > 0.0 {
      var taken, rest := a[0].daysAvailed - s[0].daysAvailed, days - GivenBack(a[0], days);
      AdvancedTotals(s[1..], a[1..]);
      NoneBehindTail(s, a, InUse);
      OneRestoredIff(s[0], a[0], days);
      AfterGiveBackCons(a, days);
      HeadAndTail(AfterGiveBack(a, days), OneGivenBack(a[0], days), AfterGiveBack(a[1..], rest), s);
      if GivenBack(a[0], days) == taken {
        GiveBackRestoresIff(s[1..], a[1..], rest);
      }
    }
  }

  /** `r` is among the rows a consumption takes from: it is open, and the rows before it do not cover the days. */
  ghost predicate TakenFrom(rows: seq<Row>, days: real, r: Row) {
    exists k :: TakenAt(SoonestFirst(rows), days, k) && SoonestFirst(rows)[k] == r
  }

  ghost predicate TakenAt(s: seq<Row>, days: real, k: int) {
    0 <= k < |s| && Open(s[k]) > 0.0 && Sum(s[..k], Open) < days
  }

  lemma {:induction false} SpendTakesIff(s: seq<Row>, days: real, k: nat)
    requires AllSettled(s) && k < |s|
    ensures AfterSpend(s, days)[k] != s[k] <==> days > 0.0 && TakenAt(s, days, k)
    ensures Advanced(AfterSpend(s, days)[k], s[k])
  {
    assert s[0] in s;
    if days > 0.0 {
      OpenNonNegative(s[..k]);
      if k > 0 {
        var portion := if Open(s[0]) <= 0.0 then 0.0 else MinReal(Open(s[0]), days);
        SpendTakesIff(s[1..], days - portion, k - 1);
        assert s[..k] == [s[0]] + s[1..][..k - 1];
        OpenNonNegative(s[1..][..k - 1]);
        assert AfterSpend(s, days)[k] == AfterSpend(s[1..], days - portion)[k - 1];
      }
    }
  }

  /** A row already in use stands, latest first, in front of another that the consumption takes from. */
  ghost predicate ReleaseMisses(rows: seq<Row>, days: real) {
    exists i, k :: InFront(LatestFirst(rows), i, k, InUse) && TakenFrom(rows, days, LatestFirst(rows)[k])
  }

  ghost predicate InFront(s: seq<Row>, i: int, k: int, front: Row -> bool) {
    0 <= i < k < |s| && front(s[i])
  }

  lemma ConsumedRowIs(rows: seq<Row>, days: real, r: Row)
    requires DistinctIds(rows) && AllSettled(rows) && r in rows && days > 0.0
    ensures var w := Written(r, Spend(SoonestFirst(rows), days));
            Advanced(w, r) && (w != r <==> TakenFrom(rows, days, r))
  {
    var sorted := SoonestFirst(rows);
    StableSortPairwise(rows, ExpiresNoLater, DifferentIds);
    SoonestFirstSorted(rows);
    SpendWritesAfterSpend(sorted, days);
    var k :| 0 <= k < |sorted| && sorted[k] == r;
    SpendTakesIff(sorted, days, k);
    assert WriteBack(sorted, Spend(sorted, days))[k] == Written(r, Spend(sorted, days));
    forall m | TakenAt(sorted, days, m) && sorted[m] == r
      ensures m == k
    {
      assert m < k ==> DifferentIds(sorted[m], sorted[k]);
      assert k < m ==> DifferentIds(sorted[k], sorted[m]);
    }
  }

  lemma WritingKeepsExpiry(us: seq<Update>)
    ensures ByExpiry(ExpiresNoLater, us) && ByExpiry(ExpiresNoSooner, us)
  {
  }

  /** The release after the consumption, seen along the list it works on. */
  lemma ReleaseAlongLatestFirst(rows: seq<Row>, days: real)
    requires DistinctIds(rows)
    ensures var us, latest := Spend(SoonestFirst(rows), days), LatestFirst(rows);
            Released(Consumed(rows, days), days) == rows <==> AfterGiveBack(WriteBack(latest, us), days) == latest
  {
    var us, latest := Spend(SoonestFirst(rows), days), LatestFirst(rows);
    var after := WriteBack(latest, us);
    WritingKeepsExpiry(us);
    SortCommutes(rows, us, ExpiresNoSooner);
    assert LatestFirst(Consumed(rows, days)) == after;
    StableSortPairwise(rows, ExpiresNoSooner, DifferentIds);
    StableSortMembers(rows, ExpiresNoSooner);
    SameCreditsSameIds(after, latest);
    GiveBackWritesAfterGiveBack(after, days);
    BackInAnyOrder(rows, latest, us, GiveBack(after, days));
  }

  /**
   * Exactly when cancelling a leave puts every row it consumed back, count and status: unless a row already in use
   * stands in front of a row taken from, in the order credits are given back. Neither distinct expiries nor the
   * soonest-first shape is needed.
   */
  lemma ReleaseUndoesConsumeIff(rows: seq<Row>, days: real)
    requires DistinctIds(rows) && AllSettled(rows) && 0.0 <= days <= SumAvailable(rows)
    ensures Released(Consumed(rows, days), days) == rows <==> !ReleaseMisses(rows, days)
  {
    var us, latest := Spend(SoonestFirst(rows), days), LatestFirst(rows);
    var after := WriteBack(latest, us);
    ReleaseAlongLatestFirst(rows, days);
    if days > 0.0 {
      StableSortMembers(rows, ExpiresNoSooner);
      forall i | 0 <= i < |latest|
        ensures Advanced(after[i], latest[i]) && (after[i] != latest[i] <==> TakenFrom(rows, days, latest[i]))
      {
        assert latest[i] in rows;
        ConsumedRowIs(rows, days, latest[i]);
      }
      AddedTotal(rows, days);
      GiveBackRestoresIff(latest, after, days);
      MissesIff(rows, days, after);
    } else {
      assert us == [] && after == latest;
      forall k | 0 <= k < |SoonestFirst(rows)|
        ensures !TakenAt(SoonestFirst(rows), days, k)
      {
        OpenNonNegative(SoonestFirst(rows)[..k]);
      }
    }
  }

  lemma AddedTotal(rows: seq<Row>, days: real)
    requires DistinctIds(rows) && AllSettled(rows) && 0.0 <= days <= SumAvailable(rows)
    ensures var latest := LatestFirst(rows);
            Sum(WriteBack(latest, Spend(SoonestFirst(rows), days)), Availed) == Sum(latest, Availed) + days
  {
    var us := Spend(SoonestFirst(rows), days);
    SettledUsedIsAvailed(rows);
    ConsumeAddsDaysMinusShortfall(rows, days);
    SumWriteBack(rows, us, Availed);
    SumWriteBack(LatestFirst(rows), us, Availed);
    StableSortSum(rows, ExpiresNoSooner, AfterWriting(Availed, us));
    StableSortSum(rows, ExpiresNoSooner, Availed);
  }

  lemma MissesIff(rows: seq<Row>, days: real, after: seq<Row>)
    requires |after| == |LatestFirst(rows)|
    requires forall k :: 0 <= k < |after| ==>
               (after[k] != LatestFirst(rows)[k] <==> TakenFrom(rows, days, LatestFirst(rows)[k]))
    ensures NoneBehind(LatestFirst(rows), after, InUse) <==> !ReleaseMisses(rows, days)
  {
    var latest := LatestFirst(rows);
    if !NoneBehind(latest, after, InUse) {
      var i, k :| 0 <= i < k < |latest| && InUse(latest[i]) && after[k] != latest[k];
      assert InFront(latest, i, k, InUse);
    }
  }

  /** Cancelling a leave puts every row back on a ledger used soonest-first with distinct expiries. */
  lemma ReleaseUndoesConsume(rows: seq<Row>, days: real)
    requires InShape(rows) && DistinctExpiries(rows) && 0.0 <= days <= SumAvailable(rows)
    ensures Released(Consumed(rows, days), days) == rows
  {
    ReleaseUndoesConsumeIff(rows, days);
    var latest := LatestFirst(rows);
    StableSortSorted(rows, ExpiresNoSooner);
    StableSortMembers(rows, ExpiresNoSooner);
    StableSortPairwise(rows, ExpiresNoSooner, DifferentExpiries);
    forall i, k | InFront(latest, i, k, InUse)
      ensures !TakenFrom(rows, days, latest[k])
    {
      assert ExpiresNoSooner(latest[i], latest[k]) && DifferentExpiries(latest[i], latest[k]);
      assert latest[i] in rows && latest[k] in rows;
    }
  }

  // ---- When consuming again undoes a release ----

  /** `b` is `r` after something was given back to it, or `r` itself. */
  ghost predicate Retreated(b: Row, r: Row) {
    b == r || (0.0 <= b.daysAvailed < r.daysAvailed && b == ReleasedRow(r, r.daysAvailed - b.daysAvailed))
  }

  lemma {:induction false} RetreatedTotals(s: seq<Row>, b: seq<Row>)
    requires |b| == |s| && forall i :: 0 <= i < |s| ==> Retreated(b[i], s[i])
    ensures Sum(b, Availed) <= Sum(s, Availed)
    ensures Sum(b, Availed) == Sum(s, Availed) <==> b == s
  {
    if s != [] {
      RetreatedTotals(s[1..], b[1..]);
      assert s == [s[0]] + s[1..] && b == [b[0]] + b[1..];
    }
  }

  function SpentOn(b: Row, days: real): real {
    if Open(b) <= 0.0 then 0.0 else MinReal(Open(b), days)
  }

  function OneSpentOn(b: Row, days: real): Row {
    if Open(b) <= 0.0 then b else ConsumedRow(b, SpentOn(b, days))
  }

  lemma OneSpentAgainIff(r: Row, b: Row, days: real)
    requires Settled(r) && Retreated(b, r) && r.daysAvailed - b.daysAvailed <= days && days > 0.0
    ensures var given := r.daysAvailed - b.daysAvailed;
            && (OneSpentOn(b, days) == r <==> SpentOn(b, days) == given)
            && (SpentOn(b, days) == given <==> !HasRoom(r) || given == days)
  {
  }

  lemma AfterSpendCons(b: seq<Row>, days: real)
    requires b != [] && days > 0.0
    ensures AfterSpend(b, days) == [OneSpentOn(b[0], days)] + AfterSpend(b[1..], days - SpentOn(b[0], days))
  {
  }

  lemma {:induction false} SpendRestoresIff(s: seq<Row>, b: seq<Row>, days: real)
    requires |b| == |s| && AllSettled(s) && forall i :: 0 <= i < |s| ==> Retreated(b[i], s[i])
    requires days == Sum(s, Availed) - Sum(b, Availed)
    ensures AfterSpend(b, days) == s <==> NoneBehind(s, b, HasRoom)
  {
    RetreatedTotals(s, b);
    if s != [] && days > 0.0 {
      var given, rest := s[0].daysAvailed - b[0].daysAvailed, days - SpentOn(b[0], days);
      RetreatedTotals(s[1..], b[1..]);
      NoneBehindTail(s, b, HasRoom);
      OneSpentAgainIff(s[0], b[0], days);
      AfterSpendCons(b, days);
      HeadAndTail(AfterSpend(b, days), OneSpentOn(b[0], days), AfterSpend(b[1..], rest), s);
      if SpentOn(b[0], days) == given {
        SpendRestoresIff(s[1..], b[1..], rest);
      }
    }
  }

  /** `r` is among the rows a release gives back to: it is used, and the rows before it do not cover the days. */
  ghost predicate GivenTo(rows: seq<Row>, days: real, r: Row) {
    exists k :: GivenAt(LatestFirst(rows), days, k) && LatestFirst(rows)[k] == r
  }

  ghost predicate GivenAt(s: seq<Row>, days: real, k: int) {
    0 <= k < |s| && Used(s[k]) > 0.0 && Sum(s[..k], Used) < days
  }

  lemma {:induction false} GiveBackReachesIff(s: seq<Row>, days: real, k: nat)
    requires AllSettled(s) && k < |s|
    ensures AfterGiveBack(s, days)[k] != s[k] <==> days > 0.0 && GivenAt(s, days, k)
    ensures Retreated(AfterGiveBack(s, days)[k], s[k])
  {
    assert s[0] in s;
    if days > 0.0 {
      UsedNonNegative(s[..k]);
      if k > 0 {
        var portion := if Used(s[0]) <= 0.0 then 0.0 else MinReal(Used(s[0]), days);
        GiveBackReachesIff(s[1..], days - portion, k - 1);
        assert s[..k] == [s[0]] + s[1..][..k - 1];
        UsedNonNegative(s[1..][..k - 1]);
        assert AfterGiveBack(s, days)[k] == AfterGiveBack(s[1..], days - portion)[k - 1];
      }
    }
  }

  /** A row with room stands, soonest first, in front of another that the release gives back to. */
  ghost predicate ConsumptionMisses(rows: seq<Row>, days: real) {
    exists i, k :: InFront(SoonestFirst(rows), i, k, HasRoom) && GivenTo(rows, days, SoonestFirst(rows)[k])
  }

  lemma ReleasedRowIs(rows: seq<Row>, days: real, r: Row)
    requires DistinctIds(rows) && AllSettled(rows) && r in rows && days > 0.0
    ensures var w := Written(r, GiveBack(LatestFirst(rows), days));
            Retreated(w, r) && (w != r <==> GivenTo(rows, days, r))
  {
    var sorted := LatestFirst(rows);
    StableSortPairwise(rows, ExpiresNoSooner, DifferentIds);
    StableSortMembers(rows, ExpiresNoSooner);
    GiveBackWritesAfterGiveBack(sorted, days);
    var k :| 0 <= k < |sorted| && sorted[k] == r;
    GiveBackReachesIff(sorted, days, k);
    assert WriteBack(sorted, GiveBack(sorted, days))[k] == Written(r, GiveBack(sorted, days));
    forall m | GivenAt(sorted, days, m) && sorted[m] == r
      ensures m == k
    {
      assert m < k ==> DifferentIds(sorted[m], sorted[k]);
      assert k < m ==> DifferentIds(sorted[k], sorted[m]);
    }
  }

  /** The consumption after the release, seen along the list it works on. */
  lemma ConsumeAlongSoonestFirst(rows: seq<Row>, days: real)
    requires DistinctIds(rows)
    ensures var us, soonest := GiveBack(LatestFirst(rows), days), SoonestFirst(rows);
            Consumed(Released(rows, days), days) == rows <==> AfterSpend(WriteBack(soonest, us), days) == soonest
  {
    var us, soonest := GiveBack(LatestFirst(rows), days), SoonestFirst(rows);
    var after := WriteBack(soonest, us);
    WritingKeepsExpiry(us);
    SortCommutes(rows, us, ExpiresNoLater);
    assert SoonestFirst(Released(rows, days)) == after;
    StableSortPairwise(rows, ExpiresNoLater, DifferentIds);
    SoonestFirstSorted(rows);
    SameCreditsSameIds(after, soonest);
    SpendWritesAfterSpend(after, days);
    BackInAnyOrder(rows, soonest, us, Spend(after, days));
  }

  /** Exactly when approving again after a cancellation consumes the same rows, count and status. */
  lemma ConsumeUndoesReleaseIff(rows: seq<Row>, days: real)
    requires DistinctIds(rows) && AllSettled(rows) && 0.0 <= days <= Sum(rows, Availed)
    ensures Consumed(Released(rows, days), days) == rows <==> !ConsumptionMisses(rows, days)
  {
    var us, soonest := GiveBack(LatestFirst(rows), days), SoonestFirst(rows);
    var after := WriteBack(soonest, us);
    ConsumeAlongSoonestFirst(rows, days);
    if days > 0.0 {
      SoonestFirstSorted(rows);
      forall i | 0 <= i < |soonest|
        ensures Retreated(after[i], soonest[i]) && (after[i] != soonest[i] <==> GivenTo(rows, days, soonest[i]))
      {
        assert soonest[i] in rows;
        ReleasedRowIs(rows, days, soonest[i]);
      }
      TakenOffTotal(rows, days);
      SpendRestoresIff(soonest, after, days);
      MissesAgainIff(rows, days, after);
    } else {
      assert us == [] && after == soonest;
      forall k | 0 <= k < |LatestFirst(rows)|
        ensures !GivenAt(LatestFirst(rows), days, k)
      {
        UsedNonNegative(LatestFirst(rows)[..k]);
      }
    }
  }

  lemma TakenOffTotal(rows: seq<Row>, days: real)
    requires DistinctIds(rows) && AllSettled(rows) && 0.0 <= days <= Sum(rows, Availed)
    ensures var soonest := SoonestFirst(rows);
            Sum(WriteBack(soonest, GiveBack(LatestFirst(rows), days)), Availed) == Sum(soonest, Availed) - days
  {
    var us := GiveBack(LatestFirst(rows), days);
    SettledUsedIsAvailed(rows);
    ReleaseReturnsAtMostUsed(rows, days);
    SumWriteBack(rows, us, Availed);
    SumWriteBack(SoonestFirst(rows), us, Availed);
    StableSortSum(rows, ExpiresNoLater, AfterWriting(Availed, us));
    StableSortSum(rows, ExpiresNoLater, Availed);
  }

  lemma MissesAgainIff(rows: seq<Row>, days: real, after: seq<Row>)
    requires |after| == |SoonestFirst(rows)|
    requires forall k :: 0 <= k < |after| ==>
               (after[k] != SoonestFirst(rows)[k] <==> GivenTo(rows, days, SoonestFirst(rows)[k]))
    ensures NoneBehind(SoonestFirst(rows), after, HasRoom) <==> !ConsumptionMisses(rows, days)
  {
    var soonest := SoonestFirst(rows);
    if !NoneBehind(soonest, after, HasRoom) {
      var i, k :| 0 <= i < k < |soonest| && HasRoom(soonest[i]) && after[k] != soonest[k];
      assert InFront(soonest, i, k, HasRoom);
    }
  }

  /** Approving again consumes the same rows on a ledger used soonest-first with distinct expiries. */
  lemma ConsumeUndoesRelease(rows: seq<Row>, days: real)
    requires InShape(rows) && DistinctExpiries(rows) && 0.0 <= days <= Sum(rows, Availed)
    ensures Consumed(Released(rows, days), days) == rows
  {
    ConsumeUndoesReleaseIff(rows, days);
    var soonest := SoonestFirst(rows);
    SoonestFirstSorted(rows);
    StableSortPairwise(rows, ExpiresNoLater, DifferentExpiries);
    forall i, k | InFront(soonest, i, k, HasRoom)
      ensures !GivenTo(rows, days, soonest[k])
    {
      assert ExpiresNoLater(soonest[i], soonest[k]) && DifferentExpiries(soonest[i], soonest[k]);
      assert soonest[i] in rows && soonest[k] in rows;
    }
  }

  /**
   * A ledger where the release misses: with a tie it goes to the row consumed first, not to the one consumed last.
   * `a` is used up when `days` more are consumed from `b`, which expires the same day; giving them back empties `a`.
   */
  lemma TiedExpiriesAreNotUndone(a: Row, b: Row, days: real)
    requires a.id != b.id && a.expiry == b.expiry && Settled(a) && Settled(b)
    requires Used(a) == days > 0.0 && Open(a) == 0.0 && Open(b) == days && Used(b) == 0.0
    ensures DistinctIds([a, b]) && AllSettled([a, b]) && UsedSoonestFirst([a, b])
    ensures Released(Consumed([a, b], days), days) == [ReleasedRow(a, days), ConsumedRow(b, days)] != [a, b]
  {
    PairShape(a, b);
    PairConsumed(a, b, ConsumedRow(b, days));
    PairReleased(a, ConsumedRow(b, days), ReleasedRow(a, days));
  }

  lemma PairShape(a: Row, b: Row)
    requires a.id != b.id && a.expiry == b.expiry && Settled(a) && Settled(b)
    ensures DistinctIds([a, b]) && AllSettled([a, b]) && UsedSoonestFirst([a, b])
  {
  }

  lemma PairConsumed(a: Row, b: Row, b': Row)
    requires a.expiry == b.expiry && a.id != b.id && Open(a) <= 0.0 < Open(b) && b' == ConsumedRow(b, Open(b))
    ensures Consumed([a, b], Open(b)) == [a, b']
  {
    SortedPair(a, b);
    assert [a, b][1..] == [b] && [b][1..] == [];
    assert Spend([a, b], Open(b)) == Spend([b], Open(b)) == [UpdateOf(b')] + Spend([], 0.0) == [UpdateOf(b')];
    assert Written(a, [UpdateOf(b')]) == a && Written(b, [UpdateOf(b')]) == b';
  }

  lemma PairReleased(a: Row, b: Row, a': Row)
    requires a.expiry == b.expiry && a.id != b.id && 0.0 < Used(a) && a' == ReleasedRow(a, Used(a))
    ensures Released([a, b], Used(a)) == [a', b]
  {
    SortedPair(a, b);
    assert [a, b][1..] == [b];
    assert GiveBack([a, b], Used(a)) == [UpdateOf(a')] + GiveBack([b], 0.0) == [UpdateOf(a')];
    assert Written(a, [UpdateOf(a')]) == a' && Written(b, [UpdateOf(a')]) == b;
  }

  lemma SortedPair(a: Row, b: Row)
    requires a.expiry == b.expiry
    ensures SoonestFirst([a, b]) == [a, b] && LatestFirst([a, b]) == [a, b]
  {
    assert [a, b][1..] == [b] && [b][1..] == [];
    assert StableSort([b], ExpiresNoLater) == Insert(b, [], ExpiresNoLater) == [b];
    assert StableSort([b], ExpiresNoSooner) == Insert(b, [], ExpiresNoSooner) == [b];
  }
}
