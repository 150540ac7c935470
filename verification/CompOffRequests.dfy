// src/comp-offs/comp-off.service.ts:79-82, 775-865: what a leave approval and a cancellation read and plan, told by the
// columns of the ledger, in every state that concurrent transactions can reach.
module CompOffRequests {
  import opened Prelude
  import opened CompOffConsumption
  import opened CompOffOptimality
  import opened CompOffTransactions

  /** The days a leave can draw from a row: of an approved or partly used credit, unexpired, what is not used. */
  ghost function Drawable(today: Day): Row -> real {
    (r: Row) =>
      if (r.status == APPROVED || r.status == PARTIALLY_AVAILED)
         && (r.expiry == None || today <= r.expiry.value)
         && r.daysAvailed < r.daysEarned
      then r.daysEarned - r.daysAvailed else 0.0
  }

  /** The days a cancellation can give back to a row, expired or not. */
  ghost function Returnable(r: Row): real {
    if (r.status == APPROVED || r.status == PARTIALLY_AVAILED || r.status == AVAILED) && r.daysAvailed > 0.0
    then r.daysAvailed else 0.0
  }

  ghost predicate SoonerThan(a: Row, b: Row) {
    a.expiry.Some? && (b.expiry == None || a.expiry.value < b.expiry.value)
  }

  /** The write draws from `r`: days it has, and AVAILED exactly when none are left. */
  ghost predicate DrawsFrom(r: Row, today: Day, w: Write) {
    && r.id == w.update.id && r.daysAvailed == w.previous
    && w.previous < w.update.daysAvailed <= w.previous + Drawable(today)(r)
    && w.update.status == if w.update.daysAvailed == r.daysEarned then AVAILED else PARTIALLY_AVAILED
  }

  /** The write gives back to `r`: days it used, and APPROVED exactly when none are used any more. */
  ghost predicate GivesTo(r: Row, w: Write) {
    && r.id == w.update.id && r.daysAvailed == w.previous
    && w.previous - Returnable(r) <= w.update.daysAvailed < w.previous
    && w.update.status == if w.update.daysAvailed == 0.0 then APPROVED else PARTIALLY_AVAILED
  }

  // ---- What is read ----

  lemma DrawableIsAvailable(rows: seq<Row>, today: Day)
    ensures Available(UsableRows(rows, today)) == Sum(rows, Drawable(today))
  {
    SumFilter(rows, UsableAt(today), Open);
    SumCongruent(rows, Restrict(UsableAt(today), Open), Drawable(today));
  }

  lemma ReturnableIsUsed(rows: seq<Row>)
    ensures Sum(Filter(rows, Releasable), Used) == Sum(rows, Returnable)
  {
    SumFilter(rows, Releasable, Used);
    SumCongruent(rows, Restrict(Releasable, Used), Returnable);
  }

  // ---- What is planned ----

  lemma PlannedWrite(snapshot: seq<Row>, request: Request, w: Write) returns (r: Row, portion: real)
    requires DistinctIds(snapshot) && w in Plan(snapshot, Updates(snapshot, request))
    ensures r in snapshot && r.id == w.update.id && r.daysAvailed == w.previous
    ensures if request.ForLeave? then 0.0 < portion <= Open(r) && w.update == UpdateOf(ConsumedRow(r, portion))
            else 0.0 < portion <= Used(r) && w.update == UpdateOf(ReleasedRow(r, portion))
  {
    var us := Updates(snapshot, request);
    var k :| 0 <= k < |us| && w == Write(DaysOf(snapshot, us[k].id), us[k]);
    match request {
      case ForLeave(_, days) =>
        r, portion := SpendPortion(SoonestFirst(snapshot), days, us[k]);
        SoonestFirstSorted(snapshot);
      case ForCancellation(days) =>
        r, portion := GiveBackPortion(LatestFirst(snapshot), days, us[k]);
        StableSortMembers(snapshot, ExpiresNoSooner);
    }
    DaysOfMember(snapshot, r);
  }

  // A row that is spent from leaves nothing on any row before it.
  lemma {:induction false} EarlierIsUsedUp(s: seq<Row>, days: real, j: nat, k: nat)
    requires DistinctIds(s) && j < k < |s| && Touches(Spend(s, days), s[k].id) && Open(s[j]) > 0.0
    ensures UpdateOf(ConsumedRow(s[j], Open(s[j]))) in Spend(s, days)
  {
    var rest := if Open(s[0]) <= 0.0 then days else days - MinReal(Open(s[0]), days);
    var u :| u in Spend(s, days) && u.id == s[k].id;
    assert DifferentIds(s[0], s[k]);
    assert u in Spend(s[1..], rest);
    if j > 0 {
      EarlierIsUsedUp(s[1..], rest, j - 1, k - 1);
    }
  }

  lemma {:induction false} EarlierIsGivenBack(s: seq<Row>, days: real, j: nat, k: nat)
    requires DistinctIds(s) && j < k < |s| && Touches(GiveBack(s, days), s[k].id) && Used(s[j]) > 0.0
    ensures UpdateOf(ReleasedRow(s[j], Used(s[j]))) in GiveBack(s, days)
  {
    var rest := if Used(s[0]) <= 0.0 then days else days - MinReal(Used(s[0]), days);
    var u :| u in GiveBack(s, days) && u.id == s[k].id;
    assert DifferentIds(s[0], s[k]);
    assert u in GiveBack(s[1..], rest);
    if j > 0 {
      EarlierIsGivenBack(s[1..], rest, j - 1, k - 1);
    }
  }

  lemma SoonerIsEarlier(s: seq<Row>, a: Row, b: Row) returns (j: nat, k: nat)
    requires Sorted(s, ExpiresNoLater) && a in s && b in s && SoonerThan(a, b)
    ensures j < k < |s| && s[j] == a && s[k] == b
  {
    j :| 0 <= j < |s| && s[j] == a;
    k :| 0 <= k < |s| && s[k] == b;
  }

  lemma LaterIsEarlier(s: seq<Row>, a: Row, b: Row) returns (j: nat, k: nat)
    requires Sorted(s, ExpiresNoSooner) && a in s && b in s && SoonerThan(a, b)
    ensures j < k < |s| && s[j] == b && s[k] == a
  {
    j :| 0 <= j < |s| && s[j] == b;
    k :| 0 <= k < |s| && s[k] == a;
  }

  lemma PlanHas(snapshot: seq<Row>, us: seq<Update>, u: Update)
    requires u in us
    ensures exists w :: w in Plan(snapshot, us) && w.update == u
  {
    var k :| 0 <= k < |us| && us[k] == u;
    assert Plan(snapshot, us)[k].update == u;
  }

  lemma SoonerIsPlanned(snapshot: seq<Row>, days: real, u: Update, r: Row, q: Row)
    requires DistinctIds(snapshot) && u in Spend(SoonestFirst(snapshot), days) && u.id == r.id
    requires r in snapshot && q in snapshot && SoonerThan(q, r) && Open(q) > 0.0
    ensures exists w :: w in Plan(snapshot, Spend(SoonestFirst(snapshot), days))
                        && w.update == UpdateOf(ConsumedRow(q, Open(q)))
  {
    var sorted := SoonestFirst(snapshot);
    SoonestFirstSorted(snapshot);
    StableSortPairwise(snapshot, ExpiresNoLater, DifferentIds);
    var j, k := SoonerIsEarlier(sorted, q, r);
    EarlierIsUsedUp(sorted, days, j, k);
    PlanHas(snapshot, Spend(sorted, days), UpdateOf(ConsumedRow(q, Open(q))));
  }

  lemma LaterIsPlanned(snapshot: seq<Row>, days: real, u: Update, r: Row, q: Row)
    requires DistinctIds(snapshot) && u in GiveBack(LatestFirst(snapshot), days) && u.id == r.id
    requires r in snapshot && q in snapshot && SoonerThan(r, q) && Used(q) > 0.0
    ensures exists w :: w in Plan(snapshot, GiveBack(LatestFirst(snapshot), days))
                        && w.update == UpdateOf(ReleasedRow(q, Used(q)))
  {
    var sorted := LatestFirst(snapshot);
    StableSortSorted(snapshot, ExpiresNoSooner);
    StableSortMembers(snapshot, ExpiresNoSooner);
    StableSortPairwise(snapshot, ExpiresNoSooner, DifferentIds);
    var j, k := LaterIsEarlier(sorted, r, q);
    EarlierIsGivenBack(sorted, days, j, k);
    PlanHas(snapshot, GiveBack(sorted, days), UpdateOf(ReleasedRow(q, Used(q))));
  }

  // ---- The theorems ----

  /**
   * In every state of every interleaving, a leave approval is refused if and only if the days of approved and partly
   * used credits that have not expired do not cover it.
   */
  lemma LeaveIsRefusedIff(states: seq<State>, steps: seq<Step>, i: nat)
    requires Run(states, steps) && i < |steps| && steps[i].Begin? && steps[i].request.ForLeave?
    ensures steps[i].tx !in states[i + 1].txs
       <==> Sum(states[i].committed, Drawable(steps[i].request.today)) < steps[i].request.days
  {
    DrawableIsAvailable(states[i].committed, steps[i].request.today);
  }

  /** And what it plans: only such credits are drawn, and none while a sooner-expiring one still has days. */
  lemma LeavePlansByColumns(states: seq<State>, steps: seq<Step>, i: nat, w: Write) returns (r: Row)
    requires Run(states, steps) && i < |steps| && steps[i].Begin? && steps[i].request.ForLeave?
    requires steps[i].tx in states[i + 1].txs && w in states[i + 1].txs[steps[i].tx].plan
    ensures r in states[i].committed && DrawsFrom(r, steps[i].request.today, w)
    ensures forall q :: q in states[i].committed && SoonerThan(q, r) && Drawable(steps[i].request.today)(q) > 0.0 ==>
              exists v :: v in states[i + 1].txs[steps[i].tx].plan && v.update == Update(q.id, q.daysEarned, AVAILED)
    ensures states[i + 1].txs[steps[i].tx].amount == steps[i].request.days
  {
    var rows, today, days := states[i].committed, steps[i].request.today, steps[i].request.days;
    var snapshot := UsableRows(rows, today);
    var sorted := SoonestFirst(snapshot);
    NoUpdateIsLost(states, steps, i);
    FilterPairwise(rows, UsableAt(today), DifferentIds);
    var portion;
    r, portion := PlannedWrite(snapshot, steps[i].request, w);
    assert w.update in Spend(sorted, days) && days > 0.0;
    forall q | q in rows && SoonerThan(q, r) && Drawable(today)(q) > 0.0
      ensures exists v :: v in Plan(snapshot, Spend(sorted, days)) && v.update == Update(q.id, q.daysEarned, AVAILED)
    {
      SoonerIsPlanned(snapshot, days, w.update, r, q);
    }
  }

  /** A cancellation is never refused, and gives back the leave's days or as many as the credits have used. */
  lemma CancellationIsNeverRefused(states: seq<State>, steps: seq<Step>, i: nat)
    requires Run(states, steps) && i < |steps| && steps[i].Begin? && steps[i].request.ForCancellation?
    ensures steps[i].tx in states[i + 1].txs
    ensures states[i + 1].txs[steps[i].tx].amount
         == MinReal(MaxReal(0.0, steps[i].request.days), Sum(states[i].committed, Returnable))
  {
    ReturnableIsUsed(states[i].committed);
  }

  /** And what it plans: only such credits get days back, and none while a later-expiring one still has used days. */
  lemma CancellationPlansByColumns(states: seq<State>, steps: seq<Step>, i: nat, w: Write) returns (r: Row)
    requires Run(states, steps) && i < |steps| && steps[i].Begin? && steps[i].request.ForCancellation?
    requires steps[i].tx in states[i + 1].txs && w in states[i + 1].txs[steps[i].tx].plan
    ensures r in states[i].committed && GivesTo(r, w)
    ensures forall q :: q in states[i].committed && SoonerThan(r, q) && Returnable(q) > 0.0 ==>
              exists v :: v in states[i + 1].txs[steps[i].tx].plan && v.update == Update(q.id, 0.0, APPROVED)
  {
    var rows, days := states[i].committed, steps[i].request.days;
    var snapshot := Filter(rows, Releasable);
    var sorted := LatestFirst(snapshot);
    NoUpdateIsLost(states, steps, i);
    FilterPairwise(rows, Releasable, DifferentIds);
    var portion;
    r, portion := PlannedWrite(snapshot, steps[i].request, w);
    assert w.update in GiveBack(sorted, days);
    forall q | q in rows && SoonerThan(r, q) && Returnable(q) > 0.0
      ensures exists v :: v in Plan(snapshot, GiveBack(sorted, days)) && v.update == Update(q.id, 0.0, APPROVED)
    {
      LaterIsPlanned(snapshot, days, w.update, r, q);
    }
  }
}
