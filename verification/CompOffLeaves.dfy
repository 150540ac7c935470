// src/comp-offs/comp-off.service.ts:775-865: a leave approved and later cancelled. The two halves read different
// rows: the approval the unexpired ones that can be consumed, the cancellation also those used up, whatever their
// expiry.
module CompOffLeaves {
  import opened Prelude
  import opened CompOffConsumption
  import opened CompOffOptimality
  import opened CompOffRoundTrip
  import opened CompOffStatuses
  import opened CompOffTransactions

  function ReleasableRows(rows: seq<Row>): seq<Row> {
    Filter(rows, Releasable)
  }

  /** The employee's ledger after `releaseForLeave` committed. */
  function ReleasedFrom(rows: seq<Row>, days: real): (after: seq<Row>)
    ensures |after| == |rows|
  {
    WriteBack(rows, GiveBack(LatestFirst(ReleasableRows(rows)), days))
  }

  function LeaveUpdates(rows: seq<Row>, on: Day, days: real): seq<Update> {
    Spend(SoonestFirst(UsableRows(rows, on)), days)
  }

  // ---- What an approval does to the rows a cancellation reads ----

  lemma UnusableUntouched(rows: seq<Row>, on: Day, days: real, r: Row)
    requires DistinctIds(rows) && r in rows && !Usable(r, on)
    ensures Written(r, LeaveUpdates(rows, on, days)) == r
  {
    SpendLeavesOthers(rows, on, days, r);
  }

  lemma StaysReleasable(rows: seq<Row>, on: Day, days: real, r: Row)
    requires DistinctIds(rows) && r in rows
    ensures Releasable(Written(r, LeaveUpdates(rows, on, days))) == Releasable(r)
  {
    var us := LeaveUpdates(rows, on, days);
    if !Usable(r, on) {
      UnusableUntouched(rows, on, days, r);
    } else if Touches(us, r.id) {
      var u := WrittenByOne(r, us);
      var q := SpendIsSound(SoonestFirst(UsableRows(rows, on)), days, u);
    } else {
      WrittenUntouched(r, us);
    }
  }

  lemma {:induction false} FilterWritten(rows: seq<Row>, us: seq<Update>, p: Row -> bool)
    requires forall r :: r in rows ==> p(Written(r, us)) == p(r)
    ensures Filter(WriteBack(rows, us), p) == WriteBack(Filter(rows, p), us)
  {
    if rows != [] {
      FilterWritten(rows[1..], us, p);
      assert WriteBack(rows, us)[1..] == WriteBack(rows[1..], us);
      if p(rows[0]) {
        WriteBackCons(rows[0], Filter(rows[1..], p), us);
      }
    }
  }

  lemma {:induction false} UsableAmongReleasable(rows: seq<Row>, on: Day)
    ensures Filter(ReleasableRows(rows), UsableAt(on)) == UsableRows(rows, on)
  {
    if rows != [] {
      UsableAmongReleasable(rows[1..], on);
      var rest := ReleasableRows(rows[1..]);
      if Releasable(rows[0]) {
        assert ReleasableRows(rows) == [rows[0]] + rest && ([rows[0]] + rest)[1..] == rest;
      } else {
        assert ReleasableRows(rows) == rest && UsableRows(rows, on) == UsableRows(rows[1..], on);
      }
    }
  }

  function Gain(us: seq<Update>): Row -> real {
    (r: Row) => Written(r, us).daysAvailed - r.daysAvailed
  }

  lemma {:induction false} SumGain(rows: seq<Row>, us: seq<Update>)
    ensures Sum(rows, Gain(us)) == Sum(rows, AfterWriting(Availed, us)) - Sum(rows, Availed)
  {
    if rows != [] {
      SumGain(rows[1..], us);
      assert AfterWriting(Availed, us)(rows[0]) == Availed(Written(rows[0], us)) == Availed(rows[0])
             + Gain(us)(rows[0]);
    }
  }

  // Only the rows with `p` gain anything by the write, so the totals grow alike.
  lemma GainIsAmong(rows: seq<Row>, us: seq<Update>, p: Row -> bool)
    requires forall r :: r in rows && !p(r) ==> Written(r, us) == r
    ensures Sum(WriteBack(rows, us), Availed) - Sum(rows, Availed)
         == Sum(WriteBack(Filter(rows, p), us), Availed) - Sum(Filter(rows, p), Availed)
  {
    SumWriteBack(rows, us, Availed);
    SumWriteBack(Filter(rows, p), us, Availed);
    SumGain(rows, us);
    SumGain(Filter(rows, p), us);
    SumFilter(rows, p, Gain(us));
    SumCongruent(rows, Gain(us), Restrict(p, Gain(us)));
  }

  lemma GainIsDays(rows: seq<Row>, on: Day, days: real)
    requires DistinctIds(rows) && 0.0 <= days <= Sum(UsableRows(rows, on), Open)
    ensures var us, latest := LeaveUpdates(rows, on, days), LatestFirst(ReleasableRows(rows));
            Sum(WriteBack(latest, us), Availed) == Sum(latest, Availed) + days
  {
    var us, releasable := LeaveUpdates(rows, on, days), ReleasableRows(rows);
    FilterPairwise(rows, UsableAt(on), DifferentIds);
    ConsumeAddsDaysMinusShortfall(UsableRows(rows, on), days);
    forall r | r in releasable && !UsableAt(on)(r)
      ensures Written(r, us) == r
    {
      UnusableUntouched(rows, on, days, r);
    }
    GainIsAmong(releasable, us, UsableAt(on));
    UsableAmongReleasable(rows, on);
    SumWriteBack(releasable, us, Availed);
    SumWriteBack(LatestFirst(releasable), us, Availed);
    StableSortSum(releasable, ExpiresNoSooner, AfterWriting(Availed, us));
    StableSortSum(releasable, ExpiresNoSooner, Availed);
  }

  lemma TakenRow(rows: seq<Row>, on: Day, days: real, r: Row)
    requires DistinctIds(rows) && AllSettled(ReleasableRows(rows)) && r in ReleasableRows(rows) && days > 0.0
    ensures var w := Written(r, LeaveUpdates(rows, on, days));
            Advanced(w, r) && (w != r <==> TakenFrom(UsableRows(rows, on), days, r))
  {
    var usable := UsableRows(rows, on);
    FilterPairwise(rows, UsableAt(on), DifferentIds);
    if r in usable {
      ConsumedRowIs(usable, days, r);
    } else {
      UnusableUntouched(rows, on, days, r);
      SoonestFirstSorted(usable);
    }
  }

  // ---- The cancellation, seen along the list it works on ----

  // What neither half reads stays as it is.
  lemma OutsideStays(rows: seq<Row>, on: Day, days: real, back: seq<Update>, r: Row)
    requires DistinctIds(rows) && r in rows && !Releasable(r)
    requires forall u :: u in back ==> exists q :: q in ReleasableRows(rows) && q.id == u.id
    ensures Written(Written(r, LeaveUpdates(rows, on, days)), back) == r
  {
    UnusableUntouched(rows, on, days, r);
    if Touches(back, r.id) {
      var u :| u in back && u.id == r.id;
      var q :| q in ReleasableRows(rows) && q.id == r.id;
      SameIdSameRow(rows, r);
      assert false;
    }
    WrittenUntouched(r, back);
  }

  lemma BackAmongReleasable(rows: seq<Row>, on: Day, days: real, back: seq<Update>)
    requires DistinctIds(rows)
    requires forall u :: u in back ==> exists q :: q in ReleasableRows(rows) && q.id == u.id
    ensures var us := LeaveUpdates(rows, on, days);
            WriteBack(WriteBack(rows, us), back) == rows
            <==> WriteBack(WriteBack(ReleasableRows(rows), us), back) == ReleasableRows(rows)
  {
    var us := LeaveUpdates(rows, on, days);
    BackForEach(rows, us, back);
    BackForEach(ReleasableRows(rows), us, back);
    forall r | r in rows && !Releasable(r)
      ensures Written(Written(r, us), back) == r
    {
      OutsideStays(rows, on, days, back, r);
    }
  }

  lemma GivesBackAmong(latest: seq<Row>, us: seq<Update>, days: real, u: Update) returns (q: Row)
    requires u in GiveBack(WriteBack(latest, us), days)
    ensures q in latest && q.id == u.id
  {
    var r := GiveBackIsSound(WriteBack(latest, us), days, u);
    var i :| 0 <= i < |latest| && WriteBack(latest, us)[i] == r;
    q := latest[i];
  }

  lemma CancellationAlongLatestFirst(rows: seq<Row>, on: Day, days: real)
    requires DistinctIds(rows)
    ensures var us, latest := LeaveUpdates(rows, on, days), LatestFirst(ReleasableRows(rows));
            ReleasedFrom(ConsumedOn(rows, on, days), days) == rows
            <==> AfterGiveBack(WriteBack(latest, us), days) == latest
  {
    var us, releasable := LeaveUpdates(rows, on, days), ReleasableRows(rows);
    var latest := LatestFirst(releasable);
    var after := WriteBack(latest, us);
    forall r | r in rows
      ensures Releasable(Written(r, us)) == Releasable(r)
    {
      StaysReleasable(rows, on, days, r);
    }
    FilterWritten(rows, us, Releasable);
    WritingKeepsExpiry(us);
    SortCommutes(releasable, us, ExpiresNoSooner);
    FilterPairwise(rows, Releasable, DifferentIds);
    StableSortPairwise(releasable, ExpiresNoSooner, DifferentIds);
    StableSortMembers(releasable, ExpiresNoSooner);
    SameCreditsSameIds(after, latest);
    GiveBackWritesAfterGiveBack(after, days);
    var back := GiveBack(after, days);
    forall u | u in back
      ensures exists q :: q in releasable && q.id == u.id
    {
      var q := GivesBackAmong(latest, us, days, u);
    }
    BackAmongReleasable(rows, on, days, back);
    BackInAnyOrder(releasable, latest, us, back);
  }

  /** A row already in use stands, in the order of the cancellation, in front of another the approval takes from. */
  ghost predicate CancellationMisses(rows: seq<Row>, on: Day, days: real) {
    exists i, k :: InFront(LatestFirst(ReleasableRows(rows)), i, k, InUse)
      && TakenFrom(UsableRows(rows, on), days, LatestFirst(ReleasableRows(rows))[k])
  }

  /**
   * Exactly when cancelling a leave puts the ledger back as it was before its approval, with the rows each half really
   * reads: unless a releasable row already in use, expired ones included, stands in front of a row the approval takes
   * from.
   */
  lemma CancellationUndoesApprovalIff(rows: seq<Row>, on: Day, days: real)
    requires DistinctIds(rows) && AllSettled(ReleasableRows(rows)) && 0.0 <= days <= Sum(UsableRows(rows, on), Open)
    ensures ReleasedFrom(ConsumedOn(rows, on, days), days) == rows <==> !CancellationMisses(rows, on, days)
  {
    var us, latest := LeaveUpdates(rows, on, days), LatestFirst(ReleasableRows(rows));
    var after := WriteBack(latest, us);
    StableSortMembers(ReleasableRows(rows), ExpiresNoSooner);
    CancellationAlongLatestFirst(rows, on, days);
    if days > 0.0 {
      forall i | 0 <= i < |latest|
        ensures Advanced(after[i], latest[i])
        ensures after[i] != latest[i] <==> TakenFrom(UsableRows(rows, on), days, latest[i])
      {
        assert latest[i] in ReleasableRows(rows);
        TakenRow(rows, on, days, latest[i]);
      }
      GainIsDays(rows, on, days);
      GiveBackRestoresIff(latest, after, days);
      if !NoneBehind(latest, after, InUse) {
        var i, k :| 0 <= i < k < |latest| && InUse(latest[i]) && after[k] != latest[k];
        assert InFront(latest, i, k, InUse);
      }
    } else {
      assert us == [] && after == latest;
      forall k | 0 <= k < |SoonestFirst(UsableRows(rows, on))|
        ensures !TakenAt(SoonestFirst(UsableRows(rows, on)), days, k)
      {
        OpenNonNegative(SoonestFirst(UsableRows(rows, on))[..k]);
      }
    }
  }
}
