// src/comp-offs/comp-off.service.ts:775-865: the status of the rows a transaction writes. The guard on a write is the
// row's count alone, so a status can change between the read and the write.
module CompOffStatuses {
  import opened Prelude
  import opened CompOffConsumption
  import opened CompOffOptimality
  import opened CompOffTransactions

  /** The row still has what the request is after: days to take, or days to give back. */
  predicate HasWhatItTakes(request: Request, r: Row) {
    if request.ForLeave? then r.daysAvailed < r.daysEarned else r.daysAvailed > 0.0
  }

  // ---- What a plan says about its rows ----

  /** A planned status is one that can be consumed again, unless the row is used up. */
  ghost predicate SoundUpdate(r: Row, u: Update) {
    Consumable(u.status) || (u.status.AVAILED? && u.daysAvailed >= r.daysEarned)
  }

  ghost predicate SoundWrite(rows: seq<Row>, request: Request, w: Write) {
    exists r :: r in rows && r.id == w.update.id && SoundUpdate(r, w.update)
                && HasWhatItTakes(request, r.(daysAvailed := w.previous))
  }

  ghost predicate SoundPlan(rows: seq<Row>, t: Tx) {
    forall w :: w in t.plan ==> SoundWrite(rows, t.request, w)
  }

  ghost predicate SoundPlans(s: State) {
    forall tx :: tx in s.txs ==> SoundPlan(s.committed, s.txs[tx])
  }

  lemma SpendIsSound(s: seq<Row>, days: real, u: Update) returns (r: Row)
    requires u in Spend(s, days)
    ensures r in s && r.id == u.id && SoundUpdate(r, u) && r.daysAvailed < r.daysEarned
  {
    var portion;
    r, portion := SpendPortion(s, days, u);
  }

  lemma GiveBackIsSound(s: seq<Row>, days: real, u: Update) returns (r: Row)
    requires u in GiveBack(s, days)
    ensures r in s && r.id == u.id && SoundUpdate(r, u) && r.daysAvailed > 0.0
  {
    var portion;
    r, portion := GiveBackPortion(s, days, u);
  }

  // A planned row comes from the snapshot, with the count and the status it had there.
  lemma PlannedFromSnapshot(snapshot: seq<Row>, request: Request, w: Write) returns (r: Row)
    requires DistinctIds(snapshot) && w in Plan(snapshot, Updates(snapshot, request))
    ensures r in snapshot && r.id == w.update.id && r.daysAvailed == w.previous
    ensures SoundUpdate(r, w.update) && HasWhatItTakes(request, r)
  {
    var us := Updates(snapshot, request);
    var k :| 0 <= k < |us| && w == Write(DaysOf(snapshot, us[k].id), us[k]);
    match request {
      case ForLeave(_, days) =>
        r := SpendIsSound(SoonestFirst(snapshot), days, us[k]);
        SoonestFirstSorted(snapshot);
      case ForCancellation(days) =>
        r := GiveBackIsSound(LatestFirst(snapshot), days, us[k]);
        StableSortMembers(snapshot, ExpiresNoSooner);
    }
    DaysOfMember(snapshot, r);
  }

  lemma SnapshotFacts(rows: seq<Row>, request: Request)
    requires DistinctIds(rows)
    ensures DistinctIds(Snapshot(rows, request))
    ensures forall r :: r in Snapshot(rows, request) ==> r in rows && Eligible(request, r.status)
  {
    match request {
      case ForLeave(today, _) => FilterPairwise(rows, UsableAt(today), DifferentIds);
      case ForCancellation(_) => FilterPairwise(rows, Releasable, DifferentIds);
    }
  }

  lemma SoundRemains(a: seq<Row>, b: seq<Row>, request: Request, w: Write)
    requires CreditsRemain(a, b) && SoundWrite(a, request, w)
    ensures SoundWrite(b, request, w)
  {
    var r :| r in a && r.id == w.update.id && SoundUpdate(r, w.update)
        && HasWhatItTakes(request, r.(daysAvailed := w.previous));
    var i :| 0 <= i < |a| && a[i] == r;
    assert b[i] in b;
  }

  lemma StepKeepsCredits(s: State, step: Step)
    requires Enabled(s, step)
    ensures CreditsRemain(s.committed, Next(s, step).committed)
  {
  }

  lemma SoundStep(s: State, step: Step, tx: TxId)
    requires DistinctIds(s.committed) && SoundPlans(s) && Enabled(s, step) && tx in Next(s, step).txs
    ensures SoundPlan(Next(s, step).committed, Next(s, step).txs[tx])
  {
    var t := Next(s, step);
    if step.Begin? && step.tx == tx {
      var snapshot := Snapshot(s.committed, step.request);
      SnapshotFacts(s.committed, step.request);
      forall w | w in t.txs[tx].plan
        ensures SoundWrite(t.committed, step.request, w)
      {
        var r := PlannedFromSnapshot(snapshot, step.request, w);
        assert r.(daysAvailed := w.previous) == r;
      }
    } else {
      StepKeepsCredits(s, step);
      assert t.txs[tx].plan == s.txs[tx].plan && t.txs[tx].request == s.txs[tx].request;
      forall w | w in t.txs[tx].plan
        ensures SoundWrite(t.committed, t.txs[tx].request, w)
      {
        SoundRemains(s.committed, t.committed, s.txs[tx].request, w);
      }
    }
  }

  lemma {:induction false} PlansAreSound(states: seq<State>, steps: seq<Step>, i: nat)
    requires Run(states, steps) && i < |states|
    ensures SoundPlans(states[i]) && DistinctIds(states[i].committed)
  {
    NoUpdateIsLost(states, steps, i);
    if i > 0 {
      PlansAreSound(states, steps, i - 1);
      forall tx | tx in states[i].txs
        ensures SoundPlan(states[i].committed, states[i].txs[tx])
      {
        SoundStep(states[i - 1], steps[i - 1], tx);
      }
    }
  }

  // ---- What happens to one row ----

  /** The step changes the row's status, or commits a write to the row. */
  ghost predicate Touched(s: State, step: Step, id: RowId)
    requires Enabled(s, step)
  {
    match step
    case ChangeStatus(other, _) => other == id
    case Commit(tx) => Touches(UpdatesOf(s.txs[tx].plan), id)
    case _ => false
  }

  ghost predicate TouchedAt(states: seq<State>, steps: seq<Step>, n: nat, id: RowId)
    requires Run(states, steps) && n < |steps|
  {
    Touched(states[n], steps[n], id)
  }

  ghost predicate Spoils(step: Step, request: Request, id: RowId) {
    step.ChangeStatus? && step.id == id && !Eligible(request, step.status)
  }

  /** The last thing that happened to the row from step `i` on was a change to a status the request does not ask for. */
  ghost predicate LastSpoiled(states: seq<State>, steps: seq<Step>, i: nat, k: nat, request: Request, id: RowId)
    requires Run(states, steps) && k <= |steps|
  {
    exists n :: i <= n < k && SpoiledFor(states, steps, n, k, request, id)
  }

  ghost predicate SpoiledFor(states: seq<State>, steps: seq<Step>, n: nat, k: nat, request: Request, id: RowId)
    requires Run(states, steps) && n < k <= |steps|
  {
    Spoils(steps[n], request, id) && forall m :: n < m < k ==> !TouchedAt(states, steps, m, id)
  }

  /** Off `LastSpoiled`, only a row with nothing left for the request can have another status. */
  ghost predicate StatusExplained(r: Row, request: Request, spoiled: bool) {
    if spoiled then !Eligible(request, r.status) else Eligible(request, r.status) || !HasWhatItTakes(request, r)
  }

  lemma UntouchedRow(s: State, step: Step, p: nat)
    requires Enabled(s, step) && p < |s.committed| && !Touched(s, step, s.committed[p].id)
    ensures p < |Next(s, step).committed| && Next(s, step).committed[p] == s.committed[p]
  {
    if step.Commit? {
      WrittenUntouched(s.committed[p], UpdatesOf(s.txs[step.tx].plan));
    }
  }

  lemma CommittedRow(s: State, tx: TxId, p: nat, request: Request)
    requires SoundPlans(s) && DistinctIds(s.committed) && Enabled(s, Commit(tx))
    requires p < |s.committed| && Touched(s, Commit(tx), s.committed[p].id)
    ensures p < |Next(s, Commit(tx)).committed| && Next(s, Commit(tx)).committed[p].id == s.committed[p].id
    ensures StatusExplained(Next(s, Commit(tx)).committed[p], request, false)
  {
    var r, t := s.committed[p], s.txs[tx];
    var u := WrittenByOne(r, UpdatesOf(t.plan));
    var k :| 0 <= k < |t.plan| && UpdatesOf(t.plan)[k] == u;
    assert SoundWrite(s.committed, t.request, t.plan[k]);
    SameIdSameRow(s.committed, r);
  }

  lemma ExplainedStep(states: seq<State>, steps: seq<Step>, i: nat, k: nat, request: Request, p: nat)
    requires Run(states, steps) && i <= k < |steps| && p < |states[k].committed|
    requires var r := states[k].committed[p];
             StatusExplained(r, request, LastSpoiled(states, steps, i, k, request, r.id))
    ensures p < |states[k + 1].committed| && states[k + 1].committed[p].id == states[k].committed[p].id
    ensures var r := states[k + 1].committed[p];
            StatusExplained(r, request, LastSpoiled(states, steps, i, k + 1, request, r.id))
  {
    var id := states[k].committed[p].id;
    PlansAreSound(states, steps, k);
    if TouchedAt(states, steps, k, id) {
      if steps[k].Commit? {
        CommittedRow(states[k], steps[k].tx, p, request);
      }
      if Spoils(steps[k], request, id) {
        assert SpoiledFor(states, steps, k, k + 1, request, id);
      }
    } else {
      UntouchedRow(states[k], steps[k], p);
      SpoiledGoesOn(states, steps, i, k, request, id);
    }
  }

  lemma SpoiledGoesOn(states: seq<State>, steps: seq<Step>, i: nat, k: nat, request: Request, id: RowId)
    requires Run(states, steps) && i <= k < |steps| && !TouchedAt(states, steps, k, id)
    ensures LastSpoiled(states, steps, i, k, request, id) <==> LastSpoiled(states, steps, i, k + 1, request, id)
  {
    if n :| i <= n < k && SpoiledFor(states, steps, n, k, request, id) {
      assert SpoiledFor(states, steps, n, k + 1, request, id);
    } else if LastSpoiled(states, steps, i, k + 1, request, id) {
      var n :| i <= n < k + 1 && SpoiledFor(states, steps, n, k + 1, request, id);
      assert n < k && SpoiledFor(states, steps, n, k, request, id);
    }
  }

  lemma {:induction false} ExplainedSince(states: seq<State>, steps: seq<Step>, i: nat, k: nat, request: Request,
                                          p: nat)
    requires Run(states, steps) && i <= k < |states| && p < |states[i].committed|
    requires Eligible(request, states[i].committed[p].status)
    ensures p < |states[k].committed| && states[k].committed[p].id == states[i].committed[p].id
    ensures var r := states[k].committed[p];
            StatusExplained(r, request, LastSpoiled(states, steps, i, k, request, r.id))
  {
    if i < k {
      ExplainedSince(states, steps, i, k - 1, request, p);
      ExplainedStep(states, steps, i, k - 1, request, p);
    }
  }

  // ---- The theorem ----

  /** `tx` reads at step `i`, stays open, and its write at step `k` finds the count it read. */
  ghost predicate WriteSucceeds(states: seq<State>, steps: seq<Step>, i: nat, k: nat, tx: TxId) {
    && Run(states, steps) && i < k < |steps|
    && steps[i].Begin? && steps[i].tx == tx && steps[k] == WriteNext(tx)
    && (forall m :: i < m <= k ==> tx in states[m].txs)
    && Unmoved(states[k].committed, NextWrite(states[k], tx))
  }

  ghost function NextWrite(s: State, tx: TxId): Write
    requires Enabled(s, WriteNext(tx))
  {
    s.txs[tx].plan[s.txs[tx].done]
  }

  lemma {:induction false} SamePlan(states: seq<State>, steps: seq<Step>, i: nat, k: nat, tx: TxId)
    requires Run(states, steps) && i < k < |states| && steps[i].Begin? && steps[i].tx == tx
    requires forall m :: i < m <= k ==> tx in states[m].txs
    ensures var snapshot := Snapshot(states[i].committed, steps[i].request);
            && states[k].txs[tx].request == steps[i].request
            && states[k].txs[tx].plan == Plan(snapshot, Updates(snapshot, steps[i].request))
  {
    if i + 1 < k {
      SamePlan(states, steps, i, k - 1, tx);
      assert tx in states[k - 1].txs && tx in states[k].txs;
    } else {
      assert tx in states[k].txs;
    }
  }

  /**
   * Exactly when a write hits a row with a status the transaction did not ask for, over every interleaving: when the
   * last thing that happened to the row since the read was a change to such a status. Whatever else was committed to
   * it meanwhile, a row with the count that was read is as eligible as it was.
   */
  lemma WrittenRowIsSpoiledIff(states: seq<State>, steps: seq<Step>, i: nat, k: nat, tx: TxId, r: Row)
    requires WriteSucceeds(states, steps, i, k, tx)
    requires r in states[k].committed && r.id == NextWrite(states[k], tx).update.id
    ensures !Eligible(steps[i].request, r.status) <==> LastSpoiled(states, steps, i, k, steps[i].request, r.id)
  {
    var request := steps[i].request;
    var snapshot := Snapshot(states[i].committed, request);
    var w := NextWrite(states[k], tx);
    PlansAreSound(states, steps, i);
    PlansAreSound(states, steps, k);
    SnapshotFacts(states[i].committed, request);
    SamePlan(states, steps, i, k, tx);
    var read := PlannedFromSnapshot(snapshot, request, w);
    var p :| 0 <= p < |states[i].committed| && states[i].committed[p] == read;
    ExplainedSince(states, steps, i, k, request, p);
    var now := states[k].committed[p];
    assert now in states[k].committed && now.id == r.id;
    SameIdSameRow(states[k].committed, r);
    assert r.daysAvailed == w.previous;
    assert SoundWrite(states[k].committed, request, w);
  }

  /** So while no status of a planned row is changed between the read and the write, only eligible rows are written. */
  lemma UnchangedStatusIsEligible(states: seq<State>, steps: seq<Step>, i: nat, k: nat, tx: TxId, r: Row)
    requires WriteSucceeds(states, steps, i, k, tx)
    requires r in states[k].committed && r.id == NextWrite(states[k], tx).update.id
    requires forall n :: i <= n < k ==> !(steps[n].ChangeStatus? && steps[n].id == r.id)
    ensures Eligible(steps[i].request, r.status)
    ensures r.status == APPROVED || r.status == PARTIALLY_AVAILED
            || (r.status == AVAILED && steps[i].request.ForCancellation?)
  {
    WrittenRowIsSpoiledIff(states, steps, i, k, tx, r);
  }
}
