// src/comp-offs/comp-off.service.ts:775-865: leave approvals and cancellations write the comp-off ledger in
// concurrent transactions. A transaction reads the committed rows, plans its updates from what it read, writes them one
// at a time with a compare-and-swap on daysAvailed, and commits or rolls back. A written row stays locked until then.
module CompOffTransactions {
  import opened Prelude
  import opened CompOffConsumption
  import opened CompOffOptimality
  import opened CompOffRoundTrip

  type TxId = nat

  /** One guarded write: the update and the daysAvailed it was computed from. */
  datatype Write = Write(previous: real, update: Update)

  datatype Request = ForLeave(today: Day, days: real) | ForCancellation(days: real)

  datatype Tx = Tx(request: Request, amount: real, plan: seq<Write>, done: nat)

  /** A row version written but not yet committed. */
  datatype Pending = Pending(owner: TxId, write: Write)

  datatype State = State(
    committed: seq<Row>,
    locks: map<RowId, Pending>,
    txs: map<TxId, Tx>,
    consumed: real,
    released: real)

  // ---- Planning from a snapshot ----

  function DaysOf(rows: seq<Row>, id: RowId): real {
    if rows == [] then 0.0 else if rows[0].id == id then rows[0].daysAvailed else DaysOf(rows[1..], id)
  }

  function Plan(snapshot: seq<Row>, us: seq<Update>): (plan: seq<Write>)
    ensures |plan| == |us|
  {
    seq(|us|, k requires 0 <= k < |us| => Write(DaysOf(snapshot, us[k].id), us[k]))
  }

  predicate ReleasableStatus(status: Status) {
    Consumable(status) || status.AVAILED?
  }

  predicate Releasable(r: Row) {
    ReleasableStatus(r.status)
  }

  /** The statuses a request's query asks for. */
  predicate Eligible(request: Request, status: Status) {
    if request.ForLeave? then Consumable(status) else ReleasableStatus(status)
  }

  function Snapshot(rows: seq<Row>, request: Request): seq<Row> {
    match request
    case ForLeave(today, _) => UsableRows(rows, today)
    case ForCancellation(_) => Filter(rows, Releasable)
  }

  function Updates(snapshot: seq<Row>, request: Request): seq<Update> {
    match request
    case ForLeave(_, days) => Spend(SoonestFirst(snapshot), days)
    case ForCancellation(days) => GiveBack(LatestFirst(snapshot), days)
  }

  /** The days a transaction moves when it commits. */
  ghost function Amount(snapshot: seq<Row>, request: Request): real {
    match request
    case ForLeave(_, days) => MaxReal(0.0, days)
    case ForCancellation(days) => MinReal(MaxReal(0.0, days), Sum(snapshot, Used))
  }

  predicate Insufficient(snapshot: seq<Row>, request: Request) {
    request.ForLeave? && request.days > Available(snapshot)
  }

  function Delta(plan: seq<Write>): real {
    if plan == [] then 0.0 else plan[0].update.daysAvailed - plan[0].previous + Delta(plan[1..])
  }

  function UpdatesOf(plan: seq<Write>): (us: seq<Update>)
    ensures |us| == |plan|
    ensures forall k :: 0 <= k < |plan| ==> us[k] == plan[k].update
  {
    seq(|plan|, k requires 0 <= k < |plan| => plan[k].update)
  }

  ghost predicate DistinctTargets(plan: seq<Write>) {
    forall j, k :: 0 <= j < k < |plan| ==> plan[j].update.id != plan[k].update.id
  }

  /** The row a write is addressed to exists and the new count is within what it earned. */
  ghost predicate FitsRow(rows: seq<Row>, w: Write) {
    exists r :: r in rows && r.id == w.update.id && 0.0 <= w.update.daysAvailed <= r.daysEarned
  }

  /** The compare-and-swap's WHERE clause: the row still has the count the write was computed from. */
  ghost predicate Unmoved(rows: seq<Row>, w: Write) {
    exists r :: r in rows && r.id == w.update.id && r.daysAvailed == w.previous
  }

  lemma {:induction false} DaysOfMember(rows: seq<Row>, r: Row)
    requires DistinctIds(rows) && r in rows
    ensures DaysOf(rows, r.id) == r.daysAvailed
  {
    if rows[0] != r {
      var j :| 0 <= j < |rows| && rows[j] == r;
      assert DifferentIds(rows[0], rows[j]);
      DaysOfMember(rows[1..], r);
    }
  }

  lemma {:induction false} SpendFits(s: seq<Row>, days: real, u: Update)
    requires WithinEarned(s) && u in Spend(s, days)
    ensures exists r :: r in s && r.id == u.id && 0.0 <= u.daysAvailed <= r.daysEarned
  {
    if u == UpdateOf(ConsumedRow(s[0], MinReal(Open(s[0]), days))) && Open(s[0]) > 0.0 {
      assert s[0] in s;
    } else {
      SpendFits(s[1..], if Open(s[0]) <= 0.0 then days else days - MinReal(Open(s[0]), days), u);
    }
  }

  lemma {:induction false} GiveBackFits(s: seq<Row>, days: real, u: Update)
    requires WithinEarned(s) && u in GiveBack(s, days)
    ensures exists r :: r in s && r.id == u.id && 0.0 <= u.daysAvailed <= r.daysEarned
  {
    if u == UpdateOf(ReleasedRow(s[0], MinReal(Used(s[0]), days))) && Used(s[0]) > 0.0 {
      assert s[0] in s;
    } else {
      GiveBackFits(s[1..], if Used(s[0]) <= 0.0 then days else days - MinReal(Used(s[0]), days), u);
    }
  }

  lemma {:induction false} SpendTargets(s: seq<Row>, days: real, j: nat, k: nat)
    requires DistinctIds(s) && j < k < |Spend(s, days)|
    ensures Spend(s, days)[j].id != Spend(s, days)[k].id
  {
    var rest := if Open(s[0]) <= 0.0 then days else days - MinReal(Open(s[0]), days);
    if Open(s[0]) <= 0.0 {
      SpendTargets(s[1..], rest, j, k);
    } else if j > 0 {
      SpendTargets(s[1..], rest, j - 1, k - 1);
    } else {
      assert Touches(Spend(s[1..], rest), Spend(s, days)[k].id);
      SpendTouchesOnlyIts(s[1..], rest, Spend(s, days)[k].id);
    }
  }

  lemma {:induction false} GiveBackTargets(s: seq<Row>, days: real, j: nat, k: nat)
    requires DistinctIds(s) && j < k < |GiveBack(s, days)|
    ensures GiveBack(s, days)[j].id != GiveBack(s, days)[k].id
  {
    var rest := if Used(s[0]) <= 0.0 then days else days - MinReal(Used(s[0]), days);
    if Used(s[0]) <= 0.0 {
      GiveBackTargets(s[1..], rest, j, k);
    } else if j > 0 {
      GiveBackTargets(s[1..], rest, j - 1, k - 1);
    } else {
      assert Touches(GiveBack(s[1..], rest), GiveBack(s, days)[k].id);
      GiveBackTouchesOnlyIts(s[1..], rest, GiveBack(s, days)[k].id);
    }
  }

  // ---- What committing a plan does to the total ----

  lemma {:induction false} SumReplace(rows: seq<Row>, i: nat, r: Row)
    requires i < |rows|
    ensures Sum(rows[i := r], Availed) == Sum(rows, Availed) - rows[i].daysAvailed + r.daysAvailed
  {
    if i > 0 {
      assert rows[i := r][1..] == rows[1..][i - 1 := r];
      SumReplace(rows[1..], i - 1, r);
    } else {
      assert rows[i := r][1..] == rows[1..];
    }
  }

  lemma WriteBackFirst(rows: seq<Row>, i: nat, us: seq<Update>)
    requires DistinctIds(rows) && us != [] && i < |rows| && rows[i].id == us[0].id
    requires !Touches(us[1..], us[0].id)
    ensures WriteBack(rows, us) == WriteBack(rows[i := Written(rows[i], us)], us[1..])
  {
    var r := Written(rows[i], us);
    WrittenUntouched(r, us[1..]);
    forall j | 0 <= j < |rows| && j != i
      ensures Written(rows[j], us) == Written(rows[j], us[1..])
    {
      assert DifferentIds(rows[Min(i, j)], rows[Max(i, j)]);
    }
  }

  lemma {:induction false} CommitMovesDelta(rows: seq<Row>, plan: seq<Write>)
    requires DistinctIds(rows) && DistinctTargets(plan)
    requires forall w :: w in plan ==> Unmoved(rows, w)
    ensures Sum(WriteBack(rows, UpdatesOf(plan)), Availed) == Sum(rows, Availed) + Delta(plan)
    decreases |plan|
  {
    var us := UpdatesOf(plan);
    if plan == [] {
      assert WriteBack(rows, us) == rows;
    } else {
      assert plan[0] in plan && Unmoved(rows, plan[0]);
      var i :| 0 <= i < |rows| && rows[i].id == plan[0].update.id && rows[i].daysAvailed == plan[0].previous;
      var rows1 := rows[i := Written(rows[i], us)];
      assert us[1..] == UpdatesOf(plan[1..]);
      WriteBackFirst(rows, i, us);
      SumReplace(rows, i, Written(rows[i], us));
      ReplaceKeeps(rows, i, Written(rows[i], us), plan);
      CommitMovesDelta(rows1, plan[1..]);
    }
  }

  lemma ReplaceKeeps(rows: seq<Row>, i: nat, r: Row, plan: seq<Write>)
    requires DistinctIds(rows) && i < |rows| && r.id == rows[i].id
    requires plan != [] && DistinctTargets(plan) && plan[0].update.id == r.id
    requires forall w :: w in plan ==> Unmoved(rows, w)
    ensures DistinctIds(rows[i := r])
    ensures forall w :: w in plan[1..] ==> Unmoved(rows[i := r], w)
  {
    var after := rows[i := r];
    forall a, b | 0 <= a < b < |after|
      ensures DifferentIds(after[a], after[b])
    {
      assert DifferentIds(rows[a], rows[b]);
    }
    forall k | 1 <= k < |plan|
      ensures Unmoved(rows[i := r], plan[k])
    {
      assert plan[k] in plan && Unmoved(rows, plan[k]);
      var j :| 0 <= j < |rows| && rows[j].id == plan[k].update.id && rows[j].daysAvailed == plan[k].previous;
      assert rows[i := r][j] == rows[j];
    }
  }

  ghost function SignedAmount(snapshot: seq<Row>, request: Request): real {
    if request.ForLeave? then Amount(snapshot, request) else -Amount(snapshot, request)
  }

  lemma UpdatesFit(snapshot: seq<Row>, request: Request)
    requires DistinctIds(snapshot) && WithinEarned(snapshot)
    ensures forall u :: u in Updates(snapshot, request) ==>
              exists r :: r in snapshot && r.id == u.id && 0.0 <= u.daysAvailed <= r.daysEarned
    ensures forall j, k :: 0 <= j < k < |Updates(snapshot, request)| ==>
              Updates(snapshot, request)[j].id != Updates(snapshot, request)[k].id
  {
    var us := Updates(snapshot, request);
    var sorted := if request.ForLeave? then SoonestFirst(snapshot) else LatestFirst(snapshot);
    StableSortMembers(snapshot, ExpiresNoLater);
    StableSortMembers(snapshot, ExpiresNoSooner);
    StableSortPairwise(snapshot, ExpiresNoLater, DifferentIds);
    StableSortPairwise(snapshot, ExpiresNoSooner, DifferentIds);
    forall u | u in us
      ensures exists r :: r in snapshot && r.id == u.id && 0.0 <= u.daysAvailed <= r.daysEarned
    {
      match request {
        case ForLeave(_, days) => SpendFits(sorted, days, u);
        case ForCancellation(days) => GiveBackFits(sorted, days, u);
      }
    }
    forall j, k | 0 <= j < k < |us|
      ensures us[j].id != us[k].id
    {
      match request {
        case ForLeave(_, days) => SpendTargets(sorted, days, j, k);
        case ForCancellation(days) => GiveBackTargets(sorted, days, j, k);
      }
    }
  }

  /** A plan made from a snapshot hits distinct rows of it, keeps each within what it earned, and moves the amount. */
  lemma PlanFacts(snapshot: seq<Row>, request: Request)
    requires DistinctIds(snapshot) && WithinEarned(snapshot) && !Insufficient(snapshot, request)
    ensures var plan := Plan(snapshot, Updates(snapshot, request));
            && DistinctTargets(plan)
            && (forall w :: w in plan ==> FitsRow(snapshot, w) && Unmoved(snapshot, w))
            && Delta(plan) == SignedAmount(snapshot, request)
  {
    var us := Updates(snapshot, request);
    var plan := Plan(snapshot, us);
    UpdatesFit(snapshot, request);
    forall k | 0 <= k < |plan|
      ensures FitsRow(snapshot, plan[k]) && Unmoved(snapshot, plan[k])
    {
      assert us[k] in us;
      var r :| r in snapshot && r.id == us[k].id && 0.0 <= us[k].daysAvailed <= r.daysEarned;
      DaysOfMember(snapshot, r);
    }
    assert UpdatesOf(plan) == us;
    CommitMovesDelta(snapshot, plan);
    UpdatesMoveAmount(snapshot, request);
  }

  lemma UpdatesMoveAmount(snapshot: seq<Row>, request: Request)
    requires DistinctIds(snapshot) && WithinEarned(snapshot) && !Insufficient(snapshot, request)
    ensures Sum(WriteBack(snapshot, Updates(snapshot, request)), Availed)
         == Sum(snapshot, Availed) + SignedAmount(snapshot, request)
  {
    match request {
      case ForLeave(_, days) =>
        if days >= 0.0 {
          ConsumeAddsDaysMinusShortfall(snapshot, days);
        } else {
          assert WriteBack(snapshot, Updates(snapshot, request)) == snapshot;
        }
      case ForCancellation(days) =>
        UsedNonNegative(snapshot);
        if days >= 0.0 {
          ReleaseReturnsAtMostUsed(snapshot, days);
        } else {
          assert WriteBack(snapshot, Updates(snapshot, request)) == snapshot;
        }
    }
  }

  // ---- The interleaved transactions ----

  datatype Step =
    | Begin(tx: TxId, request: Request)
    | WriteNext(tx: TxId)
    | Commit(tx: TxId)
    | Rollback(tx: TxId)
    | Earn(row: Row)
    | ChangeStatus(id: RowId, status: Status)

  predicate HasRow(rows: seq<Row>, id: RowId) {
    exists r :: r in rows && r.id == id
  }

  ghost predicate Enabled(s: State, step: Step) {
    match step
    case Begin(tx, request) => tx !in s.txs
    // A row written by another open transaction makes this one wait.
    case WriteNext(tx) =>
      && tx in s.txs && s.txs[tx].done < |s.txs[tx].plan|
      && s.txs[tx].plan[s.txs[tx].done].update.id !in s.locks
    case Commit(tx) => tx in s.txs && s.txs[tx].done == |s.txs[tx].plan|
    case Rollback(tx) => tx in s.txs
    case Earn(row) => !HasRow(s.committed, row.id) && row.daysAvailed == 0.0 && 0.0 <= row.daysEarned
    case ChangeStatus(id, _) => id !in s.locks
  }

  /** The locks left when `tx` ends. */
  function Unlocked(locks: map<RowId, Pending>, tx: TxId): (rest: map<RowId, Pending>)
    ensures forall id :: id in rest <==> id in locks && locks[id].owner != tx
    ensures forall id :: id in rest ==> rest[id] == locks[id]
  {
    map id | id in locks && locks[id].owner != tx :: locks[id]
  }

  function WithStatus(rows: seq<Row>, id: RowId, status: Status): (after: seq<Row>)
    ensures |after| == |rows|
    ensures forall i :: 0 <= i < |rows| ==>
              after[i] == if rows[i].id == id then rows[i].(status := status) else rows[i]
  {
    seq(|rows|, i requires 0 <= i < |rows| => if rows[i].id == id then rows[i].(status := status) else rows[i])
  }

  ghost function Next(s: State, step: Step): State
    requires Enabled(s, step)
  {
    match step
    case Begin(tx, request) =>
      var snapshot := Snapshot(s.committed, request);
      if Insufficient(snapshot, request) then s
      else s.(txs := s.txs[tx := Tx(request, Amount(snapshot, request), Plan(snapshot, Updates(snapshot, request)), 0)])
    case WriteNext(tx) =>
      var w := s.txs[tx].plan[s.txs[tx].done];
      if Unmoved(s.committed, w) then
        s.(locks := s.locks[w.update.id := Pending(tx, w)],
           txs := s.txs[tx := s.txs[tx].(done := s.txs[tx].done + 1)])
      else End(s, tx)
    case Commit(tx) =>
      var t := s.txs[tx];
      var s1 := End(s, tx).(committed := WriteBack(s.committed, UpdatesOf(t.plan)));
      if t.request.ForLeave? then s1.(consumed := s1.consumed + t.amount)
      else s1.(released := s1.released + t.amount)
    case Rollback(tx) => End(s, tx)
    case Earn(row) => s.(committed := s.committed + [row])
    case ChangeStatus(id, status) => s.(committed := WithStatus(s.committed, id, status))
  }

  ghost function End(s: State, tx: TxId): State {
    s.(locks := Unlocked(s.locks, tx), txs := s.txs - {tx})
  }

  ghost predicate TxPlan(rows: seq<Row>, t: Tx) {
    && t.done <= |t.plan|
    && DistinctTargets(t.plan)
    && (forall w :: w in t.plan ==> FitsRow(rows, w))
    && Delta(t.plan) == if t.request.ForLeave? then t.amount else -t.amount
  }

  ghost predicate TxLocks(s: State, tx: TxId)
    requires tx in s.txs && s.txs[tx].done <= |s.txs[tx].plan|
  {
    forall k :: 0 <= k < s.txs[tx].done ==>
      var w := s.txs[tx].plan[k];
      w.update.id in s.locks && s.locks[w.update.id] == Pending(tx, w) && Unmoved(s.committed, w)
  }

  /** What every interleaving keeps; `start` is the total used at the beginning. */
  ghost predicate Inv(s: State, start: real) {
    && DistinctIds(s.committed) && WithinEarned(s.committed)
    && (forall tx :: tx in s.txs ==> TxPlan(s.committed, s.txs[tx]) && TxLocks(s, tx))
    && (forall id :: id in s.locks ==> s.locks[id].owner in s.txs)
    && Sum(s.committed, Availed) == start + s.consumed - s.released
  }

  ghost predicate Initial(s: State) {
    && DistinctIds(s.committed) && WithinEarned(s.committed)
    && s.locks == map[] && s.txs == map[] && s.consumed == 0.0 && s.released == 0.0
  }

  // The rows whose id a commit does not touch keep their version; the others stay within what they earned.
  lemma CommitKeepsRows(s: State, start: real, tx: TxId)
    requires Inv(s, start) && Enabled(s, Commit(tx))
    ensures DistinctIds(Next(s, Commit(tx)).committed) && WithinEarned(Next(s, Commit(tx)).committed)
  {
    var us := UpdatesOf(s.txs[tx].plan);
    var after := WriteBack(s.committed, us);
    forall i, j | 0 <= i < j < |after|
      ensures after[i].id != after[j].id
    {
      assert DifferentIds(s.committed[i], s.committed[j]);
    }
    forall i | 0 <= i < |after|
      ensures 0.0 <= after[i].daysAvailed <= after[i].daysEarned
    {
      assert s.committed[i] in s.committed;
      if Touches(us, after[i].id) {
        WrittenTouched(s.committed[i], us);
        var k :| 0 <= k < |us| && us[k].id == after[i].id && us[k].daysAvailed == after[i].daysAvailed;
        assert FitsRow(s.committed, s.txs[tx].plan[k]);
        SameIdSameRow(s.committed, s.committed[i]);
      } else {
        WrittenUntouched(s.committed[i], us);
      }
    }
  }

  lemma {:induction false} WrittenTouched(r: Row, us: seq<Update>)
    requires Touches(us, r.id)
    ensures exists k :: 0 <= k < |us| && us[k].id == r.id && us[k].daysAvailed == Written(r, us).daysAvailed
  {
    if us[0].id != r.id {
      assert Touches(us[1..], r.id);
      WrittenTouched(r, us[1..]);
      var k :| 0 <= k < |us[1..]| && us[1..][k].id == r.id && us[1..][k].daysAvailed == Written(r, us).daysAvailed;
      assert us[k + 1] == us[1..][k];
    }
  }

  /** Every credit of `a` is still there in `b`, with the same days earned. */
  ghost predicate CreditsRemain(a: seq<Row>, b: seq<Row>) {
    forall i :: 0 <= i < |a| ==> i < |b| && b[i].id == a[i].id && b[i].daysEarned == a[i].daysEarned
  }

  lemma PlansRemain(a: seq<Row>, b: seq<Row>, t: Tx)
    requires CreditsRemain(a, b) && TxPlan(a, t)
    ensures TxPlan(b, t)
  {
  }

  lemma BeginKeeps(s: State, start: real, tx: TxId, request: Request)
    requires Inv(s, start) && Enabled(s, Begin(tx, request))
    ensures Inv(Next(s, Begin(tx, request)), start)
  {
    var snapshot := Snapshot(s.committed, request);
    if !Insufficient(snapshot, request) {
      match request {
        case ForLeave(today, _) => FilterPairwise(s.committed, UsableAt(today), DifferentIds);
        case ForCancellation(_) => FilterPairwise(s.committed, Releasable, DifferentIds);
      }
      assert forall r :: r in snapshot ==> r in s.committed;
      PlanFacts(snapshot, request);
      var plan := Plan(snapshot, Updates(snapshot, request));
      forall w | w in plan
        ensures FitsRow(s.committed, w)
      {
        assert FitsRow(snapshot, w);
      }
    }
  }

  lemma EndKeeps(s: State, start: real, tx: TxId)
    requires Inv(s, start)
    ensures Inv(End(s, tx), start)
  {
  }

  lemma WriteKeeps(s: State, start: real, tx: TxId)
    requires Inv(s, start) && Enabled(s, WriteNext(tx))
    ensures Inv(Next(s, WriteNext(tx)), start)
  {
    var w := s.txs[tx].plan[s.txs[tx].done];
    if Unmoved(s.committed, w) {
      var s' := Next(s, WriteNext(tx));
      assert s'.committed == s.committed && s'.consumed == s.consumed && s'.released == s.released;
      forall other | other in s'.txs
        ensures TxPlan(s'.committed, s'.txs[other]) && TxLocks(s', other)
      {
        assert TxPlan(s.committed, s.txs[other]) && TxLocks(s, other);
        WriteKeepsLocks(s, start, tx, other);
      }
    } else {
      EndKeeps(s, start, tx);
    }
  }

  lemma WriteKeepsLocks(s: State, start: real, tx: TxId, other: TxId)
    requires Inv(s, start) && Enabled(s, WriteNext(tx)) && other in s.txs
    requires Unmoved(s.committed, s.txs[tx].plan[s.txs[tx].done])
    ensures TxLocks(Next(s, WriteNext(tx)), other)
  {
    var s' := Next(s, WriteNext(tx));
    var w := s.txs[tx].plan[s.txs[tx].done];
    forall k | 0 <= k < s'.txs[other].done
      ensures var v := s'.txs[other].plan[k];
              v.update.id in s'.locks && s'.locks[v.update.id] == Pending(other, v) && Unmoved(s'.committed, v)
    {
      var v := s.txs[other].plan[k];
      if k < s.txs[other].done {
        assert v.update.id in s.locks && s.locks[v.update.id] == Pending(other, v);
        assert v.update.id != w.update.id;
      }
    }
  }

  lemma CommitKeeps(s: State, start: real, tx: TxId)
    requires Inv(s, start) && Enabled(s, Commit(tx))
    ensures Inv(Next(s, Commit(tx)), start)
  {
    var t, us := s.txs[tx], UpdatesOf(s.txs[tx].plan);
    var s' := Next(s, Commit(tx));
    CommitKeepsRows(s, start, tx);
    CommitMovesDelta(s.committed, t.plan);
    forall other | other in s'.txs
      ensures TxPlan(s'.committed, s'.txs[other]) && TxLocks(s', other)
    {
      PlansRemain(s.committed, s'.committed, s.txs[other]);
      forall k | 0 <= k < s.txs[other].done
        ensures Unmoved(s'.committed, s.txs[other].plan[k])
      {
        LockedStaysUnmoved(s, start, tx, s.txs[other].plan[k]);
      }
    }
  }

  lemma LockedStaysUnmoved(s: State, start: real, tx: TxId, w: Write)
    requires Inv(s, start) && Enabled(s, Commit(tx))
    requires w.update.id in s.locks && s.locks[w.update.id].owner != tx && Unmoved(s.committed, w)
    ensures Unmoved(Next(s, Commit(tx)).committed, w)
  {
    var us := UpdatesOf(s.txs[tx].plan);
    var i :| 0 <= i < |s.committed| && s.committed[i].id == w.update.id && s.committed[i].daysAvailed == w.previous;
    if Touches(us, w.update.id) {
      assert false;
    }
    WrittenUntouched(s.committed[i], us);
    assert Next(s, Commit(tx)).committed[i] == s.committed[i];
  }

  lemma EarnKeeps(s: State, start: real, row: Row)
    requires Inv(s, start) && Enabled(s, Earn(row))
    ensures Inv(Next(s, Earn(row)), start)
  {
    var s' := Next(s, Earn(row));
    SumAppend(s.committed, [row], Availed);
    forall tx | tx in s.txs
      ensures TxPlan(s'.committed, s.txs[tx]) && TxLocks(s', tx)
    {
      PlansRemain(s.committed, s'.committed, s.txs[tx]);
    }
  }

  lemma {:induction false} StatusKeepsSum(rows: seq<Row>, id: RowId, status: Status)
    ensures Sum(WithStatus(rows, id, status), Availed) == Sum(rows, Availed)
  {
    if rows != [] {
      StatusKeepsSum(rows[1..], id, status);
      assert WithStatus(rows, id, status)[1..] == WithStatus(rows[1..], id, status);
    }
  }

  lemma StatusKeepsRows(rows: seq<Row>, id: RowId, status: Status)
    requires DistinctIds(rows) && WithinEarned(rows)
    ensures DistinctIds(WithStatus(rows, id, status)) && WithinEarned(WithStatus(rows, id, status))
    ensures CreditsRemain(rows, WithStatus(rows, id, status))
  {
  }

  lemma StatusKeepsUnmoved(rows: seq<Row>, id: RowId, status: Status, w: Write)
    requires Unmoved(rows, w)
    ensures Unmoved(WithStatus(rows, id, status), w)
  {
  }

  lemma ChangeStatusKeeps(s: State, start: real, id: RowId, status: Status)
    requires Inv(s, start) && Enabled(s, ChangeStatus(id, status))
    ensures Inv(Next(s, ChangeStatus(id, status)), start)
  {
    var s' := Next(s, ChangeStatus(id, status));
    StatusKeepsSum(s.committed, id, status);
    StatusKeepsRows(s.committed, id, status);
    forall tx | tx in s.txs
      ensures TxPlan(s'.committed, s.txs[tx]) && TxLocks(s', tx)
    {
      PlansRemain(s.committed, s'.committed, s.txs[tx]);
      forall k | 0 <= k < s.txs[tx].done
        ensures Unmoved(s'.committed, s.txs[tx].plan[k])
      {
        StatusKeepsUnmoved(s.committed, id, status, s.txs[tx].plan[k]);
      }
    }
  }

  lemma StepKeeps(s: State, start: real, step: Step)
    requires Inv(s, start) && Enabled(s, step)
    ensures Inv(Next(s, step), start)
  {
    match step {
      case Begin(tx, request) => BeginKeeps(s, start, tx, request);
      case WriteNext(tx) => WriteKeeps(s, start, tx);
      case Commit(tx) => CommitKeeps(s, start, tx);
      case Rollback(tx) => EndKeeps(s, start, tx);
      case Earn(row) => EarnKeeps(s, start, row);
      case ChangeStatus(id, status) => ChangeStatusKeeps(s, start, id, status);
    }
  }

  /** `states` is a run: every state follows from the one before it by some enabled step of some transaction. */
  ghost predicate Run(states: seq<State>, steps: seq<Step>) {
    && |states| == |steps| + 1
    && Initial(states[0])
    && forall i :: 0 <= i < |steps| ==> Enabled(states[i], steps[i]) && states[i + 1] == Next(states[i], steps[i])
  }

  /**
   * No update is lost: in every state of every interleaving each row is used within what it earned, and the days
   * used are those at the start plus the committed consumption minus the committed release.
   */
  lemma {:induction false} NoUpdateIsLost(states: seq<State>, steps: seq<Step>, i: nat)
    requires Run(states, steps) && i < |states|
    ensures Inv(states[i], Sum(states[0].committed, Availed))
    ensures WithinEarned(states[i].committed)
    ensures Sum(states[i].committed, Availed)
         == Sum(states[0].committed, Availed) + states[i].consumed - states[i].released
  {
    if i > 0 {
      NoUpdateIsLost(states, steps, i - 1);
      StepKeeps(states[i - 1], Sum(states[0].committed, Availed), steps[i - 1]);
    }
  }

  /** A transaction that commits wrote every row from the value the row still had, so it acted on current balances. */
  lemma CommitActsOnCurrentRows(states: seq<State>, steps: seq<Step>, i: nat)
    requires Run(states, steps) && i < |steps| && steps[i].Commit?
    ensures forall w :: w in states[i].txs[steps[i].tx].plan ==> Unmoved(states[i].committed, w)
    ensures var t := states[i].txs[steps[i].tx];
            Sum(states[i + 1].committed, Availed)
            == Sum(states[i].committed, Availed) + (if t.request.ForLeave? then t.amount else -t.amount)
  {
    NoUpdateIsLost(states, steps, i);
    NoUpdateIsLost(states, steps, i + 1);
  }

  /** Two open transactions never hold the same row. */
  lemma OneWriterPerRow(states: seq<State>, steps: seq<Step>, i: nat, a: TxId, b: TxId, j: nat, k: nat)
    requires Run(states, steps) && i < |states| && a in states[i].txs && b in states[i].txs && a != b
    requires j < states[i].txs[a].done && k < states[i].txs[b].done
    requires states[i].txs[a].done <= |states[i].txs[a].plan| && states[i].txs[b].done <= |states[i].txs[b].plan|
    ensures states[i].txs[a].plan[j].update.id != states[i].txs[b].plan[k].update.id
  {
    NoUpdateIsLost(states, steps, i);
  }

  /**
   * The guard is on daysAvailed alone, so only the counts are protected: a credit withdrawn between the read and the
   * write of a leave approval is consumed all the same, and is AVAILED instead of REJECTED afterwards.
   */
  lemma WithdrawnCreditIsStillConsumed(r: Row, today: Day)
    requires Usable(r, today) && r.daysAvailed == 0.0 < r.daysEarned
    ensures var s := State([r], map[], map[], 0.0, 0.0);
            var steps := [Begin(0, ForLeave(today, r.daysEarned)), ChangeStatus(r.id, REJECTED), WriteNext(0),
                Commit(0)];
            exists states: seq<State> :: Run(states, steps) && states[0] == s
              && states[4].committed == [ConsumedRow(r, r.daysEarned)]
  {
    var days := r.daysEarned;
    var request := ForLeave(today, days);
    var withdrawn := r.(status := REJECTED);
    var w := Write(0.0, UpdateOf(ConsumedRow(r, days)));
    SoleRow(r, today);
    assert Plan([r], [w.update]) == [w];
    var t := Tx(request, days, [w], 0);
    var s0 := State([r], map[], map[], 0.0, 0.0);
    var s1 := State([r], map[], map[0 := t], 0.0, 0.0);
    var s2 := State([withdrawn], map[], map[0 := t], 0.0, 0.0);
    var s3 := State([withdrawn], map[r.id := Pending(0, w)], map[0 := t.(done := 1)], 0.0, 0.0);
    var s4 := State([ConsumedRow(r, days)], map[], map[], days, 0.0);
    assert Next(s0, Begin(0, request)) == s1;
    assert WithStatus([r], r.id, REJECTED) == [withdrawn];
    assert Next(s1, ChangeStatus(r.id, REJECTED)) == s2;
    assert withdrawn in s2.committed && Unmoved(s2.committed, w);
    assert Next(s2, WriteNext(0)) == s3;
    assert UpdatesOf([w]) == [w.update];
    assert WriteBack([withdrawn], [w.update]) == [ConsumedRow(r, days)];
    assert Unlocked(s3.locks, 0) == map[] && s3.txs - {0} == map[];
    assert Next(s3, Commit(0)) == s4;
    var states := [s0, s1, s2, s3, s4];
    var steps := [Begin(0, request), ChangeStatus(r.id, REJECTED), WriteNext(0), Commit(0)];
    assert Run(states, steps);
  }

  lemma SoleRow(r: Row, today: Day)
    requires Usable(r, today) && r.daysAvailed == 0.0 < r.daysEarned
    ensures UsableRows([r], today) == [r] && Available([r]) == r.daysEarned
    ensures Spend(SoonestFirst([r]), r.daysEarned) == [UpdateOf(ConsumedRow(r, r.daysEarned))]
  {
    assert [r][1..] == [];
    assert UsableAt(today)(r);
    assert Filter([], UsableAt(today)) == [];
    assert Available([]) == 0.0;
    assert StableSort([r], ExpiresNoLater) == Insert(r, [], ExpiresNoLater) == [r];
    assert Spend([], 0.0) == [];
  }

  // ---- One transaction's own code: the loop of guarded updates ----

  /** One employee's rows of the comp_offs table. */
  class CompOffTable {
    var rows: seq<Row>

    constructor (rows: seq<Row>)
      ensures this.rows == rows
    {
      this.rows := rows;
    }

    /** updateMany with the guard: the number of rows changed. */
    method UpdateGuarded(w: Write) returns (count: nat)
      requires DistinctIds(rows)
      modifies this
      ensures count == if Unmoved(old(rows), w) then 1 else 0
      ensures rows == if count == 1 then WriteBack(old(rows), [w.update]) else old(rows)
    {
      count := 0;
      var i := 0;
      while i < |rows|
        invariant 0 <= i <= |rows| == |old(rows)|
        invariant count == 0 ==> rows == old(rows)
        invariant count == 0 ==> forall j :: 0 <= j < i ==>
                    !(rows[j].id == w.update.id && rows[j].daysAvailed == w.previous)
        invariant count == 1 ==> Unmoved(old(rows), w) && rows == WriteBack(old(rows), [w.update])
        invariant count <= 1
      {
        if count == 0 && rows[i].id == w.update.id && rows[i].daysAvailed == w.previous {
          assert rows[i] in old(rows);
          WriteBackOne(rows, i, w.update);
          rows := rows[i := rows[i].(daysAvailed := w.update.daysAvailed, status := w.update.status)];
          count := 1;
        }
        i := i + 1;
      }
    }

    /**
     * consumeForLeave and releaseForLeave from the read on: `snapshot` is what their query returned, and the table may
     * have moved since. Every update is written if every row still has the count that was read; otherwise nothing is.
     */
    method WriteGuarded(snapshot: seq<Row>, request: Request) returns (committed: bool)
      requires DistinctIds(rows) && DistinctIds(snapshot) && WithinEarned(snapshot)
      modifies this
      ensures committed <==>
              && !Insufficient(snapshot, request)
              && forall w :: w in Plan(snapshot, Updates(snapshot, request)) ==> Unmoved(old(rows), w)
      ensures rows == if committed then WriteBack(old(rows), Updates(snapshot, request)) else old(rows)
    {
      if Insufficient(snapshot, request) {
        return false;
      }
      UpdatesFit(snapshot, request);
      var plan := Plan(snapshot, Updates(snapshot, request));
      assert UpdatesOf(plan) == Updates(snapshot, request);
      committed := WritePlan(plan);
    }

    // The loop of compare-and-swaps; a miss throws, which rolls the whole transaction back.
    method WritePlan(plan: seq<Write>) returns (committed: bool)
      requires DistinctIds(rows) && DistinctTargets(plan)
      modifies this
      ensures committed <==> forall w :: w in plan ==> Unmoved(old(rows), w)
      ensures rows == if committed then WriteBack(old(rows), UpdatesOf(plan)) else old(rows)
    {
      var before := rows;
      PlanStarts(before, plan);
      var k := 0;
      while k < |plan|
        invariant 0 <= k <= |plan| && WrittenUpTo(before, plan, k, rows)
      {
        PlanStep(before, plan, k, rows);
        var count := UpdateGuarded(plan[k]);
        if count == 0 {
          assert plan[k] in plan;
          rows := before;
          return false;
        }
        k := k + 1;
      }
      assert UpdatesOf(plan)[..k] == UpdatesOf(plan);
      return true;
    }
  }

  /** Where the loop stands before write `k`: the writes so far are in the rows, and each found its row unmoved. */
  ghost predicate WrittenUpTo(before: seq<Row>, plan: seq<Write>, k: nat, rows: seq<Row>)
    requires k <= |plan|
  {
    && rows == WriteBack(before, UpdatesOf(plan)[..k]) && DistinctIds(rows)
    && forall j :: 0 <= j < k ==> Unmoved(before, plan[j])
  }

  lemma PlanStarts(before: seq<Row>, plan: seq<Write>)
    requires DistinctIds(before)
    ensures WrittenUpTo(before, plan, 0, before)
  {
    assert WriteBack(before, UpdatesOf(plan)[..0]) == before;
  }

  lemma PlanStep(before: seq<Row>, plan: seq<Write>, k: nat, rows: seq<Row>)
    requires k < |plan| && DistinctIds(before) && DistinctTargets(plan) && WrittenUpTo(before, plan, k, rows)
    ensures Unmoved(rows, plan[k]) <==> Unmoved(before, plan[k])
    ensures Unmoved(rows, plan[k]) ==> WrittenUpTo(before, plan, k + 1, WriteBack(rows, [plan[k].update]))
  {
    var us := UpdatesOf(plan);
    PrefixUntouched(plan, k);
    UnmovedElsewhere(before, us[..k], plan[k]);
    WriteBackLast(before, us[..k], us[k]);
    assert us[..k + 1] == us[..k] + [us[k]];
    WriteBackKeepsIds(before, us[..k + 1]);
  }

  lemma PrefixUntouched(plan: seq<Write>, k: nat)
    requires DistinctTargets(plan) && k < |plan|
    ensures !Touches(UpdatesOf(plan)[..k], plan[k].update.id)
  {
  }

  lemma WriteBackOne(rows: seq<Row>, i: nat, u: Update)
    requires DistinctIds(rows) && i < |rows| && rows[i].id == u.id
    ensures WriteBack(rows, [u]) == rows[i := rows[i].(daysAvailed := u.daysAvailed, status := u.status)]
  {
    forall j | 0 <= j < |rows| && j != i
      ensures Written(rows[j], [u]) == rows[j]
    {
      assert DifferentIds(rows[Min(i, j)], rows[Max(i, j)]);
    }
  }

  lemma WriteBackKeepsIds(rows: seq<Row>, us: seq<Update>)
    requires DistinctIds(rows)
    ensures DistinctIds(WriteBack(rows, us))
  {
  }

  lemma {:induction false} WrittenLast(r: Row, us: seq<Update>, u: Update)
    requires !Touches(us, u.id)
    ensures Written(r, us + [u]) == Written(Written(r, us), [u])
  {
    if us == [] {
      assert us + [u] == [u];
    } else {
      assert us[0] in us && (us + [u])[1..] == us[1..] + [u];
      assert !Touches(us[1..], u.id);
      WrittenLast(r, us[1..], u);
    }
  }

  lemma WriteBackLast(rows: seq<Row>, us: seq<Update>, u: Update)
    requires !Touches(us, u.id)
    ensures WriteBack(rows, us + [u]) == WriteBack(WriteBack(rows, us), [u])
  {
    forall i | 0 <= i < |rows|
      ensures Written(rows[i], us + [u]) == Written(Written(rows[i], us), [u])
    {
      WrittenLast(rows[i], us, u);
    }
  }

  // Writes to other rows do not move the row a later write is addressed to.
  lemma UnmovedElsewhere(rows: seq<Row>, us: seq<Update>, w: Write)
    requires !Touches(us, w.update.id)
    ensures Unmoved(WriteBack(rows, us), w) <==> Unmoved(rows, w)
  {
    var after := WriteBack(rows, us);
    forall i | 0 <= i < |rows| && rows[i].id == w.update.id
      ensures after[i] == rows[i]
    {
      WrittenUntouched(rows[i], us);
    }
    if Unmoved(rows, w) {
      var i :| 0 <= i < |rows| && rows[i].id == w.update.id && rows[i].daysAvailed == w.previous;
      assert after[i] in after;
    }
    if Unmoved(after, w) {
      var i :| 0 <= i < |after| && after[i].id == w.update.id && after[i].daysAvailed == w.previous;
      assert rows[i] in rows;
    }
  }
}
