// src/common/manager-reassignment.ts:24-111, src/common/managers.ts:12-22: moving everyone who reports to one manager
// (as primary or additional manager) to a replacement. One organisation's users, keyed by id.
module ManagerReassignment {
  import opened Prelude

  type UserId = nat

  datatype Role = ADMIN | HR | MANAGER | EMPLOYEE

  datatype User = User(role: Role, isActive: bool, primary: Option<UserId>, extras: seq<UserId>)

  type Users = map<UserId, User>

  // ---- Lists without repeats ----

  function Without(s: seq<UserId>, x: UserId): (r: seq<UserId>)
    ensures forall y :: y in r <==> y in s && y != x
  {
    if s == [] then [] else if s[0] == x then Without(s[1..], x) else [s[0]] + Without(s[1..], x)
  }

  /** The list JavaScript spreads out of a Set: first occurrences, in order. */
  function Distinct(s: seq<UserId>): (r: seq<UserId>)
    ensures forall y :: y in r <==> y in s
  {
    if s == [] then [] else [s[0]] + Without(Distinct(s[1..]), s[0])
  }

  predicate NoRepeats(s: seq<UserId>) {
    forall i, j :: 0 <= i < j < |s| ==> s[i] != s[j]
  }

  function Swap(from: UserId, to: UserId, x: UserId): UserId {
    if x == from then to else x
  }

  function SwapAll(from: UserId, to: UserId, s: seq<UserId>): (r: seq<UserId>)
    ensures |r| == |s|
    ensures forall i :: 0 <= i < |s| ==> r[i] == Swap(from, to, s[i])
  {
    if s == [] then [] else [Swap(from, to, s[0])] + SwapAll(from, to, s[1..])
  }

  // ---- Managers ----

  function ManagerIds(u: User): seq<UserId> {
    Distinct((if u.primary.Some? then [u.primary.value] else []) + u.extras)
  }

  predicate ReportsTo(u: User, manager: UserId) {
    u.primary == Some(manager) || manager in u.extras
  }

  predicate IsActiveReport(users: Users, manager: UserId, id: UserId) {
    id in users && users[id].isActive && ReportsTo(users[id], manager)
  }

  function ActiveReports(users: Users, manager: UserId): set<UserId> {
    set id | id in users && IsActiveReport(users, manager, id)
  }

  function Move(u: User, from: UserId, to: UserId): User {
    var primary := if u.primary == Some(from) then Some(to) else u.primary;
    var extras := Distinct(SwapAll(from, to, u.extras));
    u.(primary := primary, extras := if primary.Some? then Without(extras, primary.value) else extras)
  }

  datatype Answer =
    | Moved(people: set<UserId>)
    | SameManager
    | ReplacementNotFound
    | ReplacementIsEmployee
    | ReplacementReportsToThem
    | ReplacementRequired

  function ReassignAnswer(users: Users, from: UserId, to: UserId): Answer {
    if to == from then SameManager
    else if to !in users || !users[to].isActive then ReplacementNotFound
    else if users[to].role == EMPLOYEE then ReplacementIsEmployee
    else if to in ActiveReports(users, from) then ReplacementReportsToThem
    else Moved(ActiveReports(users, from))
  }

  /** The users once the people in `moved` have the new manager. */
  function AfterMoving(users: Users, from: UserId, to: UserId, moved: set<UserId>): Users {
    map id | id in users :: if id in moved then Move(users[id], from, to) else users[id]
  }

  function AfterReassign(users: Users, from: UserId, to: UserId): Users {
    match ReassignAnswer(users, from, to)
    case Moved(people) => AfterMoving(users, from, to, people)
    case _ => users
  }

  class UserTable {
    var users: Users

    constructor (users: Users)
      ensures this.users == users
    {
      this.users := users;
    }

    /** reassignReports: the reports are rewritten one by one, in whatever order the workers take them. */
    method ReassignReports(from: UserId, to: UserId) returns (answer: Answer)
      modifies this
      ensures answer == ReassignAnswer(old(users), from, to)
      ensures users == AfterReassign(old(users), from, to)
    {
      if to == from {
        return SameManager;
      }
      if to !in users || !users[to].isActive {
        return ReplacementNotFound;
      }
      if users[to].role == EMPLOYEE {
        return ReplacementIsEmployee;
      }
      var reports := ActiveReports(users, from);
      if to in reports {
        return ReplacementReportsToThem;
      }
      ghost var before := users;
      var left := reports;
      while left != {}
        invariant left <= reports
        invariant users == AfterMoving(before, from, to, reports - left)
        decreases left
      {
        var id :| id in left;
        users := users[id := Move(users[id], from, to)];
        left := left - {id};
      }
      assert reports - left == reports;
      return Moved(reports);
    }

    /** What has to happen before an employee is deactivated: nobody active may be left reporting to them. */
    method ReassignBeforeDeactivation(id: UserId, replacement: Option<UserId>) returns (answer: Answer)
      modifies this
      ensures answer.Moved? ==> ActiveReports(users, id) == {}
      ensures answer == if ActiveReports(old(users), id) == {} then Moved({})
                        else if replacement.None? then ReplacementRequired
                        else ReassignAnswer(old(users), id, replacement.value)
      ensures users == if ActiveReports(old(users), id) == {} || replacement.None? then old(users)
                       else AfterReassign(old(users), id, replacement.value)
    {
      if ActiveReports(users, id) == {} {
        return Moved({});
      }
      if replacement.None? {
        return ReplacementRequired;
      }
      if ReassignAnswer(users, id, replacement.value).Moved? {
        NobodyLeftBehind(users, id, replacement.value);
      }
      answer := ReassignReports(id, replacement.value);
    }
  }

  // ---- What a move does to one person ----

  lemma ConsNoRepeats(head: UserId, tail: seq<UserId>)
    requires NoRepeats(tail) && head !in tail
    ensures NoRepeats([head] + tail)
  {
  }

  lemma {:induction false} WithoutNoRepeats(s: seq<UserId>, x: UserId)
    requires NoRepeats(s)
    ensures NoRepeats(Without(s, x))
  {
    if s != [] {
      WithoutNoRepeats(s[1..], x);
      if s[0] != x {
        ConsNoRepeats(s[0], Without(s[1..], x));
      }
    }
  }

  lemma {:induction false} DistinctNoRepeats(s: seq<UserId>)
    ensures NoRepeats(Distinct(s))
  {
    if s != [] {
      DistinctNoRepeats(s[1..]);
      WithoutNoRepeats(Distinct(s[1..]), s[0]);
      ConsNoRepeats(s[0], Without(Distinct(s[1..]), s[0]));
    }
  }

  /** The people someone reports to after the move: the same set, the new manager standing in for the old. */
  lemma MoveSwapsTheManager(u: User, from: UserId, to: UserId, m: UserId)
    requires ReportsTo(u, from) && from != to
    ensures ReportsTo(Move(u, from, to), m) <==> m == to || (m != from && ReportsTo(u, m))
  {
  }

  /** A moved person's list is tidy whatever it was before: no repeats, and the primary is not among the extras. */
  lemma MovedListIsTidy(u: User, from: UserId, to: UserId)
    ensures var v := Move(u, from, to);
            NoRepeats(v.extras) && (v.primary.Some? ==> v.primary.value !in v.extras)
  {
    DistinctNoRepeats(SwapAll(from, to, u.extras));
    if Move(u, from, to).primary.Some? {
      WithoutNoRepeats(Distinct(SwapAll(from, to, u.extras)), Move(u, from, to).primary.value);
    }
  }

  // ---- The move keeps everyone's place in the list ----

  lemma {:induction false} WithoutAbsent(s: seq<UserId>, x: UserId)
    requires x !in s
    ensures Without(s, x) == s
  {
    if s != [] {
      WithoutAbsent(s[1..], x);
    }
  }

  lemma {:induction false} DistinctOfNoRepeats(s: seq<UserId>)
    requires NoRepeats(s)
    ensures Distinct(s) == s
  {
    if s != [] {
      DistinctOfNoRepeats(s[1..]);
      WithoutAbsent(s[1..], s[0]);
    }
  }

  lemma WithoutCons(head: UserId, tail: seq<UserId>, x: UserId)
    ensures Without([head] + tail, x) == if head == x then Without(tail, x) else [head] + Without(tail, x)
  {
  }

  lemma {:induction false} WithoutCommutes(s: seq<UserId>, x: UserId, y: UserId)
    ensures Without(Without(s, x), y) == Without(Without(s, y), x)
  {
    if s != [] {
      WithoutCommutes(s[1..], x, y);
      WithoutCons(s[0], Without(s[1..], x), y);
      WithoutCons(s[0], Without(s[1..], y), x);
    }
  }

  lemma SwapAllCons(from: UserId, to: UserId, head: UserId, tail: seq<UserId>)
    ensures var all := Distinct(SwapAll(from, to, tail));
            Distinct(SwapAll(from, to, [head] + tail)) == [Swap(from, to, head)] + Without(all, Swap(from, to, head))
  {
  }

  /** Dropping `x` before or after swapping makes no difference once its swapped value is dropped as well. */
  lemma {:induction false} SwapAfterWithout(from: UserId, to: UserId, s: seq<UserId>, x: UserId)
    ensures var y := Swap(from, to, x);
            Without(Distinct(SwapAll(from, to, Without(s, x))), y) == Without(Distinct(SwapAll(from, to, s)), y)
  {
    if s != [] {
      var y, head := Swap(from, to, x), Swap(from, to, s[0]);
      SwapAfterWithout(from, to, s[1..], x);
      var kept := Distinct(SwapAll(from, to, Without(s[1..], x)));
      var all := Distinct(SwapAll(from, to, s[1..]));
      assert s == [s[0]] + s[1..];
      SwapAllCons(from, to, s[0], s[1..]);
      WithoutCons(head, Without(all, head), y);
      if s[0] == x {
        WithoutAbsent(Without(all, y), y);
      } else {
        SwapAllCons(from, to, s[0], Without(s[1..], x));
        WithoutCons(head, Without(kept, head), y);
        WithoutCommutes(all, head, y);
        WithoutCommutes(kept, head, y);
      }
    }
  }

  lemma {:induction false} SwapAfterDistinct(from: UserId, to: UserId, s: seq<UserId>)
    ensures Distinct(SwapAll(from, to, Distinct(s))) == Distinct(SwapAll(from, to, s))
  {
    if s != [] {
      SwapAfterDistinct(from, to, s[1..]);
      SwapAfterWithout(from, to, Distinct(s[1..]), s[0]);
      assert SwapAll(from, to, s)[1..] == SwapAll(from, to, s[1..]);
      var d := Distinct(s);
      assert d[1..] == Without(Distinct(s[1..]), s[0]);
      assert SwapAll(from, to, d)[1..] == SwapAll(from, to, d[1..]);
    }
  }

  /**
   * The manager list a moved person shows is the old list with the replacement written over the old manager and
   * repeats dropped: nobody else changes place, and the first entry stays the primary.
   */
  lemma MoveKeepsTheOrder(u: User, from: UserId, to: UserId)
    ensures ManagerIds(Move(u, from, to)) == Distinct(SwapAll(from, to, ManagerIds(u)))
  {
    var v := Move(u, from, to);
    var listed := (if u.primary.Some? then [u.primary.value] else []) + u.extras;
    SwapAfterDistinct(from, to, listed);
    MovedListIsTidy(u, from, to);
    if u.primary.Some? {
      var now := [v.primary.value] + v.extras;
      ConsNoRepeats(v.primary.value, v.extras);
      DistinctOfNoRepeats(now);
      assert SwapAll(from, to, listed)[1..] == SwapAll(from, to, u.extras) by {
        assert listed[1..] == u.extras;
      }
    } else {
      assert listed == u.extras && [] + v.extras == v.extras;
      DistinctOfNoRepeats(v.extras);
    }
  }

  // ---- What a reassignment does to the organisation ----

  /**
   * After an accepted reassignment nobody active reports to the old manager any more, everyone who did reports to the
   * replacement, and nobody else is touched.
   */
  lemma NobodyLeftBehind(users: Users, from: UserId, to: UserId)
    requires ReassignAnswer(users, from, to).Moved?
    ensures var after := AfterReassign(users, from, to);
            && after.Keys == users.Keys
            && ActiveReports(after, from) == {}
            && ActiveReports(after, to) == ActiveReports(users, to) + ActiveReports(users, from)
            && forall id | id in users && !IsActiveReport(users, from, id) :: after[id] == users[id]
  {
  }

  /**
   * Who can take over, and what changes: with an active replacement other than the old manager, above EMPLOYEE, who
   * does not report to the old manager, exactly the active people with the old manager as primary or additional are
   * rewritten; with any other replacement nobody is.
   */
  lemma ReassignsIff(users: Users, from: UserId, to: UserId, id: UserId)
    requires id in users
    ensures var fit := && to != from && to in users && users[to].isActive && users[to].role != EMPLOYEE
                       && users[to].primary != Some(from) && from !in users[to].extras;
            var reports := users[id].isActive && (users[id].primary == Some(from) || from in users[id].extras);
            var after := AfterReassign(users, from, to);
            && (ReassignAnswer(users, from, to).Moved? <==> fit)
            && id in after && after[id].role == users[id].role && after[id].isActive == users[id].isActive
            && (if fit && reports
                then
                  && after[id].primary == (if users[id].primary == Some(from) then Some(to) else users[id].primary)
                  && forall m :: m in after[id].extras
                            <==> Some(m) != after[id].primary && m != from
                                 && (m in users[id].extras || (m == to && from in users[id].extras))
                else after[id] == users[id])
  {
  }

  // ---- The reporting graph ----

  predicate Edge(users: Users, a: UserId, b: UserId) {
    a in users && ReportsTo(users[a], b)
  }

  /** A chain of people, each reporting to the next. */
  predicate Chain(users: Users, p: seq<UserId>) {
    && p != []
    && forall i :: 0 <= i < |p| - 1 ==> Edge(users, p[i], p[i + 1])
  }

  ghost predicate IsUnder(users: Users, a: UserId, b: UserId) {
    exists p :: Chain(users, p) && p[0] == a && p[|p| - 1] == b
  }

  /** Nobody is, through any chain, their own manager. */
  ghost predicate Acyclic(users: Users) {
    forall p :: Chain(users, p) && |p| > 1 ==> p[0] != p[|p| - 1]
  }

  lemma EdgeAfter(users: Users, from: UserId, to: UserId, a: UserId, b: UserId)
    requires ReassignAnswer(users, from, to).Moved?
    ensures Edge(AfterReassign(users, from, to), a, b)
            <==> if IsActiveReport(users, from, a) then b == to || (b != from && Edge(users, a, b))
                else Edge(users, a, b)
  {
  }

  /** A chain of the new graph is old as a whole, or old up to the first moved person on it. */
  lemma FirstMoved(users: Users, from: UserId, to: UserId, p: seq<UserId>) returns (k: nat)
    requires ReassignAnswer(users, from, to).Moved? && Chain(AfterReassign(users, from, to), p)
    ensures k < |p| && Chain(users, p[..k + 1])
    ensures Chain(users, p) || IsActiveReport(users, from, p[k])
  {
    k := 0;
    while k < |p| - 1 && !IsActiveReport(users, from, p[k])
      invariant k < |p| && Chain(users, p[..k + 1])
    {
      EdgeAfter(users, from, to, p[k], p[k + 1]);
      k := k + 1;
    }
    assert k == |p| - 1 ==> p[..k + 1] == p;
  }

  /** And it is old as a whole, or old from the last new link on. */
  lemma LastMoved(users: Users, from: UserId, to: UserId, p: seq<UserId>) returns (k: nat)
    requires ReassignAnswer(users, from, to).Moved? && Chain(AfterReassign(users, from, to), p)
    ensures k < |p| && Chain(users, p[k..])
    ensures Chain(users, p) || p[k] == to
  {
    k := |p| - 1;
    while k > 0 && p[k] != to
      invariant k < |p| && Chain(users, p[k..])
    {
      EdgeAfter(users, from, to, p[k - 1], p[k]);
      k := k - 1;
    }
    assert k == 0 ==> p[k..] == p;
  }

  lemma JoinChains(users: Users, p: seq<UserId>, q: seq<UserId>)
    requires Chain(users, p) && Chain(users, q) && p[|p| - 1] == q[0]
    ensures Chain(users, p + q[1..])
    ensures (p + q[1..])[0] == p[0] && (p + q[1..])[|p + q[1..]| - 1] == q[|q| - 1]
  {
  }

  /** A new loop means that the replacement already was, through some chain, under one of the people being moved. */
  lemma LoopNeedsReplacementBelow(users: Users, from: UserId, to: UserId, p: seq<UserId>)
    requires ReassignAnswer(users, from, to).Moved? && Acyclic(users)
    requires Chain(AfterReassign(users, from, to), p) && |p| > 1 && p[0] == p[|p| - 1]
    ensures exists u :: IsActiveReport(users, from, u) && IsUnder(users, to, u)
  {
    var k := LastMoved(users, from, to, p);
    var j := FirstMoved(users, from, to, p);
    JoinChains(users, p[k..], p[..j + 1]);
    assert IsUnder(users, to, p[j]);
  }

  /**
   * And that is enough for a loop: the chain up to the first person who moves is still there, and they now report
   * back.
   */
  lemma ReplacementBelowMakesALoop(users: Users, from: UserId, to: UserId, u: UserId, p: seq<UserId>)
    requires ReassignAnswer(users, from, to).Moved?
    requires IsActiveReport(users, from, u) && Chain(users, p) && p[0] == to && p[|p| - 1] == u
    ensures !Acyclic(AfterReassign(users, from, to))
  {
    var after := AfterReassign(users, from, to);
    var k: nat := 0;
    while !IsActiveReport(users, from, p[k])
      invariant k < |p| && Chain(after, p[..k + 1])
      decreases |p| - k
    {
      EdgeAfter(users, from, to, p[k], p[k + 1]);
      k := k + 1;
    }
    EdgeAfter(users, from, to, p[k], to);
    assert Chain(after, [p[k], to]);
    JoinChains(after, p[..k + 1], [p[k], to]);
  }

  /**
   * Reassigning a team keeps a loop-free organisation loop-free exactly when the replacement is not under any of the
   * people being moved, through a chain of any length. The code refuses only the chain of length one to `from`.
   */
  lemma ReassignKeepsAcyclicIff(users: Users, from: UserId, to: UserId)
    requires ReassignAnswer(users, from, to).Moved? && Acyclic(users)
    ensures Acyclic(AfterReassign(users, from, to))
            <==> !exists u :: IsActiveReport(users, from, u) && IsUnder(users, to, u)
  {
    var after := AfterReassign(users, from, to);
    if u :| IsActiveReport(users, from, u) && IsUnder(users, to, u) {
      var p :| Chain(users, p) && p[0] == to && p[|p| - 1] == u;
      ReplacementBelowMakesALoop(users, from, to, u, p);
    } else if !Acyclic(after) {
      var p :| Chain(after, p) && |p| > 1 && p[0] == p[|p| - 1];
      LoopNeedsReplacementBelow(users, from, to, p);
    }
  }

  /** The replacement reports to a report: accepted by the code, although the two end up reporting to each other. */
  lemma ChecksOfDirectReportsAreNotEnough()
    ensures var users := map[
                0 := User(MANAGER, true, None, []),
                1 := User(MANAGER, true, Some(0), []),
                2 := User(MANAGER, true, Some(1), [])];
            && Acyclic(users)
            && ReassignAnswer(users, 0, 2) == Moved({1})
            && Edge(AfterReassign(users, 0, 2), 1, 2) && Edge(AfterReassign(users, 0, 2), 2, 1)
  {
    var users := map[
      0 := User(MANAGER, true, None, []),
      1 := User(MANAGER, true, Some(0), []),
      2 := User(MANAGER, true, Some(1), [])];
    forall p | Chain(users, p) && |p| > 1
      ensures p[0] != p[|p| - 1]
    {
      ChainGoesDown(users, p);
    }
    assert ActiveReports(users, 0) == {1};
    EdgeAfter(users, 0, 2, 1, 2);
    EdgeAfter(users, 0, 2, 2, 1);
  }

  lemma {:induction false} ChainGoesDown(users: Users, p: seq<UserId>)
    requires Chain(users, p) && forall a, b | Edge(users, a, b) :: b < a
    ensures p[|p| - 1] <= p[0] && (|p| > 1 ==> p[|p| - 1] < p[0])
  {
    if |p| > 1 {
      assert Edge(users, p[0], p[1]);
      forall i | 0 <= i < |p[1..]| - 1
        ensures Edge(users, p[1..][i], p[1..][i + 1])
      {
        assert Edge(users, p[i + 1], p[i + 2]);
      }
      ChainGoesDown(users, p[1..]);
    }
  }
}
