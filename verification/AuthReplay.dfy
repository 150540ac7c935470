// src/auth/auth.service.ts:545-557, 623-659: what reuse detection achieves while other requests go on. The walk from a
// replayed token is two database operations per hop, and anything may come between them.
module AuthReplay {
  import opened Prelude
  import opened AuthTokens
  import opened AuthStore

  ghost predicate Walks(f: Flight) {
    f.Walking? || f.WalkRevoking?
  }

  /** The walk that request `r` starts at step `i` when it finds its token replayed, and ends at step `j`. */
  ghost predicate ReplayWalk(states: seq<State>, steps: seq<Step>, i: nat, j: nat, r: RequestId) {
    && Run(states, steps) && i < j < |steps|
    && steps[i].RefreshCheck? && steps[i].r == r
    && (forall k :: i < k <= j ==> r in states[k].flights && Walks(states[k].flights[r]))
    && steps[j] == WalkRead(r) && r !in states[j + 1].flights
  }

  ghost function ReplayedSession(states: seq<State>, i: nat, r: RequestId): SessionId
    requires i < |states| && r in states[i].flights && states[i].flights[r].Presented?
  {
    states[i].flights[r].row.session
  }

  ghost predicate Known(s: State, session: SessionId) {
    session in s.sessions
  }

  ghost predicate ByRequest(step: Step, r: RequestId) {
    !step.RevokeUser? && step.r == r
  }

  // ---- What ends a session's last way to stay signed in ----

  /** The step takes `x` away: it revokes the live token, or drops the request about to create one. */
  ghost predicate Takes(s: State, step: Step, x: Holder)
    requires Enabled(s, step)
  {
    match step
    case SignInRevoke(q, _) => x.LiveToken?
        && x.hash in TokensOfSessions(s.tokens, s.flights[q].user, s.flights[q].live)
    case WalkRevoke(q, _) => x == LiveToken(s.flights[q].child)
    case LogoutRevoke(q, _) => x == LiveToken(s.flights[q].hash)
    case RevokeUser(user, _) => x.LiveToken? && x.hash in TokensOfUser(s.tokens, user)
    case Die(q) => x == PendingToken(q)
    case _ => false
  }

  ghost predicate Ends(s: State, step: Step, session: SessionId)
    requires Enabled(s, step)
  {
    exists x: Holder :: Holds(s, x, session) && Takes(s, step, x)
  }

  lemma OneHolder(s: State, session: SessionId, x: Holder, y: Holder)
    requires Inv(s) && Holds(s, x, session) && Holds(s, y, session)
    ensures x == y
  {
    if x.LiveToken? {
      LiveIsLast(s, x.hash);
    }
  }

  // A session without a holder gets none, for only a holder leads to another.
  lemma DeadStaysDead(s: State, step: Step, session: SessionId, y: Holder)
    requires Inv(s) && Enabled(s, step) && Known(s, session) && NoHolder(s, session)
    ensures Known(Next(s, step), session) && !Holds(Next(s, step), y, session)
  {
    var t := Next(s, step);
    if !Creates(step) {
      OthersHarmless(s, step);
      assert Holds(t, y, session) ==> Holds(s, y, session);
    } else if step.RefreshSwap? && Wins(s, step) {
      var h := s.flights[step.r].hash;
      assert !Holds(s, LiveToken(h), session);
      assert s.tokens[h].session == s.flights[step.r].row.session;
      assert Holds(t, y, session) ==> Holds(s, y, session);
    } else if step.Issue? {
      assert !Holds(s, PendingToken(step.r), session);
      assert Holds(t, y, session) ==> Holds(s, y, session);
    } else {
      assert Holds(t, y, session) ==> Holds(s, y, session);
    }
  }

  lemma {:induction false} DeadForGood(states: seq<State>, steps: seq<Step>, session: SessionId, i: nat, j: nat)
    requires Run(states, steps) && i <= j < |states| && Known(states[i], session) && NoHolder(states[i], session)
    ensures Known(states[j], session) && NoHolder(states[j], session)
  {
    if i < j {
      DeadForGood(states, steps, session, i, j - 1);
      Reachable(states, steps, j - 1);
      forall y: Holder
        ensures !Holds(states[j], y, session)
      {
        DeadStaysDead(states[j - 1], steps[j - 1], session, y);
      }
      DeadStaysDead(states[j - 1], steps[j - 1], session, LiveToken(0));
    }
  }

  lemma LiveTokenGoesOn(s: State, step: Step, h: Hash)
    requires Inv(s) && Enabled(s, step) && h in s.tokens && Live(s.tokens[h]) && !Takes(s, step, LiveToken(h))
    requires !(Wins(s, step) && s.flights[step.r].hash == h)
    ensures h in Next(s, step).tokens && Next(s, step).tokens[h] == s.tokens[h]
  {
    if step.Issue? {
      assert IssueReady(s, s.flights[step.r]);
    }
  }

  lemma PendingTokenGoesOn(s: State, step: Step, r: RequestId)
    requires Enabled(s, step) && r in s.flights && s.flights[r].Issuing? && !step.Die? && step != Issue(r)
    ensures r in Next(s, step).flights && Next(s, step).flights[r] == s.flights[r]
  {
  }

  // What a holder becomes when the step does not take it away.
  lemma HolderGoesOn(s: State, step: Step, session: SessionId, x: Holder)
    requires Inv(s) && Enabled(s, step) && Holds(s, x, session) && !Takes(s, step, x)
    ensures !NoHolder(Next(s, step), session)
  {
    var t := Next(s, step);
    if x.LiveToken? {
      if Wins(s, step) && s.flights[step.r].hash == x.hash {
        assert s.tokens[x.hash].session == s.flights[step.r].row.session;
        assert Holds(t, PendingToken(step.r), session);
      } else {
        LiveTokenGoesOn(s, step, x.hash);
        assert Holds(t, x, session);
      }
    } else if step == Issue(x.request) {
      assert Holds(t, LiveToken(s.flights[x.request].hash), session);
    } else {
      if !step.Die? {
        PendingTokenGoesOn(s, step, x.request);
      }
      assert Holds(t, x, session);
    }
  }

  lemma TakenIsGone(s: State, step: Step, session: SessionId, x: Holder, y: Holder)
    requires Inv(s) && Enabled(s, step) && Known(s, session) && Holds(s, x, session) && Takes(s, step, x)
    ensures !Holds(Next(s, step), y, session)
  {
    OthersHarmless(s, step);
    if Holds(Next(s, step), y, session) {
      assert Holds(s, y, session);
      OneHolder(s, session, x, y);
      assert false;
    }
  }

  /** A session that still has a holder loses it in exactly the steps that take it away. */
  lemma EndsIff(s: State, step: Step, session: SessionId)
    requires Inv(s) && Enabled(s, step) && Known(s, session) && !NoHolder(s, session)
    ensures NoHolder(Next(s, step), session) <==> Ends(s, step, session)
  {
    var x: Holder :| Holds(s, x, session);
    if Takes(s, step, x) {
      forall y: Holder
        ensures !Holds(Next(s, step), y, session)
      {
        TakenIsGone(s, step, session, x, y);
      }
    } else {
      HolderGoesOn(s, step, session, x);
      forall y: Holder | Holds(s, y, session)
        ensures !Takes(s, step, y)
      {
        OneHolder(s, session, x, y);
      }
    }
  }

  // ---- Where the walk is, whatever comes between its steps ----

  /** A request that presented a token remembers a row the token has only aged from. */
  ghost predicate FreshRow(s: State, r: RequestId) {
    r in s.flights && s.flights[r].Presented? ==>
      s.flights[r].hash in s.tokens && TokenOnlyAges(s.flights[r].row, s.tokens[s.flights[r].hash])
  }

  lemma PresentedSince(s: State, step: Step, r: RequestId)
    requires Enabled(s, step) && r in Next(s, step).flights && Next(s, step).flights[r].Presented?
    ensures if step.RefreshRead? && step.r == r
            then step.hash in s.tokens && Next(s, step) == Goto(s, r, Presented(step.hash, s.tokens[step.hash]))
            else r in s.flights && Next(s, step).flights[r] == s.flights[r]
  {
  }

  lemma FreshRowStep(s: State, step: Step, r: RequestId)
    requires Inv(s) && Enabled(s, step) && FreshRow(s, r)
    ensures FreshRow(Next(s, step), r)
  {
    if r in Next(s, step).flights && Next(s, step).flights[r].Presented? {
      PresentedSince(s, step, r);
      StepAges(s, step, Next(s, step).flights[r].hash);
    }
  }

  lemma {:induction false} RowsAreFresh(states: seq<State>, steps: seq<Step>, i: nat, r: RequestId)
    requires Run(states, steps) && i < |states|
    ensures FreshRow(states[i], r)
  {
    if i > 0 {
      RowsAreFresh(states, steps, i - 1, r);
      Reachable(states, steps, i - 1);
      FreshRowStep(states[i - 1], steps[i - 1], r);
    }
  }

  /** Some token of the session was replaced by `next`. */
  ghost predicate LinkedFrom(s: State, session: SessionId, next: Hash) {
    exists g :: g in s.tokens && s.tokens[g].session == session && s.tokens[g].replacedBy == Some(next)
  }

  /** The walk stays on the session's chain. */
  ghost predicate OnChain(s: State, r: RequestId, session: SessionId) {
    r in s.flights ==>
      match s.flights[r]
      case Walking(next, _, _) => next.Some? ==> LinkedFrom(s, session, next.value)
      case WalkRevoking(child, after, _, _) =>
        && child in s.tokens && s.tokens[child].session == session
        && (after.Some? ==> s.tokens[child].replacedBy == after)
      case _ => true
  }

  lemma LinkStays(s: State, step: Step, session: SessionId, next: Hash)
    requires Inv(s) && Enabled(s, step) && LinkedFrom(s, session, next)
    ensures LinkedFrom(Next(s, step), session, next)
  {
    var g :| g in s.tokens && s.tokens[g].session == session && s.tokens[g].replacedBy == Some(next);
    StepAges(s, step, g);
  }

  lemma OtherRequestStands(s: State, step: Step, r: RequestId)
    requires Enabled(s, step) && r in s.flights && !ByRequest(step, r)
    ensures r in Next(s, step).flights && Next(s, step).flights[r] == s.flights[r]
  {
  }

  lemma OnChainStep(s: State, step: Step, r: RequestId, session: SessionId)
    requires Inv(s) && Enabled(s, step) && r in s.flights && Walks(s.flights[r]) && OnChain(s, r, session)
    ensures OnChain(Next(s, step), r, session)
  {
    var f := s.flights[r];
    if f.Walking? && f.next.Some? {
      LinkStays(s, step, session, f.next.value);
    } else if f.WalkRevoking? {
      StepAges(s, step, f.child);
    }
    if ByRequest(step, r) {
      OwnStepOnChain(s, step, r, session);
    } else {
      OtherRequestStands(s, step, r);
    }
  }

  lemma OwnStepOnChain(s: State, step: Step, r: RequestId, session: SessionId)
    requires Inv(s) && Enabled(s, step) && r in s.flights && Walks(s.flights[r]) && OnChain(s, r, session)
    requires ByRequest(step, r)
    ensures OnChain(Next(s, step), r, session)
  {
    if step.WalkRead? {
      assert s.flights[r].next.Some? ==> LinkedFrom(s, session, s.flights[r].next.value);
    } else if step.WalkRevoke? && s.flights[r].after.Some? {
      assert Next(s, step).tokens[s.flights[r].child].replacedBy == s.flights[r].after;
    }
  }

  lemma WalkBegins(states: seq<State>, steps: seq<Step>, i: nat, j: nat, r: RequestId)
    requires ReplayWalk(states, steps, i, j, r)
    ensures r in states[i].flights && states[i].flights[r].Presented?
    ensures var f, s := states[i].flights[r], states[i];
            && f.hash in s.tokens && s.tokens[f.hash].session == f.row.session && Known(s, f.row.session)
            && !Live(s.tokens[f.hash]) && s.tokens[f.hash].replacedBy == f.row.replacedBy
            && states[i + 1] == Goto(s, r, Walking(f.row.replacedBy, {}, 0))
  {
    Reachable(states, steps, i);
    RowsAreFresh(states, steps, i, r);
    assert Walks(states[i + 1].flights[r]);
  }

  lemma {:induction false} WalkIsOnChain(states: seq<State>, steps: seq<Step>, i: nat, j: nat, r: RequestId, k: nat)
    requires ReplayWalk(states, steps, i, j, r) && i < k <= j
    ensures r in states[i].flights && states[i].flights[r].Presented?
    ensures OnChain(states[k], r, ReplayedSession(states, i, r))
  {
    WalkBegins(states, steps, i, j, r);
    var session := ReplayedSession(states, i, r);
    if k == i + 1 {
      var f := states[i].flights[r];
      assert f.row.replacedBy.Some? ==> LinkedFrom(states[k], session, f.row.replacedBy.value) by {
        assert f.hash in states[k].tokens && states[k].tokens[f.hash] == states[i].tokens[f.hash];
      }
    } else {
      WalkIsOnChain(states, steps, i, j, r, k - 1);
      Reachable(states, steps, k - 1);
      OnChainStep(states[k - 1], steps[k - 1], r, session);
    }
  }

  lemma OwnStepTouches(s: State, step: Step, r: RequestId, session: SessionId, h: Hash)
    requires Enabled(s, step) && ByRequest(step, r) && r in s.flights && Walks(s.flights[r]) && OnChain(s, r, session)
    requires h in s.tokens && s.tokens[h].session != session
    ensures h in Next(s, step).tokens && Next(s, step).tokens[h] == s.tokens[h]
  {
  }

  /** Whatever else goes on, the walk's own steps change no token of another session. */
  lemma WalkTouchesOnlyItsSession(states: seq<State>, steps: seq<Step>, i: nat, j: nat, r: RequestId, k: nat, h: Hash)
    requires ReplayWalk(states, steps, i, j, r) && i < k <= j && ByRequest(steps[k], r)
    ensures r in states[i].flights && states[i].flights[r].Presented?
    ensures h in states[k].tokens && states[k].tokens[h].session != ReplayedSession(states, i, r) ==>
              h in states[k + 1].tokens && states[k + 1].tokens[h] == states[k].tokens[h]
  {
    WalkIsOnChain(states, steps, i, j, r, k);
    if h in states[k].tokens && states[k].tokens[h].session != ReplayedSession(states, i, r) {
      OwnStepTouches(states[k], steps[k], r, ReplayedSession(states, i, r), h);
    }
  }

  // ---- When the walk ends the session ----

  /** One of the walk's revocations hits a row that no swap has linked yet. */
  ghost predicate RevokesUnlinked(states: seq<State>, steps: seq<Step>, i: nat, j: nat, r: RequestId)
    requires ReplayWalk(states, steps, i, j, r)
  {
    exists k :: i < k < j && HitsUnlinked(states[k], steps[k], r)
  }

  ghost predicate HitsUnlinked(s: State, step: Step, r: RequestId) {
    && step.WalkRevoke? && step.r == r && r in s.flights && s.flights[r].WalkRevoking?
    && s.flights[r].child in s.tokens && s.tokens[s.flights[r].child].replacedBy.None?
  }

  /** Meanwhile somebody else takes the session's last way to stay signed in. */
  ghost predicate EndedByOthers(states: seq<State>, steps: seq<Step>, i: nat, j: nat, r: RequestId, session: SessionId)
    requires ReplayWalk(states, steps, i, j, r)
  {
    exists k :: i <= k <= j && !ByRequest(steps[k], r) && EndsAt(states, steps, k, session)
  }

  ghost predicate EndsAt(states: seq<State>, steps: seq<Step>, k: nat, session: SessionId)
    requires Run(states, steps) && k < |steps|
  {
    Ends(states[k], steps[k], session)
  }

  // An unlinked row is its session's newest, so revoking it leaves nothing.
  lemma UnlinkedIsTheEnd(s: State, step: Step, r: RequestId, session: SessionId, y: Holder)
    requires Inv(s) && Enabled(s, step) && HitsUnlinked(s, step, r) && OnChain(s, r, session)
    ensures !Holds(Next(s, step), y, session)
  {
    var child := s.flights[r].child;
    if y.LiveToken? {
      assert y.hash in s.tokens && s.tokens[y.hash].session == session && y.hash < child ==>
               s.tokens[y.hash].replacedBy.Some?;
    }
  }

  lemma OwnStepEndsOnlyUnlinked(s: State, step: Step, r: RequestId, session: SessionId)
    requires Inv(s) && Enabled(s, step) && ByRequest(step, r) && r in s.flights && Walks(s.flights[r]) && !step.Die?
    requires OnChain(s, r, session) && Ends(s, step, session)
    ensures HitsUnlinked(s, step, r)
  {
  }

  lemma NobodyEndsAt(states: seq<State>, steps: seq<Step>, i: nat, j: nat, r: RequestId, k: nat)
    requires ReplayWalk(states, steps, i, j, r) && i <= k <= j
    requires !RevokesUnlinked(states, steps, i, j, r)
    ensures r in states[i].flights && states[i].flights[r].Presented?
    ensures var session := ReplayedSession(states, i, r);
            !EndedByOthers(states, steps, i, j, r, session) ==> !EndsAt(states, steps, k, session)
  {
    WalkBegins(states, steps, i, j, r);
    var session := ReplayedSession(states, i, r);
    if i < k && ByRequest(steps[k], r) && EndsAt(states, steps, k, session) {
      WalkIsOnChain(states, steps, i, j, r, k);
      Reachable(states, steps, k);
      assert k < j ==> r in states[k + 1].flights;
      OwnStepEndsOnlyUnlinked(states[k], steps[k], r, session);
    }
  }

  lemma {:induction false} HolderThroughWalk(states: seq<State>, steps: seq<Step>, i: nat, session: SessionId, k: nat)
    requires Run(states, steps) && i <= k < |states| && Known(states[i], session) && !NoHolder(states[i], session)
    requires forall m :: i <= m < k ==> !EndsAt(states, steps, m, session)
    ensures Known(states[k], session) && !NoHolder(states[k], session)
  {
    if k > i {
      HolderThroughWalk(states, steps, i, session, k - 1);
      Reachable(states, steps, k - 1);
      assert !EndsAt(states, steps, k - 1, session);
      EndsIff(states[k - 1], steps[k - 1], session);
    }
  }

  /**
   * Exactly when a replay ends its session, over every interleaving: a token live or about to be created is left at the
   * end of the walk unless there was none to begin with, or the walk revoked a row before any swap had linked it, or
   * somebody else took the holder meanwhile. A swap that crosses the walk, winning after its row was read and before it
   * was revoked, makes the second case fail.
   */
  lemma ReplayEndsTheSessionIff(states: seq<State>, steps: seq<Step>, i: nat, j: nat, r: RequestId)
    requires ReplayWalk(states, steps, i, j, r)
    ensures r in states[i].flights && states[i].flights[r].Presented?
    ensures var session := ReplayedSession(states, i, r);
            NoHolder(states[j + 1], session)
            <==> || NoHolder(states[i], session)
                 || RevokesUnlinked(states, steps, i, j, r)
                 || EndedByOthers(states, steps, i, j, r, session)
  {
    WalkBegins(states, steps, i, j, r);
    var session := ReplayedSession(states, i, r);
    if NoHolder(states[i], session) {
      DeadForGood(states, steps, session, i, j + 1);
    } else if k :| i < k < j && HitsUnlinked(states[k], steps[k], r) {
      KnownLater(states, steps, session, i, k);
      UnlinkedEnds(states, steps, i, j, r, k);
      DeadForGood(states, steps, session, k + 1, j + 1);
    } else if k :| i <= k <= j && !ByRequest(steps[k], r) && EndsAt(states, steps, k, session) {
      KnownLater(states, steps, session, i, k);
      Reachable(states, steps, k);
      EndsIff(states[k], steps[k], session);
      KnownLater(states, steps, session, i, k + 1);
      DeadForGood(states, steps, session, k + 1, j + 1);
    } else {
      forall m | i <= m <= j
        ensures !EndsAt(states, steps, m, session)
      {
        NobodyEndsAt(states, steps, i, j, r, m);
      }
      HolderThroughWalk(states, steps, i, session, j + 1);
    }
  }

  lemma {:induction false} KnownLater(states: seq<State>, steps: seq<Step>, session: SessionId, i: nat, k: nat)
    requires Run(states, steps) && i <= k < |states| && Known(states[i], session)
    ensures Known(states[k], session)
  {
    if i < k {
      KnownLater(states, steps, session, i, k - 1);
    }
  }

  lemma UnlinkedEnds(states: seq<State>, steps: seq<Step>, i: nat, j: nat, r: RequestId, k: nat)
    requires ReplayWalk(states, steps, i, j, r) && i < k < j && HitsUnlinked(states[k], steps[k], r)
    ensures r in states[i].flights && states[i].flights[r].Presented?
    ensures var session := ReplayedSession(states, i, r);
            NoHolder(states[k + 1], session) && (Known(states[k], session) ==> Known(states[k + 1], session))
  {
    WalkIsOnChain(states, steps, i, j, r, k);
    Reachable(states, steps, k);
    var session, after := ReplayedSession(states, i, r), states[k + 1];
    forall y: Holder
      ensures !Holds(after, y, session)
    {
      UnlinkedIsTheEnd(states[k], steps[k], r, session, y);
    }
  }

  // ---- A walk that no refresh of its session crosses ----

  ghost predicate WinsIn(s: State, step: Step, session: SessionId) {
    Wins(s, step) && s.tokens[s.flights[step.r].hash].session == session
  }

  /** No refresh of the session is between its swap and its create, and the chain is within the walk's limit. */
  ghost predicate Calm(s: State, session: SessionId) {
    !RefreshInFlight(s, session) && |SessionTokens(s.tokens, session)| <= MAX_HOPS
  }

  /** The session's live tokens lie ahead of the walk, which has been at each token once. */
  ghost predicate Ahead(s: State, r: RequestId, session: SessionId) {
    r in s.flights ==>
      match s.flights[r]
      case Walking(next, seen, hops) =>
        && seen <= SessionTokens(s.tokens, session) && |seen| == hops
        && (next.Some? ==> forall x :: x in seen ==> x < next.value)
        && forall h :: h in s.tokens && Live(s.tokens[h]) && s.tokens[h].session == session ==>
              next.Some? && next.value <= h
      case WalkRevoking(child, after, seen, hops) =>
        && seen <= SessionTokens(s.tokens, session) && child in seen && |seen| == hops + 1
        && (forall x :: x in seen ==> x <= child)
        && (child in s.tokens ==> s.tokens[child].replacedBy == after)
        && forall h :: h in s.tokens && Live(s.tokens[h]) && s.tokens[h].session == session ==> child <= h
      case _ => true
  }

  /** The session's tokens stay the same ones with the same links; they can only be revoked. */
  ghost predicate OnlyRevoked(s: State, t: State, session: SessionId) {
    && SessionTokens(t.tokens, session) == SessionTokens(s.tokens, session)
    && forall h :: h in SessionTokens(s.tokens, session) ==>
         t.tokens[h].replacedBy == s.tokens[h].replacedBy && (Live(t.tokens[h]) ==> Live(s.tokens[h]))
  }

  lemma CalmIssue(s: State, r: RequestId, session: SessionId)
    requires Inv(s) && Enabled(s, Issue(r)) && Known(s, session) && Calm(s, session)
    ensures OnlyRevoked(s, Next(s, Issue(r)), session) && !RefreshInFlight(Next(s, Issue(r)), session)
  {
    assert s.flights[r].session != session;
    assert IssueReady(s, s.flights[r]);
  }

  lemma CalmSwap(s: State, r: RequestId, now: Time, session: SessionId)
    requires Inv(s) && Enabled(s, RefreshSwap(r, now)) && Known(s, session) && Calm(s, session)
    requires !WinsIn(s, RefreshSwap(r, now), session)
    ensures OnlyRevoked(s, Next(s, RefreshSwap(r, now)), session)
            && !RefreshInFlight(Next(s, RefreshSwap(r, now)), session)
  {
    assert s.tokens[s.flights[r].hash].session == s.flights[r].row.session;
  }

  /** Only revocations happen to the tokens of a calm session that no refresh of it wins. */
  lemma CalmStep(s: State, step: Step, session: SessionId)
    requires Inv(s) && Enabled(s, step) && Known(s, session) && Calm(s, session) && !WinsIn(s, step, session)
    ensures Calm(Next(s, step), session) && Known(Next(s, step), session) && OnlyRevoked(s, Next(s, step), session)
  {
    if step.Issue? {
      CalmIssue(s, step.r, session);
    } else if step.RefreshSwap? {
      CalmSwap(s, step.r, step.now, session);
    } else if step.SignInOpen? {
      assert OnlyRevoked(s, Next(s, step), session);
    } else {
      OthersHarmless(s, step);
      assert OnlyRevoked(s, Next(s, step), session);
    }
  }

  lemma AheadFrame(s: State, t: State, r: RequestId, session: SessionId)
    requires Ahead(s, r, session) && r in s.flights && r in t.flights && t.flights[r] == s.flights[r]
    requires s.flights[r].WalkRevoking? ==> s.flights[r].child in s.tokens
    requires OnlyRevoked(s, t, session)
    ensures Ahead(t, r, session)
  {
    forall h | h in t.tokens && Live(t.tokens[h]) && t.tokens[h].session == session
      ensures h in s.tokens && Live(s.tokens[h]) && s.tokens[h].session == session
    {
      assert h in SessionTokens(t.tokens, session);
    }
  }

  lemma ReadGoesAhead(s: State, r: RequestId, session: SessionId)
    requires Inv(s) && r in s.flights && s.flights[r].Walking? && OnChain(s, r, session) && Ahead(s, r, session)
    ensures Ahead(Next(s, WalkRead(r)), r, session)
  {
    var f := s.flights[r];
    if f.next.Some? && f.next.value in s.tokens {
      assert LinkedFrom(s, session, f.next.value);
      assert f.next.value in SessionTokens(s.tokens, session);
    }
  }

  lemma RevokeGoesAhead(s: State, r: RequestId, now: Time, session: SessionId)
    requires Inv(s) && r in s.flights && s.flights[r].WalkRevoking? && OnChain(s, r, session) && Ahead(s, r, session)
    ensures Ahead(Next(s, WalkRevoke(r, now)), r, session)
  {
    var f, t := s.flights[r], Next(s, WalkRevoke(r, now));
    assert SessionTokens(t.tokens, session) == SessionTokens(s.tokens, session);
    forall h | h in t.tokens && Live(t.tokens[h]) && t.tokens[h].session == session
      ensures f.after.Some? && f.after.value <= h
    {
      assert h != f.child && f.child < h;
    }
  }

  lemma AheadStep(s: State, step: Step, r: RequestId, session: SessionId)
    requires Inv(s) && Enabled(s, step) && Known(s, session) && Calm(s, session) && !WinsIn(s, step, session)
    requires r in s.flights && Walks(s.flights[r]) && OnChain(s, r, session) && Ahead(s, r, session)
    ensures Ahead(Next(s, step), r, session)
  {
    if !ByRequest(step, r) {
      CalmStep(s, step, session);
      OtherRequestStands(s, step, r);
      AheadFrame(s, Next(s, step), r, session);
    } else if step.WalkRead? {
      ReadGoesAhead(s, r, session);
    } else if step.WalkRevoke? {
      RevokeGoesAhead(s, r, step.now, session);
    }
  }

  lemma AheadAtStart(states: seq<State>, steps: seq<Step>, i: nat, j: nat, r: RequestId)
    requires ReplayWalk(states, steps, i, j, r)
    ensures r in states[i].flights && states[i].flights[r].Presented?
    ensures Ahead(states[i + 1], r, ReplayedSession(states, i, r))
  {
    WalkBegins(states, steps, i, j, r);
    Reachable(states, steps, i);
    var s, f := states[i], states[i].flights[r];
    forall h | h in s.tokens && Live(s.tokens[h]) && s.tokens[h].session == f.row.session
      ensures f.row.replacedBy.Some? && f.row.replacedBy.value <= h
    {
      LiveIsLast(s, h);
      assert f.hash < h;
    }
  }

  ghost predicate Uncrossed(states: seq<State>, steps: seq<Step>, i: nat, j: nat, session: SessionId)
    requires Run(states, steps) && j < |steps|
  {
    forall k :: i <= k <= j ==> !WinsAt(states, steps, k, session)
  }

  ghost predicate WinsAt(states: seq<State>, steps: seq<Step>, k: nat, session: SessionId)
    requires Run(states, steps) && k < |steps|
  {
    WinsIn(states[k], steps[k], session)
  }

  lemma CalmAheadStep(s: State, step: Step, r: RequestId, session: SessionId)
    requires Inv(s) && Enabled(s, step) && Known(s, session) && Calm(s, session) && !WinsIn(s, step, session)
    requires r in s.flights && Walks(s.flights[r]) && OnChain(s, r, session) && Ahead(s, r, session)
    ensures Known(Next(s, step), session) && Calm(Next(s, step), session) && Ahead(Next(s, step), r, session)
  {
    CalmStep(s, step, session);
    AheadStep(s, step, r, session);
  }

  ghost predicate CalmAhead(s: State, r: RequestId, session: SessionId) {
    Known(s, session) && Calm(s, session) && Ahead(s, r, session)
  }

  lemma CalmAtStart(states: seq<State>, steps: seq<Step>, i: nat, j: nat, r: RequestId)
    requires ReplayWalk(states, steps, i, j, r)
    ensures r in states[i].flights && states[i].flights[r].Presented?
    ensures var session := ReplayedSession(states, i, r);
            Calm(states[i], session) ==> CalmAhead(states[i + 1], r, session)
  {
    WalkBegins(states, steps, i, j, r);
    AheadAtStart(states, steps, i, j, r);
  }

  lemma {:induction false} CalmThroughWalk(states: seq<State>, steps: seq<Step>, i: nat, j: nat, r: RequestId,
                                           session: SessionId, k: nat)
    requires ReplayWalk(states, steps, i, j, r) && i < k <= j
    requires r in states[i].flights && states[i].flights[r].Presented? && session == ReplayedSession(states, i, r)
    requires Calm(states[i], session) && Uncrossed(states, steps, i, j, session)
    ensures CalmAhead(states[k], r, session)
  {
    if k == i + 1 {
      CalmAtStart(states, steps, i, j, r);
    } else {
      CalmThroughWalk(states, steps, i, j, r, session, k - 1);
      WalkIsOnChain(states, steps, i, j, r, k - 1);
      Reachable(states, steps, k - 1);
      assert !WinsAt(states, steps, k - 1, session);
      CalmAheadStep(states[k - 1], steps[k - 1], r, session);
    }
  }

  // The walk stops only where the chain does.
  lemma WalkGoesOnInside(s: State, r: RequestId, session: SessionId)
    requires r in s.flights && s.flights[r].Walking? && Ahead(s, r, session) && Calm(s, session)
    requires s.flights[r].next.Some? && s.flights[r].next.value in SessionTokens(s.tokens, session)
    ensures r in Next(s, WalkRead(r)).flights
  {
    var f := s.flights[r];
    SubsetSize(f.seen + {f.next.value}, SessionTokens(s.tokens, session));
  }

  lemma NothingBeyondTheEnd(s: State, r: RequestId, session: SessionId, h: Hash)
    requires Inv(s) && r in s.flights && s.flights[r].Walking? && OnChain(s, r, session) && CalmAhead(s, r, session)
    requires r !in Next(s, WalkRead(r)).flights
    ensures h in s.tokens && s.tokens[h].session == session ==> !Live(s.tokens[h])
  {
    var f := s.flights[r];
    if h in s.tokens && s.tokens[h].session == session && Live(s.tokens[h]) {
      var g :| g in s.tokens && s.tokens[g].session == session && s.tokens[g].replacedBy == f.next;
      NextInSession(s, g, h);
      WalkGoesOnInside(s, r, session);
    }
  }

  /**
   * A replay ends its session, whatever else goes on: if no refresh of the session is between its swap and its create
   * when the walk begins, none wins a swap before it ends, and the chain is within the walk's limit, then neither a
   * live token nor one about to be created is left.
   */
  lemma UncrossedReplayEndsTheSession(states: seq<State>, steps: seq<Step>, i: nat, j: nat, r: RequestId)
    requires ReplayWalk(states, steps, i, j, r)
    ensures r in states[i].flights && states[i].flights[r].Presented?
    ensures var session := ReplayedSession(states, i, r);
            Calm(states[i], session) && Uncrossed(states, steps, i, j, session) ==> NoHolder(states[j + 1], session)
  {
    WalkBegins(states, steps, i, j, r);
    var session := ReplayedSession(states, i, r);
    if Calm(states[i], session) && Uncrossed(states, steps, i, j, session) {
      CalmThroughWalk(states, steps, i, j, r, session, j);
      WalkIsOnChain(states, steps, i, j, r, j);
      Reachable(states, steps, j);
      var after := states[j + 1];
      forall y: Holder
        ensures !Holds(after, y, session)
      {
        if y.LiveToken? {
          NothingBeyondTheEnd(states[j], r, session, y.hash);
        }
      }
    }
  }

  lemma CrossingCreates(s: State, walker: RequestId, refresh: RequestId, now: Time)
    requires Inv(s) && walker in s.flights && refresh in s.flights
    requires s.flights[walker].WalkRevoking? && s.flights[refresh].Swapping?
    requires s.flights[refresh].hash == s.flights[walker].child && Live(s.tokens[s.flights[walker].child])
    ensures var created := Next(Next(s, RefreshSwap(refresh, now)), Issue(refresh));
            && walker in created.flights && created.flights[walker] == s.flights[walker]
            && s.flights[walker].child < s.nextHash
            && Holds(created, LiveToken(s.nextHash), s.tokens[s.flights[walker].child].session)
  {
  }

  /**
   * A refresh that wins its swap after the walk read its token and before the walk revokes it escapes: the walk ends
   * there, and the token created is live.
   */
  lemma SwapBeforeRevokeEscapes(s: State, walker: RequestId, refresh: RequestId, now: Time)
    requires Inv(s) && walker in s.flights && refresh in s.flights
    requires s.flights[walker].WalkRevoking? && s.flights[walker].after.None?
    requires s.flights[refresh].Swapping? && s.flights[refresh].hash == s.flights[walker].child
    requires Live(s.tokens[s.flights[walker].child])
    ensures var created := Next(Next(s, RefreshSwap(refresh, now)), Issue(refresh));
            walker in created.flights && created.flights[walker] == s.flights[walker]
    ensures var created := Next(Next(s, RefreshSwap(refresh, now)), Issue(refresh));
            var over := Next(Next(created, WalkRevoke(walker, now)), WalkRead(walker));
            && walker !in over.flights
            && Holds(over, LiveToken(s.nextHash), s.tokens[s.flights[walker].child].session)
  {
    CrossingCreates(s, walker, refresh, now);
    LastHop(Next(Next(s, RefreshSwap(refresh, now)), Issue(refresh)), walker, now, s.nextHash);
  }

  lemma LastHop(s: State, walker: RequestId, now: Time, h: Hash)
    requires walker in s.flights && s.flights[walker].WalkRevoking? && s.flights[walker].after.None?
    requires h in s.tokens && h != s.flights[walker].child
    ensures var over := Next(Next(s, WalkRevoke(walker, now)), WalkRead(walker));
            walker !in over.flights && h in over.tokens && over.tokens[h] == s.tokens[h]
  {
  }

  // ---- Such a run from the empty tables ----

  function Pair(first: Token, second: Token): map<Hash, Token> {
    map[0 := first, 1 := second]
  }

  function Signed(tokens: map<Hash, Token>, flights: map<RequestId, Flight>, nextHash: Hash): State {
    State(tokens, map[0 := Session(0, Web, None)], flights, nextHash, 1)
  }

  const FRESH := Token(0, 0, None, None)
  const ROTATED := Token(0, 0, Some(0), Some(1))
  const ROTATED_LATE := Token(0, 0, Some(10000), Some(2))

  const REPLAY := Presented(0, ROTATED)
  const SWAPPING := Swapping(1, FRESH)
  const REVOKING := WalkRevoking(1, None, {1}, 0)

  /** A token rotated, replayed ten seconds later, and its successor refreshed under the walk. */
  function CrossedStep(k: nat): Step {
    match k
    case 0 => SignInRead(0, 0, Web)
    case 1 => SignInOpen(0)
    case 2 => Issue(0)
    case 3 => RefreshRead(1, 0)
    case 4 => RefreshCheck(1, 0, true)
    case 5 => RefreshSwap(1, 0)
    case 6 => Issue(1)
    case 7 => RefreshRead(2, 1)
    case 8 => RefreshCheck(2, 0, true)
    case 9 => RefreshRead(3, 0)
    case 10 => RefreshCheck(3, 10000, true)
    case 11 => WalkRead(3)
    case 12 => RefreshSwap(2, 10000)
    case 13 => Issue(2)
    case 14 => WalkRevoke(3, 10000)
    case _ => WalkRead(3)
  }

  function CrossedState(k: nat): State {
    match k
    case 0 => State(map[], map[], map[], 0, 0)
    case 1 => State(map[], map[], map[0 := Opening(0, Web)], 0, 0)
    case 2 => Signed(map[], map[0 := Issuing(0, 0, 0, None)], 1)
    case 3 => Signed(map[0 := FRESH], map[], 1)
    case 4 => Signed(map[0 := FRESH], map[1 := Presented(0, FRESH)], 1)
    case 5 => Signed(map[0 := FRESH], map[1 := Swapping(0, FRESH)], 1)
    case 6 => Signed(map[0 := ROTATED], map[1 := Issuing(0, 0, 1, Some(0))], 2)
    case 7 => Signed(Pair(ROTATED, FRESH), map[], 2)
    case 8 => Signed(Pair(ROTATED, FRESH), map[2 := Presented(1, FRESH)], 2)
    case 9 => Signed(Pair(ROTATED, FRESH), map[2 := SWAPPING], 2)
    case 10 => Signed(Pair(ROTATED, FRESH), map[2 := SWAPPING, 3 := REPLAY], 2)
    case 11 => Signed(Pair(ROTATED, FRESH), map[2 := SWAPPING, 3 := Walking(Some(1), {}, 0)], 2)
    case 12 => Signed(Pair(ROTATED, FRESH), map[2 := SWAPPING, 3 := REVOKING], 2)
    case 13 => Signed(Pair(ROTATED, ROTATED_LATE), map[2 := Issuing(0, 0, 2, Some(1)), 3 := REVOKING], 3)
    case 14 => Signed(Pair(ROTATED, ROTATED_LATE)[2 := FRESH], map[3 := REVOKING], 3)
    case 15 => Signed(Pair(ROTATED, ROTATED_LATE)[2 := FRESH], map[3 := Walking(None, {1}, 1)], 3)
    case _ => Signed(Pair(ROTATED, ROTATED_LATE)[2 := FRESH], map[], 3)
  }

  ghost predicate StepsTo(s: State, step: Step, t: State) {
    Enabled(s, step) && t == Next(s, step)
  }

  lemma CrossedSignIn(k: nat)
    requires k < 3
    ensures StepsTo(CrossedState(k), CrossedStep(k), CrossedState(k + 1))
  {
    assert LiveSessions(map[], 0, Web) == {};
  }

  lemma CrossedRotation(k: nat)
    requires 3 <= k < 7
    ensures StepsTo(CrossedState(k), CrossedStep(k), CrossedState(k + 1))
  {
    if k < 5 {
    } else if k == 5 {
      assert Next(CrossedState(5), CrossedStep(5)).tokens == map[0 := ROTATED];
    } else {
      assert Next(CrossedState(6), CrossedStep(6)).tokens == Pair(ROTATED, FRESH);
    }
  }

  lemma CrossedRefresh(k: nat)
    requires 7 <= k < 10
    ensures StepsTo(CrossedState(k), CrossedStep(k), CrossedState(k + 1))
  {
  }

  lemma CrossedRead()
    ensures StepsTo(CrossedState(10), CrossedStep(10), CrossedState(11))
    ensures StepsTo(CrossedState(11), CrossedStep(11), CrossedState(12))
  {
    assert {} + {1} == {1};
  }

  lemma CrossedSwap()
    ensures StepsTo(CrossedState(12), CrossedStep(12), CrossedState(13))
    ensures StepsTo(CrossedState(13), CrossedStep(13), CrossedState(14))
  {
  }

  lemma CrossedRevoke()
    ensures StepsTo(CrossedState(14), CrossedStep(14), CrossedState(15))
  {
    var s := CrossedState(14);
    assert RevokeLive(s.tokens, {1}, 10000) == s.tokens;
  }

  lemma CrossedEnd()
    ensures StepsTo(CrossedState(15), CrossedStep(15), CrossedState(16))
  {
  }

  lemma CrossedSteps(k: nat)
    requires k < 16
    ensures StepsTo(CrossedState(k), CrossedStep(k), CrossedState(k + 1))
  {
    if k < 3 {
      CrossedSignIn(k);
    } else if k < 7 {
      CrossedRotation(k);
    } else if k < 10 {
      CrossedRefresh(k);
    } else if k < 12 {
      CrossedRead();
    } else if k < 14 {
      CrossedSwap();
    } else if k == 14 {
      CrossedRevoke();
    } else {
      CrossedEnd();
    }
  }

  ghost predicate IsCrossed(states: seq<State>, steps: seq<Step>) {
    && |states| == 17 && |steps| == 16
    && (forall k :: 0 <= k < 17 ==> states[k] == CrossedState(k))
    && forall k :: 0 <= k < 16 ==> steps[k] == CrossedStep(k)
  }

  lemma CrossedIsARun(states: seq<State>, steps: seq<Step>)
    requires IsCrossed(states, steps)
    ensures Run(states, steps)
  {
    forall k | 0 <= k < |steps|
      ensures Enabled(states[k], steps[k]) && states[k + 1] == Next(states[k], steps[k])
    {
      CrossedSteps(k);
    }
  }

  lemma CrossedWalk(states: seq<State>, steps: seq<Step>)
    requires IsCrossed(states, steps)
    ensures forall k :: 10 < k <= 15 ==> 3 in states[k].flights && Walks(states[k].flights[3])
    ensures steps[10] == RefreshCheck(3, 10000, true) && steps[15] == WalkRead(3) && 3 !in states[16].flights
    ensures 3 in states[10].flights && states[10].flights[3] == REPLAY && states[10].tokens == Pair(ROTATED, FRESH)
    ensures states[10].flights.Keys == {2, 3} && states[10].flights[2] == SWAPPING
  {
    forall k | 10 < k <= 15
      ensures 3 in CrossedState(k).flights && Walks(CrossedState(k).flights[3])
    {
    }
  }

  lemma CrossedIsCalm()
    ensures Calm(CrossedState(10), 0) && Holds(CrossedState(16), LiveToken(2), 0)
  {
    assert SessionTokens(CrossedState(10).tokens, 0) == {0, 1};
  }

  lemma CrossedWalks(states: seq<State>, steps: seq<Step>)
    requires IsCrossed(states, steps)
    ensures ReplayWalk(states, steps, 10, 15, 3)
  {
    CrossedIsARun(states, steps);
    CrossedWalk(states, steps);
  }

  /** A calm chain of two, a walk crossed by one swap: the walk is over and token 2 is live. */
  lemma CrossedReplayLeavesALiveToken() returns (states: seq<State>, steps: seq<Step>)
    ensures ReplayWalk(states, steps, 10, 15, 3)
    ensures Calm(states[10], 0) && ReplayedSession(states, 10, 3) == 0
    ensures Holds(states[16], LiveToken(2), 0)
  {
    states := seq(17, k requires 0 <= k < 17 => CrossedState(k));
    steps := seq(16, k requires 0 <= k < 16 => CrossedStep(k));
    CrossedWalks(states, steps);
    CrossedIsCalm();
    assert states[10] == CrossedState(10) && states[16] == CrossedState(16);
  }
}
