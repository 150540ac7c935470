// src/auth/auth.service.ts:523-697, 1118-1162: sign-in sessions and refresh-token rotation as a transition system.
// Every step is one database operation of one request, so any number of sign-ins, refreshes, reuse walks, logouts and
// bulk revocations interleave freely. Token hashes and session ids are fresh: each is the next unused number.
module AuthTokens {
  import opened Prelude

  type Hash = nat
  type SessionId = nat
  type UserId = nat
  type RequestId = nat
  type Time = int

  datatype ClientType = Web | Mobile

  datatype Token = Token(user: UserId, session: SessionId, revokedAt: Option<Time>, replacedBy: Option<Hash>)

  datatype Session = Session(user: UserId, client: ClientType, endedAt: Option<Time>)

  const REFRESH_REUSE_GRACE_MS := 5000
  const MAX_HOPS := 10000

  /** Where a request stands between two of its database operations. */
  datatype Flight =
    | Ending(user: UserId, client: ClientType, live: set<SessionId>)
    | Revoking(user: UserId, client: ClientType, live: set<SessionId>)
    | Opening(user: UserId, client: ClientType)
    | Issuing(user: UserId, session: SessionId, hash: Hash, from: Option<Hash>)
    | Presented(hash: Hash, row: Token)
    | Swapping(hash: Hash, row: Token)
    | Walking(next: Option<Hash>, seen: set<Hash>, hops: nat)
    | WalkRevoking(child: Hash, after: Option<Hash>, seen: set<Hash>, hops: nat)
    | LogoutRevoking(hash: Hash, row: Token)
    | LogoutEnding(session: SessionId)

  datatype State = State(
    tokens: map<Hash, Token>,
    sessions: map<SessionId, Session>,
    flights: map<RequestId, Flight>,
    nextHash: Hash,
    nextSession: SessionId)

  // ---- The table operations ----

  predicate Live(t: Token) {
    t.revokedAt.None?
  }

  /** updateMany on the tokens of `which`, restricted to unrevoked rows. */
  function RevokeLive(tokens: map<Hash, Token>, which: set<Hash>, now: Time): (after: map<Hash, Token>)
    ensures after.Keys == tokens.Keys
    ensures forall h :: h in tokens ==>
              after[h] == if h in which && Live(tokens[h]) then tokens[h].(revokedAt := Some(now)) else tokens[h]
  {
    map h | h in tokens :: if h in which && Live(tokens[h]) then tokens[h].(revokedAt := Some(now)) else tokens[h]
  }

  function TokensOfSessions(tokens: map<Hash, Token>, user: UserId, ids: set<SessionId>): set<Hash> {
    set h | h in tokens && tokens[h].user == user && tokens[h].session in ids
  }

  function TokensOfUser(tokens: map<Hash, Token>, user: UserId): set<Hash> {
    set h | h in tokens && tokens[h].user == user
  }

  function LiveSessions(sessions: map<SessionId, Session>, user: UserId, client: ClientType): set<SessionId> {
    set id | id in sessions && sessions[id].user == user && sessions[id].client == client && sessions[id].endedAt.None?
  }

  function EndSessions(sessions: map<SessionId, Session>, ids: set<SessionId>,
                       now: Time): (after: map<SessionId, Session>)
    ensures after.Keys == sessions.Keys
  {
    map id | id in sessions :: if id in ids then sessions[id].(endedAt := Some(now)) else sessions[id]
  }

  // ---- The steps ----

  datatype Step =
    | SignInRead(r: RequestId, user: UserId, client: ClientType)
    | SignInEnd(r: RequestId, now: Time)
    | SignInRevoke(r: RequestId, now: Time)
    | SignInOpen(r: RequestId)
    | Issue(r: RequestId)
    | RefreshRead(r: RequestId, hash: Hash)
    | RefreshCheck(r: RequestId, now: Time, allowed: bool)
    | RefreshSwap(r: RequestId, now: Time)
    | WalkRead(r: RequestId)
    | WalkRevoke(r: RequestId, now: Time)
    | LogoutRead(r: RequestId, hash: Hash)
    | LogoutRevoke(r: RequestId, now: Time)
    | LogoutEnd(r: RequestId, now: Time)
    | RevokeUser(user: UserId, now: Time)
    | Die(r: RequestId)

  predicate At(s: State, r: RequestId, p: Flight -> bool) {
    r in s.flights && p(s.flights[r])
  }

  predicate Enabled(s: State, step: Step) {
    match step
    case SignInRead(r, _, _) => r !in s.flights
    case SignInEnd(r, _) => At(s, r, (f: Flight) => f.Ending?)
    case SignInRevoke(r, _) => At(s, r, (f: Flight) => f.Revoking?)
    case SignInOpen(r) => At(s, r, (f: Flight) => f.Opening?)
    case Issue(r) => At(s, r, (f: Flight) => f.Issuing?)
    case RefreshRead(r, _) => r !in s.flights
    case RefreshCheck(r, _, _) => At(s, r, (f: Flight) => f.Presented?)
    case RefreshSwap(r, _) => At(s, r, (f: Flight) => f.Swapping?)
    case WalkRead(r) => At(s, r, (f: Flight) => f.Walking?)
    case WalkRevoke(r, _) => At(s, r, (f: Flight) => f.WalkRevoking?)
    case LogoutRead(r, _) => r !in s.flights
    case LogoutRevoke(r, _) => At(s, r, (f: Flight) => f.LogoutRevoking?)
    case LogoutEnd(r, _) => At(s, r, (f: Flight) => f.LogoutEnding?)
    case RevokeUser(_, _) => true
    case Die(r) => r in s.flights
  }

  function Goto(s: State, r: RequestId, f: Flight): State {
    s.(flights := s.flights[r := f])
  }

  function Done(s: State, r: RequestId): State {
    s.(flights := s.flights - {r})
  }

  /** What a refresh decides from the row it found and its session, before the swap. */
  datatype Decision = Refuse | Reuse | Proceed

  function Decide(sessions: map<SessionId, Session>, row: Token, now: Time, allowed: bool): Decision {
    if row.session in sessions && sessions[row.session].endedAt.Some? then Refuse
    else if row.revokedAt.Some? then
      if now - row.revokedAt.value > REFRESH_REUSE_GRACE_MS then Reuse else Refuse
    else if allowed then Proceed
    else Refuse
  }

  function Next(s: State, step: Step): State
    requires Enabled(s, step)
  {
    match step
    case SignInRead(r, user, client) =>
      var live := LiveSessions(s.sessions, user, client);
      Goto(s, r, if live == {} then Opening(user, client) else Ending(user, client, live))
    case SignInEnd(r, now) =>
      var f := s.flights[r];
      Goto(s.(sessions := EndSessions(s.sessions, f.live, now)), r, Revoking(f.user, f.client, f.live))
    case SignInRevoke(r, now) =>
      var f := s.flights[r];
      Goto(s.(tokens := RevokeLive(s.tokens, TokensOfSessions(s.tokens, f.user, f.live), now)), r,
          Opening(f.user, f.client))
    case SignInOpen(r) =>
      var f := s.flights[r];
      Goto(s.(sessions := s.sessions[s.nextSession := Session(f.user, f.client, None)],
              nextSession := s.nextSession + 1, nextHash := s.nextHash + 1),
           r, Issuing(f.user, s.nextSession, s.nextHash, None))
    case Issue(r) =>
      var f := s.flights[r];
      Done(s.(tokens := s.tokens[f.hash := Token(f.user, f.session, None, None)]), r)
    case RefreshRead(r, hash) =>
      if hash in s.tokens then Goto(s, r, Presented(hash, s.tokens[hash])) else s
    case RefreshCheck(r, now, allowed) =>
      var f := s.flights[r];
      (match Decide(s.sessions, f.row, now, allowed)
       case Refuse => Done(s, r)
       case Reuse => Goto(s, r, Walking(f.row.replacedBy, {}, 0))
       case Proceed => Goto(s, r, Swapping(f.hash, f.row)))
    case RefreshSwap(r, now) =>
      var f := s.flights[r];
      if f.hash in s.tokens && Live(s.tokens[f.hash]) then
        var token := s.tokens[f.hash];
        Goto(s.(tokens := s.tokens[f.hash := token.(revokedAt := Some(now), replacedBy := Some(s.nextHash))],
                nextHash := s.nextHash + 1),
             r, Issuing(f.row.user, f.row.session, s.nextHash, Some(f.hash)))
      else Done(s, r)
    case WalkRead(r) =>
      var f := s.flights[r];
      if f.next.None? || f.hops >= MAX_HOPS || f.next.value in f.seen || f.next.value !in s.tokens then Done(s, r)
      else Goto(s, r, WalkRevoking(f.next.value, s.tokens[f.next.value].replacedBy, f.seen + {f.next.value}, f.hops))
    case WalkRevoke(r, now) =>
      var f := s.flights[r];
      Goto(s.(tokens := RevokeLive(s.tokens, {f.child}, now)), r, Walking(f.after, f.seen, f.hops + 1))
    case LogoutRead(r, hash) =>
      if hash in s.tokens && Live(s.tokens[hash]) then Goto(s, r, LogoutRevoking(hash, s.tokens[hash])) else s
    case LogoutRevoke(r, now) =>
      var f := s.flights[r];
      // Not restricted to unrevoked rows: a token rotated since the read is stamped again.
      var tokens := if f.hash in s.tokens then s.tokens[f.hash := s.tokens[f.hash].(revokedAt := Some(now))]
          else s.tokens;
      Goto(s.(tokens := tokens), r, LogoutEnding(f.row.session))
    case LogoutEnd(r, now) =>
      var id := s.flights[r].session;
      var ended := id in s.sessions && s.sessions[id].endedAt.None?;
      Done(if ended then s.(sessions := EndSessions(s.sessions, {id}, now)) else s, r)
    case RevokeUser(user, now) => s.(tokens := RevokeLive(s.tokens, TokensOfUser(s.tokens, user), now))
    case Die(r) => Done(s, r)
  }

  // ---- The invariant ----

  /** Ids come from the counters, and a token's session exists. */
  ghost predicate Numbered(s: State) {
    && (forall h :: h in s.tokens ==> h < s.nextHash && s.tokens[h].session in s.sessions)
    && (forall id :: id in s.sessions ==> id < s.nextSession)
  }

  /** A replaced token is revoked, its link goes forward, stays in its session, and is shared by no other token. */
  ghost predicate Linked(s: State) {
    && (forall h :: h in s.tokens && s.tokens[h].replacedBy.Some? ==>
          && !Live(s.tokens[h])
          && h < s.tokens[h].replacedBy.value < s.nextHash
          && (s.tokens[h].replacedBy.value in s.tokens ==>
                s.tokens[s.tokens[h].replacedBy.value].session == s.tokens[h].session))
    && (forall g, h | g in s.tokens && h in s.tokens ::
          s.tokens[g].replacedBy.Some? && s.tokens[g].replacedBy == s.tokens[h].replacedBy ==> g == h)
  }

  /** Within a session every token but the newest was replaced by a token of the session no newer than any later one. */
  ghost predicate Chained(s: State) {
    forall g, h :: g in s.tokens && h in s.tokens && g < h && s.tokens[g].session == s.tokens[h].session ==>
      && s.tokens[g].replacedBy.Some?
      && s.tokens[g].replacedBy.value in s.tokens
      && s.tokens[g].replacedBy.value <= h
  }

  /** A token about to be created continues its session's chain, and the session has no live token meanwhile. */
  ghost predicate IssueReady(s: State, f: Flight)
    requires f.Issuing?
  {
    && f.hash < s.nextHash && f.hash !in s.tokens && f.session in s.sessions
    && (forall h :: h in s.tokens && s.tokens[h].session == f.session ==>
          !Live(s.tokens[h]) && h < f.hash && f.from.Some?)
    && (forall h :: h in s.tokens && s.tokens[h].replacedBy == Some(f.hash) ==> f.from == Some(h))
    && (f.from.Some? ==>
          && f.from.value in s.tokens
          && s.tokens[f.from.value].replacedBy == Some(f.hash)
          && s.tokens[f.from.value].session == f.session
          && forall h :: h in s.tokens && s.tokens[h].session == f.session ==> h <= f.from.value)
  }

  ghost predicate Pending(s: State) {
    && (forall r :: r in s.flights && s.flights[r].Issuing? ==> IssueReady(s, s.flights[r]))
    && (forall q, r :: q in s.flights && r in s.flights && q != r && s.flights[q].Issuing? && s.flights[r].Issuing? ==>
          s.flights[q].session != s.flights[r].session && s.flights[q].hash != s.flights[r].hash)
  }

  /** A request that remembers a row remembers the row's session rightly. */
  ghost predicate Remembered(s: State) {
    forall r :: r in s.flights && s.flights[r].Swapping? ==>
      s.flights[r].hash in s.tokens && s.tokens[s.flights[r].hash].session == s.flights[r].row.session
  }

  ghost predicate RememberedPresented(s: State) {
    forall r :: r in s.flights && s.flights[r].Presented? ==>
      s.flights[r].hash in s.tokens && s.tokens[s.flights[r].hash].session == s.flights[r].row.session
  }

  ghost predicate Inv(s: State) {
    && Numbered(s) && Linked(s) && Chained(s) && Pending(s) && Remembered(s) && RememberedPresented(s)
  }

  ghost predicate Initial(s: State) {
    s.tokens == map[] && s.sessions == map[] && s.flights == map[]
  }

  // Revoking more tokens, ending sessions and moving a request that issues nothing keeps everything.
  ghost predicate OnlyRevokes(a: map<Hash, Token>, b: map<Hash, Token>) {
    && a.Keys == b.Keys
    && forall h :: h in a ==>
         b[h].user == a[h].user && b[h].session == a[h].session && b[h].replacedBy == a[h].replacedBy
             && (Live(b[h]) ==> Live(a[h]))
  }

  ghost predicate Harmless(s: State, t: State, moved: set<RequestId>) {
    && OnlyRevokes(s.tokens, t.tokens)
    && t.sessions.Keys == s.sessions.Keys && t.nextHash == s.nextHash && t.nextSession == s.nextSession
    && (forall q :: q in t.flights && q !in moved ==> q in s.flights && t.flights[q] == s.flights[q])
    && (forall q :: q in t.flights && q in moved ==>
          && !t.flights[q].Issuing?
          && (t.flights[q].Swapping? || t.flights[q].Presented? ==>
                t.flights[q].hash in t.tokens && t.tokens[t.flights[q].hash].session == t.flights[q].row.session))
  }

  lemma HarmlessPending(s: State, t: State, moved: set<RequestId>)
    requires Pending(s) && Harmless(s, t, moved)
    ensures Pending(t)
  {
  }

  lemma HarmlessKeeps(s: State, t: State, moved: set<RequestId>)
    requires Inv(s) && Harmless(s, t, moved)
    ensures Inv(t)
  {
    HarmlessPending(s, t, moved);
    assert Numbered(t) && Linked(t);
    assert Chained(t);
  }

  lemma OpenKeeps(s: State, r: RequestId)
    requires Inv(s) && Enabled(s, SignInOpen(r))
    ensures Inv(Next(s, SignInOpen(r)))
  {
    var t := Next(s, SignInOpen(r));
    assert t.tokens == s.tokens;
    OpenPends(s, r);
  }

  lemma OpenPends(s: State, r: RequestId)
    requires Numbered(s) && Linked(s) && Pending(s) && Enabled(s, SignInOpen(r))
    ensures Pending(Next(s, SignInOpen(r)))
  {
    var t := Next(s, SignInOpen(r));
    forall q | q in t.flights && t.flights[q].Issuing?
      ensures IssueReady(t, t.flights[q])
    {
      if q != r {
        assert IssueReady(s, s.flights[q]);
      }
    }
  }

  lemma IssueLinks(s: State, r: RequestId)
    requires Inv(s) && Enabled(s, Issue(r))
    ensures Numbered(Next(s, Issue(r))) && Linked(Next(s, Issue(r)))
  {
    assert IssueReady(s, s.flights[r]);
  }

  lemma IssueChains(s: State, r: RequestId)
    requires Inv(s) && Enabled(s, Issue(r))
    ensures Chained(Next(s, Issue(r)))
  {
    var f, t := s.flights[r], Next(s, Issue(r));
    assert IssueReady(s, f);
    forall g, h | g in t.tokens && h in t.tokens && g < h && t.tokens[g].session == t.tokens[h].session
      ensures t.tokens[g].replacedBy.Some? && t.tokens[g].replacedBy.value in t.tokens
              && t.tokens[g].replacedBy.value <= h
    {
      if h == f.hash && g != f.from.value {
        assert s.tokens[f.from.value].session == s.tokens[g].session;
      }
    }
  }

  lemma IssuePends(s: State, r: RequestId)
    requires Inv(s) && Enabled(s, Issue(r))
    ensures Pending(Next(s, Issue(r)))
  {
    var f, t := s.flights[r], Next(s, Issue(r));
    forall q | q in t.flights && t.flights[q].Issuing?
      ensures IssueReady(t, t.flights[q])
    {
      assert IssueReady(s, s.flights[q]) && IssueReady(s, f);
      assert s.flights[q].session != f.session && s.flights[q].hash != f.hash;
    }
  }

  lemma IssueKeeps(s: State, r: RequestId)
    requires Inv(s) && Enabled(s, Issue(r))
    ensures Inv(Next(s, Issue(r)))
  {
    assert IssueReady(s, s.flights[r]);
    IssueLinks(s, r);
    IssueChains(s, r);
    IssuePends(s, r);
  }

  ghost predicate Wins(s: State, step: Step) {
    && step.RefreshSwap? && Enabled(s, step)
    && s.flights[step.r].hash in s.tokens && Live(s.tokens[s.flights[step.r].hash])
  }

  // A live token is the newest of its session, and no token of the session is about to be created.
  lemma LiveIsLast(s: State, h: Hash)
    requires Inv(s) && h in s.tokens && Live(s.tokens[h])
    ensures forall g :: g in s.tokens && s.tokens[g].session == s.tokens[h].session ==>
              g <= h && (Live(s.tokens[g]) ==> g == h)
    ensures forall r :: r in s.flights && s.flights[r].Issuing? ==> s.flights[r].session != s.tokens[h].session
  {
  }

  lemma SwapLinks(s: State, r: RequestId, now: Time)
    requires Inv(s) && Wins(s, RefreshSwap(r, now))
    ensures Numbered(Next(s, RefreshSwap(r, now))) && Linked(Next(s, RefreshSwap(r, now)))
  {
  }

  lemma SwapChains(s: State, r: RequestId, now: Time)
    requires Inv(s) && Wins(s, RefreshSwap(r, now))
    ensures Chained(Next(s, RefreshSwap(r, now)))
  {
    LiveIsLast(s, s.flights[r].hash);
  }

  lemma SwapReady(s: State, r: RequestId, now: Time, q: RequestId)
    requires Inv(s) && Wins(s, RefreshSwap(r, now))
    requires q in Next(s, RefreshSwap(r, now)).flights && Next(s, RefreshSwap(r, now)).flights[q].Issuing?
    ensures IssueReady(Next(s, RefreshSwap(r, now)), Next(s, RefreshSwap(r, now)).flights[q])
  {
    LiveIsLast(s, s.flights[r].hash);
    assert s.tokens[s.flights[r].hash].session == s.flights[r].row.session;
    if q != r {
      assert IssueReady(s, s.flights[q]);
    }
  }

  lemma SwapApart(s: State, r: RequestId, now: Time, q: RequestId)
    requires Inv(s) && Wins(s, RefreshSwap(r, now)) && q != r && q in s.flights && s.flights[q].Issuing?
    ensures s.flights[q].session != s.flights[r].row.session && s.flights[q].hash != s.nextHash
  {
    LiveIsLast(s, s.flights[r].hash);
    assert s.tokens[s.flights[r].hash].session == s.flights[r].row.session;
    assert IssueReady(s, s.flights[q]);
  }

  lemma SwapPends(s: State, r: RequestId, now: Time)
    requires Inv(s) && Wins(s, RefreshSwap(r, now))
    ensures Pending(Next(s, RefreshSwap(r, now)))
  {
    var t := Next(s, RefreshSwap(r, now));
    forall q | q in t.flights && t.flights[q].Issuing?
      ensures IssueReady(t, t.flights[q])
      ensures q != r ==> s.flights[q].session != s.flights[r].row.session && s.flights[q].hash != s.nextHash
    {
      SwapReady(s, r, now, q);
      if q != r {
        SwapApart(s, r, now, q);
      }
    }
  }

  lemma SwapKeeps(s: State, r: RequestId, now: Time)
    requires Inv(s) && Enabled(s, RefreshSwap(r, now))
    ensures Inv(Next(s, RefreshSwap(r, now)))
  {
    if Wins(s, RefreshSwap(r, now)) {
      SwapLinks(s, r, now);
      SwapChains(s, r, now);
      SwapPends(s, r, now);
    } else {
      HarmlessKeeps(s, Next(s, RefreshSwap(r, now)), {r});
    }
  }

  ghost predicate Creates(step: Step) {
    step.SignInOpen? || step.Issue? || step.RefreshSwap?
  }

  ghost function Moved(step: Step): set<RequestId> {
    if step.RevokeUser? then {} else {step.r}
  }

  // Every other step only revokes, ends sessions or moves one request on.
  lemma SignInHarmless(s: State, step: Step)
    requires Remembered(s) && RememberedPresented(s) && Enabled(s, step)
    requires step.SignInRead? || step.SignInEnd? || step.SignInRevoke? || step.RevokeUser?
    ensures Harmless(s, Next(s, step), Moved(step))
  {
  }

  lemma RefreshHarmless(s: State, step: Step)
    requires Remembered(s) && RememberedPresented(s) && Enabled(s, step)
    requires step.RefreshRead? || step.RefreshCheck? || step.WalkRead? || step.WalkRevoke?
    ensures Harmless(s, Next(s, step), Moved(step))
  {
  }

  lemma OthersHarmless(s: State, step: Step)
    requires Remembered(s) && RememberedPresented(s) && Enabled(s, step) && !Creates(step)
    ensures Harmless(s, Next(s, step), Moved(step))
  {
    if step.SignInRead? || step.SignInEnd? || step.SignInRevoke? || step.RevokeUser? {
      SignInHarmless(s, step);
    } else if step.RefreshRead? || step.RefreshCheck? || step.WalkRead? || step.WalkRevoke? {
      RefreshHarmless(s, step);
    }
  }

  lemma StepKeeps(s: State, step: Step)
    requires Inv(s) && Enabled(s, step)
    ensures Inv(Next(s, step))
  {
    if step.SignInOpen? {
      OpenKeeps(s, step.r);
    } else if step.Issue? {
      IssueKeeps(s, step.r);
    } else if step.RefreshSwap? {
      SwapKeeps(s, step.r, step.now);
    } else {
      OthersHarmless(s, step);
      HarmlessKeeps(s, Next(s, step), Moved(step));
    }
  }

  // ---- Runs ----

  ghost predicate Run(states: seq<State>, steps: seq<Step>) {
    && |states| == |steps| + 1
    && Initial(states[0])
    && forall i :: 0 <= i < |steps| ==> Enabled(states[i], steps[i]) && states[i + 1] == Next(states[i], steps[i])
  }

  lemma {:induction false} Reachable(states: seq<State>, steps: seq<Step>, i: nat)
    requires Run(states, steps) && i < |states|
    ensures Inv(states[i])
  {
    if i > 0 {
      Reachable(states, steps, i - 1);
      StepKeeps(states[i - 1], steps[i - 1]);
    }
  }

  /** What gives a session a way to stay signed in: a live token, or a token won and not yet created. */
  datatype Holder = LiveToken(hash: Hash) | PendingToken(request: RequestId)

  ghost predicate Holds(s: State, x: Holder, session: SessionId) {
    match x
    case LiveToken(h) => h in s.tokens && Live(s.tokens[h]) && s.tokens[h].session == session
    case PendingToken(r) => r in s.flights && s.flights[r].Issuing? && s.flights[r].session == session
  }

  /** In every state of every interleaving a session has at most one live or pending token. */
  lemma AtMostOneHolder(states: seq<State>, steps: seq<Step>, i: nat, session: SessionId, x: Holder, y: Holder)
    requires Run(states, steps) && i < |states|
    requires Holds(states[i], x, session) && Holds(states[i], y, session)
    ensures x == y
  {
    Reachable(states, steps, i);
    if x.LiveToken? {
      LiveIsLast(states[i], x.hash);
    }
  }

  // ---- Nothing revives, links never change ----

  ghost predicate TokenOnlyAges(a: Token, b: Token) {
    && b.user == a.user && b.session == a.session
    && (!Live(a) ==> !Live(b))
    && (!Live(a) || a.replacedBy.Some? ==> b.replacedBy == a.replacedBy)
  }

  lemma StepAges(s: State, step: Step, h: Hash)
    requires Inv(s) && Enabled(s, step) && h in s.tokens
    ensures h in Next(s, step).tokens && TokenOnlyAges(s.tokens[h], Next(s, step).tokens[h])
  {
    if step.Issue? {
      assert IssueReady(s, s.flights[step.r]);
    } else if !Creates(step) {
      OthersHarmless(s, step);
    }
  }

  /** A revoked token stays revoked and its link, or its having none, stays as it is; no token disappears. */
  lemma {:induction false} TokensOnlyAge(states: seq<State>, steps: seq<Step>, i: nat, j: nat, h: Hash)
    requires Run(states, steps) && i <= j < |states| && h in states[i].tokens
    ensures h in states[j].tokens && TokenOnlyAges(states[i].tokens[h], states[j].tokens[h])
  {
    if i < j {
      TokensOnlyAge(states, steps, i, j - 1, h);
      Reachable(states, steps, j - 1);
      StepAges(states[j - 1], steps[j - 1], h);
    }
  }

  /** Of any number of refreshes presenting one token, at most one wins the swap, so at most one pair is issued. */
  lemma AtMostOneRefreshWins(states: seq<State>, steps: seq<Step>, i: nat, j: nat)
    requires Run(states, steps) && i < j < |steps|
    requires Wins(states[i], steps[i]) && Wins(states[j], steps[j])
    ensures states[i].flights[steps[i].r].hash != states[j].flights[steps[j].r].hash
  {
    var h := states[i].flights[steps[i].r].hash;
    assert h in states[i + 1].tokens && !Live(states[i + 1].tokens[h]);
    TokensOnlyAge(states, steps, i + 1, j, h);
  }

  /**
   * A request that did not win issues nothing: only a winning swap or the opening of a session leads to a new token.
   */
  lemma OnlyWinnersIssue(s: State, step: Step, r: RequestId)
    requires Enabled(s, step) && r in Next(s, step).flights && Next(s, step).flights[r].Issuing?
    requires !(r in s.flights && s.flights[r].Issuing?)
    ensures (Wins(s, step) || step.SignInOpen?) && step.r == r
  {
  }

  // ---- What a refresh and a sign-in go by ----

  ghost predicate IsOver(s: State, id: SessionId) {
    id in s.sessions && s.sessions[id].endedAt != None
  }

  /**
   * The check lets a refresh go on to the swap if and only if the session has not ended, the token read was not revoked
   * and the sign-in is allowed; it starts a walk if and only if the session has not ended and the token was revoked
   * more than five seconds ago; otherwise the request is over.
   */
  lemma CheckDecides(s: State, r: RequestId, now: Time, allowed: bool)
    requires r in s.flights && s.flights[r].Presented?
    ensures var f, t := s.flights[r], Next(s, RefreshCheck(r, now, allowed));
            var over := IsOver(s, f.row.session);
            && t == s.(flights := t.flights) && t.flights - {r} == s.flights - {r}
            && (r in t.flights && t.flights[r] == Swapping(f.hash, f.row)
                <==> !over && f.row.revokedAt == None && allowed)
            && (r in t.flights && t.flights[r] == Walking(f.row.replacedBy, {}, 0)
                <==> !over && f.row.revokedAt.Some? && now - f.row.revokedAt.value > 5000)
            && (r in t.flights ==> t.flights[r].Swapping? || t.flights[r].Walking?)
  {
  }

  lemma {:induction false} PresentedWasRead(states: seq<State>, steps: seq<Step>, k: nat, r: RequestId)
    returns (i: nat)
    requires Run(states, steps) && k < |states| && r in states[k].flights && states[k].flights[r].Presented?
    ensures i < k && steps[i] == RefreshRead(r, states[k].flights[r].hash)
    ensures var f := states[k].flights[r];
            f.hash in states[i].tokens && states[i].tokens[f.hash] == f.row
  {
    if r in states[k - 1].flights && states[k - 1].flights[r] == states[k].flights[r] {
      i := PresentedWasRead(states, steps, k - 1, r);
    } else {
      i := k - 1;
    }
  }

  lemma {:induction false} SwappingWasChecked(states: seq<State>, steps: seq<Step>, k: nat, r: RequestId)
    returns (i: nat)
    requires Run(states, steps) && k < |states| && r in states[k].flights && states[k].flights[r].Swapping?
    ensures i < k && steps[i].RefreshCheck? && steps[i].r == r && steps[i].allowed
    ensures var f := states[k].flights[r];
            && r in states[i].flights && states[i].flights[r] == Presented(f.hash, f.row)
            && f.row.revokedAt == None && !IsOver(states[i], f.row.session)
  {
    if r in states[k - 1].flights && states[k - 1].flights[r] == states[k].flights[r] {
      i := SwappingWasChecked(states, steps, k - 1, r);
    } else {
      i := k - 1;
    }
  }

  /**
   * Over every run, a token is replaced only after its request read it unrevoked and then passed the check, allowed and
   * with the session not ended.
   */
  lemma WinnersPassedTheCheck(states: seq<State>, steps: seq<Step>, j: nat) returns (read: nat, check: nat)
    requires Run(states, steps) && j < |steps| && Wins(states[j], steps[j])
    ensures read < check < j
    ensures var r := steps[j].r;
            var hash := states[j].flights[r].hash;
            && steps[read] == RefreshRead(r, hash) && hash in states[read].tokens
            && states[read].tokens[hash].revokedAt == None
            && steps[check].RefreshCheck? && steps[check].r == r && steps[check].allowed
            && !IsOver(states[check], states[read].tokens[hash].session)
  {
    check := SwappingWasChecked(states, steps, j, steps[j].r);
    read := PresentedWasRead(states, steps, check, steps[j].r);
  }

  /** The person's sessions of that kind of device which had not ended. */
  ghost predicate OpenFor(s: State, id: SessionId, user: UserId, client: ClientType) {
    id in s.sessions && s.sessions[id] == Session(user, client, None)
  }

  /** What a sign-in that read at state `from` has done by the state `s`. */
  ghost predicate SignInStands(from: State, s: State, r: RequestId, user: UserId, client: ClientType) {
    && r in s.flights
    && (match s.flights[r]
        case Ending(u, c, live) =>
          u == user && c == client && forall id :: OpenFor(from, id, user, client) ==> id in live && id in s.sessions
        case Revoking(u, c, live) =>
          && u == user && c == client
          && forall id :: OpenFor(from, id, user, client) ==> id in live && IsOver(s, id)
        case Opening(u, c) =>
          && u == user && c == client
          && (forall id :: OpenFor(from, id, user, client) ==> IsOver(s, id))
          && forall h :: h in from.tokens && from.tokens[h].user == user
                         && OpenFor(from, from.tokens[h].session, user, client) ==>
               h in s.tokens && s.tokens[h].revokedAt != None
        case _ => false)
  }

  ghost predicate SessionsOnlyEnd(s: State, t: State) {
    forall id :: id in s.sessions ==>
      id in t.sessions && t.sessions[id].user == s.sessions[id].user && t.sessions[id].client == s.sessions[id].client
      && (s.sessions[id].endedAt != None ==> t.sessions[id].endedAt != None)
  }

  lemma StepEndsSessions(s: State, step: Step)
    requires Numbered(s) && Enabled(s, step)
    ensures SessionsOnlyEnd(s, Next(s, step))
  {
  }

  // A step that leaves the request where it was takes nothing back.
  lemma SignInUndisturbed(from: State, s: State, t: State, r: RequestId, user: UserId, client: ClientType)
    requires SignInStands(from, s, r, user, client) && SessionsOnlyEnd(s, t)
    requires r in t.flights && t.flights[r] == s.flights[r]
    requires forall h :: h in s.tokens ==> h in t.tokens && TokenOnlyAges(s.tokens[h], t.tokens[h])
    ensures SignInStands(from, t, r, user, client)
  {
  }

  lemma OwnSignInStep(from: State, s: State, step: Step, r: RequestId, user: UserId, client: ClientType)
    requires Enabled(s, step) && SignInStands(from, s, r, user, client)
    requires step.SignInEnd? || step.SignInRevoke?
    requires step.r == r
    requires forall h :: h in from.tokens ==> h in s.tokens && TokenOnlyAges(from.tokens[h], s.tokens[h])
    ensures SignInStands(from, Next(s, step), r, user, client)
  {
  }

  lemma FlightStays(s: State, step: Step, r: RequestId)
    requires Enabled(s, step) && r in s.flights && (step.RevokeUser? || step.r != r)
    ensures r in Next(s, step).flights && Next(s, step).flights[r] == s.flights[r]
  {
  }

  lemma SignInStep(from: State, s: State, step: Step, r: RequestId, user: UserId, client: ClientType)
    requires Inv(s) && Enabled(s, step) && SignInStands(from, s, r, user, client)
    requires step != SignInOpen(r) && step != Die(r)
    requires forall h :: h in from.tokens ==> h in s.tokens && TokenOnlyAges(from.tokens[h], s.tokens[h])
    ensures SignInStands(from, Next(s, step), r, user, client)
  {
    if !step.RevokeUser? && step.r == r {
      OwnSignInStep(from, s, step, r, user, client);
    } else {
      StepEndsSessions(s, step);
      FlightStays(s, step, r);
      forall h | h in s.tokens
        ensures h in Next(s, step).tokens && TokenOnlyAges(s.tokens[h], Next(s, step).tokens[h])
      {
        StepAges(s, step, h);
      }
      SignInUndisturbed(from, s, Next(s, step), r, user, client);
    }
  }

  lemma SignInReads(s: State, r: RequestId, user: UserId, client: ClientType)
    requires Enabled(s, SignInRead(r, user, client))
    ensures SignInStands(s, Next(s, SignInRead(r, user, client)), r, user, client)
  {
    forall id | OpenFor(s, id, user, client)
      ensures id in LiveSessions(s.sessions, user, client)
    {
    }
  }

  lemma {:induction false} SignInStandsUntilOpen(states: seq<State>, steps: seq<Step>, i: nat, k: nat)
    requires Run(states, steps) && i < k < |states| && steps[i].SignInRead?
    requires forall m :: i < m < k ==> steps[m] != SignInOpen(steps[i].r) && steps[m] != Die(steps[i].r)
    ensures SignInStands(states[i], states[k], steps[i].r, steps[i].user, steps[i].client)
  {
    if i + 1 < k {
      SignInStandsUntilOpen(states, steps, i, k - 1);
      Reachable(states, steps, k - 1);
      forall h | h in states[i].tokens
        ensures h in states[k - 1].tokens && TokenOnlyAges(states[i].tokens[h], states[k - 1].tokens[h])
      {
        TokensOnlyAge(states, steps, i, k - 1, h);
      }
      SignInStep(states[i], states[k - 1], steps[k - 1], steps[i].r, steps[i].user, steps[i].client);
    } else {
      SignInReads(states[i], steps[i].r, steps[i].user, steps[i].client);
    }
  }

  /**
   * Over every run, when a sign-in opens its session, every session of the person on that kind of device that was open
   * when it looked has ended, and the person's tokens of those sessions are revoked.
   */
  lemma SignInEndsEarlierOnes(states: seq<State>, steps: seq<Step>, i: nat, k: nat, id: SessionId)
    requires Run(states, steps) && i < k < |steps| && steps[i].SignInRead? && steps[k] == SignInOpen(steps[i].r)
    requires forall m :: i < m < k ==> steps[m] != SignInOpen(steps[i].r) && steps[m] != Die(steps[i].r)
    requires id in states[i].sessions && states[i].sessions[id] == Session(steps[i].user, steps[i].client, None)
    ensures id in states[k].sessions && states[k].sessions[id].endedAt != None
    ensures forall h :: h in states[i].tokens && states[i].tokens[h].session == id
                        && states[i].tokens[h].user == steps[i].user ==>
              h in states[k].tokens && states[k].tokens[h].revokedAt != None
    ensures var t, own := states[k + 1], states[k].nextSession;
            own !in states[k].sessions && own in t.sessions
            && t.sessions[own] == Session(steps[i].user, steps[i].client, None)
  {
    SignInStandsUntilOpen(states, steps, i, k);
    Reachable(states, steps, k);
    assert OpenFor(states[i], id, steps[i].user, steps[i].client);
  }

  /** What a logout that found `hash` unrevoked, of session `id`, has done by the state `s`. */
  ghost predicate LogoutStands(s: State, r: RequestId, hash: Hash, id: SessionId) {
    && r in s.flights && hash in s.tokens && s.tokens[hash].session == id
    && match s.flights[r]
       case LogoutRevoking(h, row) => h == hash && row.session == id
       case LogoutEnding(session) => session == id && s.tokens[hash].revokedAt != None
       case _ => false
  }

  lemma OwnLogoutStep(s: State, r: RequestId, now: Time, hash: Hash, id: SessionId)
    requires LogoutStands(s, r, hash, id) && Enabled(s, LogoutRevoke(r, now))
    ensures LogoutStands(Next(s, LogoutRevoke(r, now)), r, hash, id)
  {
  }

  lemma {:induction false} LogoutStandsUntilEnd(states: seq<State>, steps: seq<Step>, i: nat, k: nat)
    requires Run(states, steps) && i < k < |states| && steps[i].LogoutRead?
    requires steps[i].hash in states[i].tokens && states[i].tokens[steps[i].hash].revokedAt == None
    requires forall m :: i < m < k ==> !(steps[m].LogoutEnd? && steps[m].r == steps[i].r) && steps[m] != Die(steps[i].r)
    ensures LogoutStands(states[k], steps[i].r, steps[i].hash, states[i].tokens[steps[i].hash].session)
  {
    var r, hash := steps[i].r, steps[i].hash;
    var id := states[i].tokens[hash].session;
    if i + 1 < k {
      var s, step := states[k - 1], steps[k - 1];
      LogoutStandsUntilEnd(states, steps, i, k - 1);
      if !step.RevokeUser? && step.r == r {
        assert step.LogoutRevoke?;
        OwnLogoutStep(s, r, step.now, hash, id);
      } else {
        FlightStays(s, step, r);
        Reachable(states, steps, k - 1);
        StepAges(s, step, hash);
      }
    }
  }

  /**
   * Over every run, a logout that finds its token unrevoked leaves the token revoked and the session ended, whatever
   * comes between its steps.
   */
  lemma LogoutSignsOut(states: seq<State>, steps: seq<Step>, i: nat, k: nat)
    requires Run(states, steps) && i < k < |steps| && steps[i].LogoutRead?
    requires steps[i].hash in states[i].tokens && states[i].tokens[steps[i].hash].revokedAt == None
    requires steps[k].LogoutEnd? && steps[k].r == steps[i].r
    requires forall m :: i < m < k ==> !(steps[m].LogoutEnd? && steps[m].r == steps[i].r) && steps[m] != Die(steps[i].r)
    ensures var hash := steps[i].hash;
            && hash in states[k + 1].tokens && states[k + 1].tokens[hash].revokedAt != None
            && IsOver(states[k + 1], states[i].tokens[hash].session)
  {
    LogoutStandsUntilEnd(states, steps, i, k);
    Reachable(states, steps, k);
  }

  /** Revoking a person's tokens revokes exactly the person's unrevoked ones and ends no session. */
  lemma RevokesExactlyTheirs(s: State, user: UserId, now: Time, h: Hash)
    requires h in s.tokens
    ensures var t := Next(s, RevokeUser(user, now));
            && t == s.(tokens := t.tokens) && t.tokens.Keys == s.tokens.Keys
            && t.tokens[h] == if s.tokens[h].user == user && s.tokens[h].revokedAt == None
                              then s.tokens[h].(revokedAt := Some(now)) else s.tokens[h]
  {
  }

  // ---- The rotation chain of a session ----

  /** `h` is reached from `g` by following replacement links through existing tokens. */
  ghost predicate Descends(tokens: map<Hash, Token>, g: Hash, h: Hash, links: nat)
    decreases links
  {
    if links == 0 then g == h
    else g in tokens && tokens[g].replacedBy.Some? && tokens[g].replacedBy.value in tokens
         && Descends(tokens, tokens[g].replacedBy.value, h, links - 1)
  }

  /** The tokens of one session form a single chain: from any of them the links lead to every newer one. */
  lemma {:induction false} SessionIsOneChain(s: State, g: Hash, h: Hash) returns (links: nat)
    requires Inv(s) && g in s.tokens && h in s.tokens && s.tokens[g].session == s.tokens[h].session && g <= h
    ensures Descends(s.tokens, g, h, links)
    decreases h - g
  {
    if g == h {
      links := 0;
    } else {
      var rest := SessionIsOneChain(s, s.tokens[g].replacedBy.value, h);
      links := rest + 1;
    }
  }

  /**
   * Links only lead to newer tokens of the same session, so no chain closes on itself or crosses to another session.
   */
  lemma {:induction false} ChainsAreAcyclic(s: State, g: Hash, h: Hash, links: nat)
    requires Inv(s) && g in s.tokens && Descends(s.tokens, g, h, links) && links > 0
    ensures h in s.tokens && g < h && s.tokens[g].session == s.tokens[h].session && !Live(s.tokens[g])
    decreases links
  {
    if links > 1 {
      ChainsAreAcyclic(s, s.tokens[g].replacedBy.value, h, links - 1);
    }
  }
}
