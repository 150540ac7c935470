// src/auth/auth.service.ts:523-697: the token and session tables as one object, with the methods run one at a time, and
// what reuse detection achieves: the walk from a replayed token revokes exactly the rest of its chain.
module AuthStore {
  import opened Prelude
  import opened AuthTokens

  /** The tokens the reuse walk visits from `next`. */
  ghost function Walk(tokens: map<Hash, Token>, next: Option<Hash>, seen: set<Hash>, hops: nat): (visited: set<Hash>)
    decreases tokens.Keys - seen
  {
    if next.None? || hops >= MAX_HOPS || next.value in seen || next.value !in tokens then {}
    else {next.value} + Walk(tokens, tokens[next.value].replacedBy, seen + {next.value}, hops + 1)
  }

  /** The tokens visited so far and those still to be visited. */
  ghost function Visits(tokens: map<Hash, Token>, next: Option<Hash>, seen: set<Hash>, hops: nat): set<Hash> {
    seen + Walk(tokens, next, seen, hops)
  }

  ghost function Revoked(tokens: map<Hash, Token>, which: set<Hash>): (live: set<Hash>) {
    set h | h in which && h in tokens && Live(tokens[h])
  }

  datatype Outcome = Rejected | Rotated(hash: Hash)

  class AuthTables {
    var tokens: map<Hash, Token>
    var sessions: map<SessionId, Session>
    var nextHash: Hash
    var nextSession: SessionId

    constructor ()
      ensures tokens == map[] && sessions == map[] && nextHash == 0 && nextSession == 0
    {
      tokens, sessions, nextHash, nextSession := map[], map[], 0, 0;
    }

    /** The tables as a state of the transition system, with no request in flight. */
    ghost function Quiet(): State
      reads this
    {
      State(tokens, sessions, map[], nextHash, nextSession)
    }

    /** updateMany on one row by id, where revokedAt is null: how many rows changed. */
    method RevokeIfLive(child: Hash, now: Time) returns (count: nat)
      requires child in tokens
      modifies this`tokens
      ensures tokens == RevokeLive(old(tokens), {child}, now)
      ensures count == if Live(old(tokens)[child]) then 1 else 0
    {
      count := 0;
      if Live(tokens[child]) {
        tokens := tokens[child := tokens[child].(revokedAt := Some(now))];
        count := 1;
      }
    }

    /** Follows the replacement links from a replayed token; works on any table, cyclic links included. */
    method RevokeTokenFamily(replacedBy: Option<Hash>, now: Time) returns (revoked: nat)
      modifies this`tokens
      ensures tokens == RevokeLive(old(tokens), Walk(old(tokens), replacedBy, {}, 0), now)
      ensures revoked == |Revoked(old(tokens), Walk(old(tokens), replacedBy, {}, 0))|
    {
      ghost var before := tokens;
      ghost var whole := Visits(before, replacedBy, {}, 0);
      var seen: set<Hash> := {};
      var nextHash := replacedBy;
      var hops := 0;
      revoked := 0;
      assert Revoked(before, {}) == {};
      while nextHash.Some? && hops < MAX_HOPS
        invariant hops <= MAX_HOPS
        invariant tokens == RevokeLive(before, seen, now)
        invariant whole == Visits(before, nextHash, seen, hops)
        invariant revoked == |Revoked(before, seen)|
        decreases MAX_HOPS - hops
      {
        if nextHash.value in seen {
          assert whole == seen;
          break;
        }
        ghost var visited := seen;
        seen := seen + {nextHash.value};
        if nextHash.value !in tokens {
          assert whole == visited;
          break;
        }
        var child := nextHash.value;
        RevokeOneMore(before, visited, child, now);
        WalkOneMore(before, child, visited, hops);
        var after := tokens[child].replacedBy;
        var count := RevokeIfLive(child, now);
        revoked := revoked + count;
        nextHash := after;
        hops := hops + 1;
      }
      assert tokens == RevokeLive(before, whole, now) && revoked == |Revoked(before, whole)|;
    }

    /** refresh: `allowed` says whether the row is unexpired and its user and organisation may still sign in. */
    method Refresh(hash: Hash, now: Time, allowed: bool) returns (outcome: Outcome)
      modifies this`tokens, this`nextHash
      ensures var decision := if hash in old(tokens) then Decide(sessions, old(tokens)[hash], now, allowed) else Refuse;
              match decision
              case Refuse => outcome == Rejected && tokens == old(tokens) && nextHash == old(nextHash)
              case Reuse =>
                && outcome == Rejected && nextHash == old(nextHash)
                && tokens == RevokeLive(old(tokens), Walk(old(tokens), old(tokens)[hash].replacedBy, {}, 0), now)
              case Proceed =>
                && outcome == Rotated(old(nextHash)) && nextHash == old(nextHash) + 1
                && tokens == old(tokens)
                     [hash := old(tokens)[hash].(revokedAt := Some(now), replacedBy := Some(old(nextHash)))]
                     [old(nextHash) := Token(old(tokens)[hash].user, old(tokens)[hash].session, None, None)]
      ensures outcome.Rotated?
         <==> hash in old(tokens) && !IsOver(Quiet(), old(tokens)[hash].session)
              && old(tokens)[hash].revokedAt == None && allowed
      ensures forall h | h in old(tokens) && h in tokens && h != hash && h != old(nextHash) ::
                tokens[h] != old(tokens)[h] ==>
                  && hash in old(tokens) && !IsOver(Quiet(), old(tokens)[hash].session)
                  && old(tokens)[hash].revokedAt.Some? && now - old(tokens)[hash].revokedAt.value > 5000
    {
      if hash !in tokens {
        return Rejected;
      }
      var existing := tokens[hash];
      if existing.session in sessions && sessions[existing.session].endedAt.Some? {
        return Rejected;
      }
      if existing.revokedAt.Some? {
        if now - existing.revokedAt.value > REFRESH_REUSE_GRACE_MS {
          var _ := RevokeTokenFamily(existing.replacedBy, now);
        }
        return Rejected;
      }
      if !allowed {
        return Rejected;
      }
      var issued := nextHash;
      nextHash := nextHash + 1;
      tokens := tokens[hash := existing.(revokedAt := Some(now), replacedBy := Some(issued))];
      tokens := tokens[issued := Token(existing.user, existing.session, None, None)];
      return Rotated(issued);
    }

    /** startSession and the first token of the session: one live session per person and kind of device. */
    method SignIn(user: UserId, client: ClientType, now: Time) returns (hash: Hash)
      modifies this
      ensures Quiet() == SignedInAlone(old(Quiet()), user, client, now) && hash == old(nextHash)
    {
      var live := LiveSessions(sessions, user, client);
      if live != {} {
        sessions := EndSessions(sessions, live, now);
        tokens := RevokeLive(tokens, TokensOfSessions(tokens, user, live), now);
      }
      var id := nextSession;
      sessions := sessions[id := Session(user, client, None)];
      nextSession := id + 1;
      hash := nextHash;
      nextHash := hash + 1;
      tokens := tokens[hash := Token(user, id, None, None)];
    }
  }

  lemma WalkOneMore(tokens: map<Hash, Token>, child: Hash, seen: set<Hash>, hops: nat)
    requires hops < MAX_HOPS && child !in seen && child in tokens
    ensures Visits(tokens, Some(child), seen, hops)
            == Visits(tokens, tokens[child].replacedBy, seen + {child}, hops + 1)
  {
  }

  lemma RevokeOneMore(before: map<Hash, Token>, visited: set<Hash>, child: Hash, now: Time)
    requires child in before && child !in visited
    ensures RevokeLive(before, visited, now)[child] == before[child]
    ensures RevokeLive(RevokeLive(before, visited, now), {child}, now) == RevokeLive(before, visited + {child}, now)
    ensures |Revoked(before, visited + {child})| == |Revoked(before, visited)| + if Live(before[child]) then 1 else 0
  {
    RevokeLiveTwice(before, visited, {child}, now);
    if Live(before[child]) {
      assert Revoked(before, visited + {child}) == Revoked(before, visited) + {child};
    } else {
      assert Revoked(before, visited + {child}) == Revoked(before, visited);
    }
  }

  // ---- The methods are the steps, run without interruption ----

  function SignedInAlone(s: State, user: UserId, client: ClientType, now: Time): State
    requires s.flights == map[]
  {
    var read := Next(s, SignInRead(0, user, client));
    var ready := if read.flights[0].Opening? then read
                 else Next(Next(read, SignInEnd(0, now)), SignInRevoke(0, now));
    Next(Next(ready, SignInOpen(0)), Issue(0))
  }

  function RefreshedAlone(s: State, hash: Hash, now: Time, allowed: bool): State
    requires s.flights == map[]
  {
    var read := Next(s, RefreshRead(0, hash));
    if 0 !in read.flights then read else
      var checked := Next(read, RefreshCheck(0, now, allowed));
      if 0 !in checked.flights then checked
      else if checked.flights[0].Walking? then WalkedAlone(checked, 0, now)
      else
        var swapped := Next(checked, RefreshSwap(0, now));
        if 0 !in swapped.flights then swapped else Next(swapped, Issue(0))
  }

  function WalkedAlone(s: State, r: RequestId, now: Time): State
    requires r in s.flights && s.flights[r].Walking?
    decreases MAX_HOPS - s.flights[r].hops
  {
    var read := Next(s, WalkRead(r));
    if r !in read.flights then read else WalkedAlone(Next(read, WalkRevoke(r, now)), r, now)
  }

  // Revoking does not change where the walk goes.
  lemma {:induction false} WalkIgnoresRevocation(a: map<Hash, Token>, which: set<Hash>, now: Time,
                                                 next: Option<Hash>, seen: set<Hash>, hops: nat)
    ensures Walk(RevokeLive(a, which, now), next, seen, hops) == Walk(a, next, seen, hops)
    decreases a.Keys - seen
  {
    if next.Some? && hops < MAX_HOPS && next.value !in seen && next.value in a {
      WalkIgnoresRevocation(a, which, now, a[next.value].replacedBy, seen + {next.value}, hops + 1);
    }
  }

  lemma RevokeLiveTwice(a: map<Hash, Token>, x: set<Hash>, y: set<Hash>, now: Time)
    ensures RevokeLive(RevokeLive(a, x, now), y, now) == RevokeLive(a, x + y, now)
  {
  }

  ghost predicate Hops(s: State, f: Flight) {
    f.Walking? && f.next.Some? && f.hops < MAX_HOPS && f.next.value !in f.seen && f.next.value in s.tokens
  }

  // One hop of the walk, uninterrupted.
  ghost function Hopped(s: State, r: RequestId, f: Flight, now: Time): State
    requires Hops(s, f)
  {
    var child := f.next.value;
    s.(tokens := RevokeLive(s.tokens, {child}, now),
       flights := s.flights[r := Walking(s.tokens[child].replacedBy, f.seen + {child}, f.hops + 1)])
  }

  lemma OneHop(s: State, r: RequestId, now: Time)
    requires r in s.flights && s.flights[r].Walking?
    ensures var f, read := s.flights[r], Next(s, WalkRead(r));
            if Hops(s, f) then r in read.flights && Next(read, WalkRevoke(r, now)) == Hopped(s, r, f, now)
            else read == Done(s, r)
  {
  }

  /** The walk's steps, uninterrupted, revoke exactly the visited tokens. */
  lemma {:induction false} WalkStepsRevokeTheWalk(s: State, r: RequestId, now: Time)
    requires r in s.flights && s.flights[r].Walking?
    ensures var f := s.flights[r];
            WalkedAlone(s, r, now)
            == Done(s.(tokens := RevokeLive(s.tokens, Walk(s.tokens, f.next, f.seen, f.hops), now)), r)
    decreases MAX_HOPS - s.flights[r].hops
  {
    var f := s.flights[r];
    OneHop(s, r, now);
    if Hops(s, f) {
      var child, after := f.next.value, Hopped(s, r, f, now);
      var rest := Walk(s.tokens, s.tokens[child].replacedBy, f.seen + {child}, f.hops + 1);
      WalkStepsRevokeTheWalk(after, r, now);
      WalkIgnoresRevocation(s.tokens, {child}, now, s.tokens[child].replacedBy, f.seen + {child}, f.hops + 1);
      RevokeLiveTwice(s.tokens, {child}, rest, now);
      assert Done(after, r).flights == Done(s, r).flights;
    } else {
      assert RevokeLive(s.tokens, {}, now) == s.tokens;
    }
  }

  /** The refresh method does what its steps do when nothing comes between them. */
  lemma RefreshMethodIsItsSteps(s: State, hash: Hash, now: Time, allowed: bool)
    requires s.flights == map[]
    ensures var decision := if hash in s.tokens then Decide(s.sessions, s.tokens[hash], now, allowed) else Refuse;
            RefreshedAlone(s, hash, now, allowed)
            == match decision
               case Refuse => s
               case Reuse => s.(tokens := RevokeLive(s.tokens, Walk(s.tokens, s.tokens[hash].replacedBy, {}, 0), now))
               case Proceed =>
                 s.(tokens := s.tokens[hash := s.tokens[hash].(revokedAt := Some(now), replacedBy := Some(s.nextHash))]
                                [s.nextHash := Token(s.tokens[hash].user, s.tokens[hash].session, None, None)],
                    nextHash := s.nextHash + 1)
  {
    if hash in s.tokens {
      var checked := Next(Next(s, RefreshRead(0, hash)), RefreshCheck(0, now, allowed));
      if 0 in checked.flights && checked.flights[0].Walking? {
        WalkStepsRevokeTheWalk(checked, 0, now);
      }
      assert checked.flights - {0} == map[];
    }
  }

  /**
   * A refresh that nothing interrupts rotates if and only if the token exists, is unrevoked, its session has not ended
   * and the sign-in is allowed. It then revokes that token, links it to a new one of the same person and session, and
   * leaves the rest. A token revoked more than five seconds ago, its session not ended, brings its descendants down;
   * anything else changes nothing.
   */
  lemma RefreshRotatesIff(s: State, hash: Hash, now: Time, allowed: bool, h: Hash)
    requires s.flights == map[] && Inv(s) && h in s.tokens
    ensures var t := RefreshedAlone(s, hash, now, allowed);
            var open := hash in s.tokens && !IsOver(s, s.tokens[hash].session);
            && t.sessions == s.sessions && t.flights == map[] && h in t.tokens
            && (t.nextHash == s.nextHash + 1 <==> open && s.tokens[hash].revokedAt == None && allowed)
            && if open && s.tokens[hash].revokedAt == None && allowed then
                 && s.nextHash in t.tokens
                 && t.tokens[s.nextHash] == Token(s.tokens[hash].user, s.tokens[hash].session, None, None)
                 && t.tokens[h] == (if h == hash
                                    then s.tokens[h].(revokedAt := Some(now), replacedBy := Some(s.nextHash))
                                    else s.tokens[h])
               else if open && s.tokens[hash].revokedAt.Some? && now - s.tokens[hash].revokedAt.value > 5000 then
                 t.tokens == RevokeLive(s.tokens, Walk(s.tokens, s.tokens[hash].replacedBy, {}, 0), now)
               else t == s
  {
    RefreshMethodIsItsSteps(s, hash, now, allowed);
  }

  // The tables after an uninterrupted sign-in, whether or not there was a session to end.
  lemma SignedInAloneTables(s: State, user: UserId, client: ClientType, now: Time)
    requires s.flights == map[]
    ensures var live := LiveSessions(s.sessions, user, client);
            var sessions := EndSessions(s.sessions, live, now);
            var tokens := RevokeLive(s.tokens, TokensOfSessions(s.tokens, user, live), now);
            SignedInAlone(s, user, client, now)
            == State(tokens[s.nextHash := Token(user, s.nextSession, None, None)],
                     sessions[s.nextSession := Session(user, client, None)],
                     map[], s.nextHash + 1, s.nextSession + 1)
  {
    if LiveSessions(s.sessions, user, client) == {} {
      assert EndSessions(s.sessions, {}, now) == s.sessions;
      assert RevokeLive(s.tokens, TokensOfSessions(s.tokens, user, {}), now) == s.tokens;
    }
  }

  /**
   * A sign-in that nothing interrupts ends every open session of the person on that kind of device, revokes the
   * person's unrevoked tokens of those sessions, opens one session with one token, and changes no other row.
   */
  lemma SignInReplacesTheSession(s: State, user: UserId, client: ClientType, now: Time)
    requires s.flights == map[] && Inv(s)
    ensures var t, anew := SignedInAlone(s, user, client, now), Session(user, client, None);
            && t.flights == map[] && s.nextSession !in s.sessions && s.nextHash !in s.tokens
            && t.sessions.Keys == s.sessions.Keys + {s.nextSession} && t.sessions[s.nextSession] == anew
            && t.tokens.Keys == s.tokens.Keys + {s.nextHash}
            && t.tokens[s.nextHash] == Token(user, s.nextSession, None, None)
            && (forall id :: id in s.sessions ==>
                  t.sessions[id] == if s.sessions[id] == anew then anew.(endedAt := Some(now)) else s.sessions[id])
            && forall h :: h in s.tokens ==>
                 t.tokens[h] == if s.tokens[h].user == user && s.sessions[s.tokens[h].session] == anew
                                   && s.tokens[h].revokedAt == None
                                then s.tokens[h].(revokedAt := Some(now)) else s.tokens[h]
  {
    SignedInAloneTables(s, user, client, now);
  }

  function LoggedOutAlone(s: State, hash: Hash, now: Time): State
    requires s.flights == map[]
  {
    var read := Next(s, LogoutRead(0, hash));
    if 0 !in read.flights then read else Next(Next(read, LogoutRevoke(0, now)), LogoutEnd(0, now))
  }

  /** A logout that nothing interrupts revokes its unrevoked token, ends that token's open session, and nothing else. */
  lemma LogoutEndsItsSession(s: State, hash: Hash, now: Time, h: Hash, id: SessionId)
    requires s.flights == map[] && h in s.tokens && id in s.sessions
    ensures var t := LoggedOutAlone(s, hash, now);
            var live := hash in s.tokens && s.tokens[hash].revokedAt == None;
            && t == s.(tokens := t.tokens, sessions := t.sessions)
            && t.tokens.Keys == s.tokens.Keys && t.sessions.Keys == s.sessions.Keys
            && t.tokens[h] == (if live && h == hash then s.tokens[h].(revokedAt := Some(now)) else s.tokens[h])
            && t.sessions[id] == if live && id == s.tokens[hash].session && s.sessions[id].endedAt == None
                                 then s.sessions[id].(endedAt := Some(now)) else s.sessions[id]
  {
    if hash in s.tokens && s.tokens[hash].revokedAt == None {
      var read := Next(s, LogoutRead(0, hash));
      assert read == Goto(s, 0, LogoutRevoking(hash, s.tokens[hash]));
      var revoked := Next(read, LogoutRevoke(0, now));
      assert revoked == Goto(s.(tokens := s.tokens[hash := s.tokens[hash].(revokedAt := Some(now))]), 0,
                             LogoutEnding(s.tokens[hash].session));
    }
  }

  // ---- What the walk achieves ----

  ghost function Newer(tokens: map<Hash, Token>, g: Hash, h: Hash): set<Hash>
    requires g in tokens
  {
    set k | k in tokens && tokens[k].session == tokens[g].session && g <= k <= h
  }

  lemma NextInSession(s: State, g: Hash, h: Hash)
    requires Linked(s) && Chained(s)
    requires g in s.tokens && h in s.tokens && s.tokens[g].session == s.tokens[h].session && g < h
    ensures var next := s.tokens[g].replacedBy;
            next.Some? && next.value in s.tokens && g < next.value <= h
                && s.tokens[next.value].session == s.tokens[h].session
    ensures |Newer(s.tokens, s.tokens[g].replacedBy.value, h)| < |Newer(s.tokens, g, h)|
  {
    var next := s.tokens[g].replacedBy.value;
    assert g in Newer(s.tokens, g, h);
    SubsetSize(Newer(s.tokens, next, h), Newer(s.tokens, g, h) - {g});
  }

  lemma NewerHasItself(tokens: map<Hash, Token>, g: Hash, h: Hash)
    requires g in tokens && g <= h
    ensures |Newer(tokens, g, h)| > 0
  {
    assert g in Newer(tokens, g, h);
  }

  // The walk from `g` reaches every newer token of the session within its hop limit.
  lemma {:induction false} WalkReaches(s: State, g: Hash, h: Hash, seen: set<Hash>, hops: nat)
    requires Linked(s) && Chained(s)
    requires g in s.tokens && h in s.tokens && s.tokens[g].session == s.tokens[h].session && g <= h
    requires forall k :: k in seen ==> k < g
    requires hops + |Newer(s.tokens, g, h)| <= MAX_HOPS
    ensures h in Walk(s.tokens, Some(g), seen, hops)
    decreases h - g
  {
    NewerHasItself(s.tokens, g, h);
    if g < h {
      NextInSession(s, g, h);
      WalkReaches(s, s.tokens[g].replacedBy.value, h, seen + {g}, hops + 1);
    }
  }

  lemma {:induction false} SubsetSize<T>(a: set<T>, b: set<T>)
    requires a <= b
    ensures |a| <= |b|
  {
    if a != {} {
      var x :| x in a;
      SubsetSize(a - {x}, b - {x});
    }
  }

  lemma {:induction false} WalkStaysInSession(s: State, g: Hash, next: Option<Hash>, seen: set<Hash>, hops: nat,
                                              h: Hash)
    requires Inv(s) && g in s.tokens && s.tokens[g].replacedBy == next
    requires h in Walk(s.tokens, next, seen, hops)
    ensures h in s.tokens && s.tokens[h].session == s.tokens[g].session && g < h
    decreases s.tokens.Keys - seen
  {
    if h != next.value {
      WalkStaysInSession(s, next.value, s.tokens[next.value].replacedBy, seen + {next.value}, hops + 1, h);
    }
  }

  ghost predicate RefreshInFlight(s: State, session: SessionId) {
    exists r :: r in s.flights && s.flights[r].Issuing? && s.flights[r].session == session
  }

  ghost function SessionTokens(tokens: map<Hash, Token>, session: SessionId): set<Hash> {
    set k | k in tokens && tokens[k].session == session
  }

  /** The state after a token presented again has had its family revoked. */
  ghost function AfterReplay(s: State, replayed: Hash, now: Time): State
    requires replayed in s.tokens
  {
    s.(tokens := RevokeLive(s.tokens, Walk(s.tokens, s.tokens[replayed].replacedBy, {}, 0), now))
  }

  /**
   * Replaying a rotated token: a walk that nothing interrupts revokes every live token of its session and touches no
   * token of another session, in any reachable state whose session chain has at most 10,000 tokens.
   */
  lemma ReplayRevokesTheFamily(s: State, replayed: Hash, now: Time, h: Hash)
    requires Inv(s) && replayed in s.tokens && s.tokens[replayed].replacedBy.Some? && h in s.tokens
    requires |SessionTokens(s.tokens, s.tokens[replayed].session)| <= MAX_HOPS
    ensures var after := AfterReplay(s, replayed, now).tokens;
            if s.tokens[h].session == s.tokens[replayed].session then !Live(after[h]) else after[h] == s.tokens[h]
  {
    var next := s.tokens[replayed].replacedBy;
    if s.tokens[h].session == s.tokens[replayed].session {
      if Live(s.tokens[h]) {
        LiveIsLast(s, h);
        assert replayed < h;
        SubsetSize(Newer(s.tokens, next.value, h), SessionTokens(s.tokens, s.tokens[replayed].session));
        WalkReaches(s, next.value, h, {}, 0);
      }
    } else if h in Walk(s.tokens, next, {}, 0) {
      WalkStaysInSession(s, replayed, next, {}, 0, h);
    }
  }

  ghost predicate NoHolder(s: State, session: SessionId) {
    forall x: Holder :: !Holds(s, x, session)
  }

  lemma QuietFamilyDies(s: State, replayed: Hash, now: Time)
    requires Inv(s) && replayed in s.tokens && s.tokens[replayed].replacedBy.Some?
    requires |SessionTokens(s.tokens, s.tokens[replayed].session)| <= MAX_HOPS
    requires !RefreshInFlight(s, s.tokens[replayed].session)
    ensures NoHolder(AfterReplay(s, replayed, now), s.tokens[replayed].session)
  {
    var session, after := s.tokens[replayed].session, AfterReplay(s, replayed, now);
    forall x: Holder
      ensures !Holds(after, x, session)
    {
      if x.LiveToken? && x.hash in s.tokens && s.tokens[x.hash].session == session {
        ReplayRevokesTheFamily(s, replayed, now, x.hash);
      }
    }
  }

  /**
   * For a walk that nothing interrupts the hypothesis on refreshes in flight is exact: afterwards the session has no
   * holder left, neither a live token nor one about to be created, if and only if no refresh of it was between its swap
   * and its create. AuthReplay lets other steps in between.
   */
  lemma FamilyIsDeadIffNothingInFlight(s: State, replayed: Hash, now: Time)
    requires Inv(s) && replayed in s.tokens && s.tokens[replayed].replacedBy.Some?
    requires |SessionTokens(s.tokens, s.tokens[replayed].session)| <= MAX_HOPS
    ensures NoHolder(AfterReplay(s, replayed, now), s.tokens[replayed].session)
       <==> !RefreshInFlight(s, s.tokens[replayed].session)
  {
    var session := s.tokens[replayed].session;
    if RefreshInFlight(s, session) {
      var r :| r in s.flights && s.flights[r].Issuing? && s.flights[r].session == session;
      assert Holds(AfterReplay(s, replayed, now), PendingToken(r), session);
    } else {
      QuietFamilyDies(s, replayed, now);
    }
  }
}
