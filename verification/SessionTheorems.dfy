/** What the session machine promises over whole runs. `Inv` holds in every reachable state (SessionChains.RunKeeps). */
module SessionTheorems {
  import opened Prelude
  import opened Sessions
  import opened SessionChains

  predicate Accepted(s: State, claims: Claims) {
    claims in s.issued && SessionActive(s, claims.sessionId, claims.sub)
  }

  /** Some unrevoked token of the session could still be refreshed; it may expire this very instant. */
  predicate Refreshable(s: State, sessionId: SessionId) {
    exists h | h in s.tokens :: s.tokens[h].sessionId == Some(sessionId) && Live(s, h) && s.now <= s.tokens[h].expiresAt
  }

  lemma ActiveIsRefreshable(s: State, sessionId: SessionId, userId: string)
    requires SessionActive(s, sessionId, userId)
    ensures Refreshable(s, sessionId)
  {
    var h :| h in s.tokens && ActiveToken(s, h, sessionId, userId);
  }

  // ---- rotation ----

  /** In a reachable state a session's tokens share tenant and user, at most one is unrevoked, and none is newer. */
  lemma OneLiveToken(s: State, a: Hash, b: Hash, sessionId: SessionId)
    requires Inv(s) && a in s.tokens && b in s.tokens
    requires s.tokens[a].sessionId == Some(sessionId) && s.tokens[b].sessionId == Some(sessionId)
    ensures s.tokens[a].userId == s.tokens[b].userId && s.tokens[a].tenantId == s.tokens[b].tenantId
    ensures Live(s, a) && Live(s, b) ==> a == b
    ensures Live(s, a) ==> s.tokens[b].createdAt <= s.tokens[a].createdAt
  {
    assert OnChain(s, a, sessionId) && OnChain(s, b, sessionId) && ChainOk(s, sessionId);
    var hs := s.chains[sessionId].hashes;
    var j :| 0 <= j < |hs| && hs[j] == b;
    if Live(s, a) {
      assert hs[|hs| - 1] == a;
    }
  }

  /** Only the newest token of a session rotates: it is revoked, and one new token joins the end of the chain. */
  lemma RefreshExtendsTheChain(s: State, h: Hash, newSession: SessionId, newHash: Hash)
    requires Inv(s) && var step := Refresh(h, true, newSession, newHash); Possible(s, step) && Reply(s, step).SignedIn?
    ensures var t := Apply(s, Refresh(h, true, newSession, newHash));
            var sessionId := RefreshedSession(s, h, newSession);
            && sessionId in t.chains
            && t.chains[sessionId].hashes
                == (if sessionId in s.chains then s.chains[sessionId].hashes else []) + [newHash]
            && (s.tokens[h].sessionId.Some? ==> sessionId in s.chains && h == Newest(s.chains[sessionId]))
            && h in t.tokens && !Live(t, h)
  {
    if s.tokens[h].sessionId.Some? {
      assert OnChain(s, h, s.tokens[h].sessionId.value);
    }
  }

  /** … and that token is then the session's one live token, which makes the session active. */
  lemma RefreshedSessionIsActive(s: State, h: Hash, newSession: SessionId, newHash: Hash)
    requires Inv(s) && var step := Refresh(h, true, newSession, newHash); Possible(s, step) && Reply(s, step).SignedIn?
    ensures var t := Apply(s, Refresh(h, true, newSession, newHash));
            var sessionId := RefreshedSession(s, h, newSession);
            && (forall x | x in t.tokens && t.tokens[x].sessionId == Some(sessionId) :: Live(t, x) <==> x == newHash)
            && SessionActive(t, sessionId, s.tokens[h].userId)
  {
    var step := Refresh(h, true, newSession, newHash);
    var t := Apply(s, step);
    var sessionId := RefreshedSession(s, h, newSession);
    StepKeeps(s, step);
    assert ActiveToken(t, newHash, sessionId, s.tokens[h].userId);
    forall x | x in t.tokens && t.tokens[x].sessionId == Some(sessionId) ensures Live(t, x) <==> x == newHash {
      OneLiveToken(t, x, newHash, sessionId);
    }
  }

  /** An accepted access token names the user and tenant of the session's one live row. */
  lemma AcceptedClaimsMatchTheRow(s: State, claims: Claims) returns (h: Hash)
    requires Inv(s) && Reply(s, Authenticate(claims, true, true)) == Done
    ensures h in s.tokens && Live(s, h) && s.tokens[h].expiresAt > s.now
    ensures InSession(s.tokens[h], claims.sessionId, claims.sub, claims.tenantId)
    ensures forall x | x in s.tokens && s.tokens[x].sessionId == Some(claims.sessionId) && Live(s, x) :: x == h
  {
    h :| h in s.tokens && ActiveToken(s, h, claims.sessionId, claims.sub);
    assert OnChain(s, h, claims.sessionId) && ClaimsOk(s, claims);
    forall x | x in s.tokens && s.tokens[x].sessionId == Some(claims.sessionId) && Live(s, x) ensures x == h {
      OneLiveToken(s, x, h, claims.sessionId);
    }
  }

  // ---- ended sessions stay ended ----

  lemma EndedStep(s: State, step: Step, sessionId: SessionId)
    requires sessionId in s.chains && !Refreshable(s, sessionId)
    ensures sessionId in Apply(s, step).chains && !Refreshable(Apply(s, step), sessionId)
  {
    var t := Apply(s, step);
    forall h | h in t.tokens && t.tokens[h].sessionId == Some(sessionId) && Live(t, h)
      ensures t.tokens[h].expiresAt < t.now
    {
      assert h in s.tokens && s.tokens[h].sessionId == Some(sessionId) && Live(s, h);
    }
  }

  /** A session without a refreshable token is never active again, whatever happens next. */
  lemma {:induction false} EndedStaysEnded(s: State, steps: seq<Step>, sessionId: SessionId)
    requires sessionId in s.chains && !Refreshable(s, sessionId)
    ensures !Refreshable(Exec(s, steps), sessionId)
    ensures forall userId :: !SessionActive(Exec(s, steps), sessionId, userId)
    decreases |steps|
  {
    if steps == [] {
      forall userId ensures !SessionActive(s, sessionId, userId) {
        if SessionActive(s, sessionId, userId) {
          ActiveIsRefreshable(s, sessionId, userId);
        }
      }
    } else {
      EndedStep(s, steps[0], sessionId);
      EndedStaysEnded(Apply(s, steps[0]), steps[1..], sessionId);
    }
  }

  // ---- signing out ----

  /** Revoking every row of a session, or of its user, ends it for good. */
  lemma RevokedForGood(s: State, rows: set<Hash>, claims: Claims, steps: seq<Step>)
    requires Inv(s) && claims in s.issued
    requires forall h | h in s.tokens && s.tokens[h].sessionId == Some(claims.sessionId) && Live(s, h) :: h in rows
    ensures claims.sessionId in Revoke(s, rows).chains && !Refreshable(Revoke(s, rows), claims.sessionId)
    ensures !Accepted(Exec(Revoke(s, rows), steps), claims)
  {
    assert ClaimsOk(s, claims);
    EndedStaysEnded(Revoke(s, rows), steps, claims.sessionId);
  }

  lemma UserRowsCoverSessions(s: State, claims: Claims, keep: Option<SessionId>)
    requires Inv(s) && claims in s.issued && keep != Some(claims.sessionId)
    ensures forall h | h in s.tokens && s.tokens[h].sessionId == Some(claims.sessionId) && Live(s, h) ::
              h in UserRows(s, claims.sub, keep)
  {
    assert ClaimsOk(s, claims);
    forall h | h in s.tokens && s.tokens[h].sessionId == Some(claims.sessionId) && Live(s, h)
      ensures h in UserRows(s, claims.sub, keep)
    {
      assert OnChain(s, h, claims.sessionId);
    }
  }

  /** After a password change from one session, no access token the user got for another session ever works again. */
  lemma ChangePasswordSignsOutOthers(s: State, userId: string, sessionId: SessionId, claims: Claims, steps: seq<Step>)
    requires Inv(s) && claims in s.issued && claims.sub == userId && claims.sessionId != sessionId
    ensures !Accepted(Exec(Apply(s, ChangePassword(userId, sessionId, true)), steps), claims)
  {
    UserRowsCoverSessions(s, claims, Some(sessionId));
    RevokedForGood(s, UserRows(s, userId, Some(sessionId)), claims, steps);
  }

  /** … while the caller's session keeps every row, and other users keep their sessions. */
  lemma ChangePasswordKeepsTheCaller(s: State, userId: string, sessionId: SessionId, h: Hash)
    requires h in s.tokens && (s.tokens[h].sessionId == Some(sessionId) || s.tokens[h].userId != userId)
    ensures var t := Apply(s, ChangePassword(userId, sessionId, true));
            && t.tokens[h] == s.tokens[h]
            && SessionActive(t, sessionId, userId) == SessionActive(s, sessionId, userId)
  {
    var t := Apply(s, ChangePassword(userId, sessionId, true));
    if SessionActive(s, sessionId, userId) {
      var x :| x in s.tokens && ActiveToken(s, x, sessionId, userId);
      assert ActiveToken(t, x, sessionId, userId);
    }
    if SessionActive(t, sessionId, userId) {
      var x :| x in t.tokens && ActiveToken(t, x, sessionId, userId);
      assert ActiveToken(s, x, sessionId, userId);
    }
  }

  lemma LogoutAllSignsOutEverywhere(s: State, userId: string, claims: Claims, steps: seq<Step>)
    requires Inv(s) && claims in s.issued && claims.sub == userId
    ensures !Accepted(Exec(Apply(s, LogoutAll(userId)), steps), claims)
  {
    UserRowsCoverSessions(s, claims, None);
    RevokedForGood(s, UserRows(s, userId, None), claims, steps);
  }

  lemma ResetPasswordSignsOutEverywhere(s: State, reset: Hash, claims: Claims, steps: seq<Step>)
    requires Inv(s) && Reply(s, ResetPassword(reset)) == Done
    requires claims in s.issued && claims.sub == s.resets[reset].userId
    ensures !Accepted(Exec(Apply(s, ResetPassword(reset)), steps), claims)
  {
    UserRowsCoverSessions(s, claims, None);
    RevokedForGood(s, UserRows(s, claims.sub, None), claims, []);
    assert Refreshable(Apply(s, ResetPassword(reset)), claims.sessionId)
           ==> Refreshable(Revoke(s, UserRows(s, claims.sub, None)), claims.sessionId);
    EndedStaysEnded(Apply(s, ResetPassword(reset)), steps, claims.sessionId);
  }

  /** Revoking a listed session ends it for good; a session of another user or tenant is answered 404 and untouched. */
  lemma RevokeSessionEndsIt(s: State, claims: Claims, userId: string, tenantId: string, steps: seq<Step>)
    requires Inv(s) && claims in s.issued
    ensures var step := RevokeSession(userId, tenantId, claims.sessionId);
            if claims.sub == userId && claims.tenantId == tenantId
            then !Accepted(Exec(Apply(s, step), steps), claims)
            else Apply(s, step) == s && Reply(s, step) == Refused(SESSION_NOT_FOUND)
  {
    assert ClaimsOk(s, claims);
    forall h | h in s.tokens && s.tokens[h].sessionId == Some(claims.sessionId)
      ensures InSession(s.tokens[h], claims.sessionId, claims.sub, claims.tenantId)
    {
      assert OnChain(s, h, claims.sessionId);
    }
    var rows := SessionRows(s, claims.sessionId, userId, tenantId);
    if claims.sub == userId && claims.tenantId == tenantId {
      RevokedForGood(s, rows, claims, steps);
    } else {
      assert rows == {};
      assert Revoke(s, rows) == s;
    }
  }

  // ---- which sessions a revocation reaches ----

  /** Revoking rows outside a session leaves the activity of that session as it was. */
  lemma ActivityFrame(s: State, rows: set<Hash>, sessionId: SessionId, userId: string)
    requires forall h | h in rows && h in s.tokens && Live(s, h) ::
               s.tokens[h].sessionId != Some(sessionId) || s.tokens[h].userId != userId
    ensures SessionActive(Revoke(s, rows), sessionId, userId) == SessionActive(s, sessionId, userId)
  {
    var t := Revoke(s, rows);
    if SessionActive(s, sessionId, userId) {
      var h :| h in s.tokens && ActiveToken(s, h, sessionId, userId);
      assert ActiveToken(t, h, sessionId, userId);
    }
    if SessionActive(t, sessionId, userId) {
      var h :| h in t.tokens && ActiveToken(t, h, sessionId, userId);
      assert ActiveToken(s, h, sessionId, userId);
    }
  }

  /** Replaying a rotated token ends its session for good and no other. */
  lemma ReplayEndsExactlyItsSession(s: State, h: Hash, account: bool, newSession: SessionId, newHash: Hash,
                                    steps: seq<Step>)
    requires Inv(s) && CaseOf(s, h, account).Replay? && s.tokens[h].sessionId.Some?
    requires Possible(s, Refresh(h, account, newSession, newHash))
    ensures var t := Apply(s, Refresh(h, account, newSession, newHash));
            var ended := s.tokens[h].sessionId.value;
            && !Refreshable(Exec(t, steps), ended)
            && (forall userId :: !SessionActive(Exec(t, steps), ended, userId))
            && (forall other, userId | other != ended ::
                SessionActive(t, other, userId) == SessionActive(s, other, userId))
  {
    var token := s.tokens[h];
    var ended := token.sessionId.value;
    var rows := SessionRows(s, ended, token.userId, token.tenantId);
    var t := Apply(s, Refresh(h, account, newSession, newHash));
    assert t == Revoke(s, rows);
    forall x | x in s.tokens && s.tokens[x].sessionId == Some(ended) && Live(s, x) ensures x in rows {
      OneLiveToken(s, x, h, ended);
    }
    assert OnChain(s, h, ended);
    EndedStaysEnded(t, steps, ended);
    forall other, userId | other != ended ensures SessionActive(t, other, userId) == SessionActive(s, other, userId) {
      ActivityFrame(s, rows, other, userId);
    }
  }

  /** Replaying a token from before sessions existed ends every session of its user and of nobody else. */
  lemma LegacyReplayEndsTheUser(s: State, h: Hash, account: bool, newSession: SessionId, newHash: Hash)
    requires Inv(s) && CaseOf(s, h, account).Replay? && s.tokens[h].sessionId.None?
    requires Possible(s, Refresh(h, account, newSession, newHash))
    ensures var t := Apply(s, Refresh(h, account, newSession, newHash));
            forall sessionId, userId ::
              SessionActive(t, sessionId, userId)
              <==> SessionActive(s, sessionId, userId) && userId != s.tokens[h].userId
  {
    var user := s.tokens[h].userId;
    var t := Apply(s, Refresh(h, account, newSession, newHash));
    assert t == Revoke(s, UserRows(s, user, None));
    forall sessionId, userId
      ensures SessionActive(t, sessionId, userId) <==> SessionActive(s, sessionId, userId) && userId != user
    {
      if userId != user {
        ActivityFrame(s, UserRows(s, user, None), sessionId, userId);
      } else {
        assert forall x | x in t.tokens :: !ActiveToken(t, x, sessionId, userId);
      }
    }
  }

  /** Logging out with the live token ends its session for good; any other token changes no session's activity. */
  lemma LogoutEndsTheLiveSession(s: State, h: Hash, steps: seq<Step>)
    requires Inv(s) && h in s.tokens
    ensures var t := Apply(s, Logout(Some(h)));
            && (Live(s, h) && s.tokens[h].sessionId.Some? ==>
                  !Refreshable(Exec(t, steps), s.tokens[h].sessionId.value))
            && (forall other, userId | !Live(s, h) || s.tokens[h].sessionId != Some(other) ::
                  SessionActive(t, other, userId) == SessionActive(s, other, userId))
  {
    var t := Apply(s, Logout(Some(h)));
    if Live(s, h) && s.tokens[h].sessionId.Some? {
      var ended := s.tokens[h].sessionId.value;
      assert OnChain(s, h, ended);
      forall x | x in t.tokens && t.tokens[x].sessionId == Some(ended) ensures !Live(t, x) {
        OneLiveToken(s, x, h, ended);
      }
      EndedStaysEnded(t, steps, ended);
    }
    forall other, userId | !Live(s, h) || s.tokens[h].sessionId != Some(other)
      ensures SessionActive(t, other, userId) == SessionActive(s, other, userId)
    {
      ActivityFrame(s, {h}, other, userId);
    }
  }

  // ---- theft detection ----

  lemma RevokedRowStep(s: State, step: Step, h: Hash)
    requires Inv(s) && h in s.tokens && !Live(s, h)
    ensures var t := Apply(s, step);
            t.now <= s.tokens[h].expiresAt ==>
              h in t.tokens && !Live(t, h) && t.tokens[h].sessionId == s.tokens[h].sessionId
              && t.tokens[h].expiresAt == s.tokens[h].expiresAt
  {
    if step.Login? || step.Refresh? {
      assert h in s.minted;
    }
  }

  lemma {:induction false} ClockRuns(s: State, steps: seq<Step>)
    ensures s.now <= Exec(s, steps).now
    decreases |steps|
  {
    if steps != [] {
      ClockRuns(Apply(s, steps[0]), steps[1..]);
    }
  }

  /** A revoked row stays, revoked, until it has expired. */
  lemma {:induction false} RevokedRowStays(s: State, steps: seq<Step>, h: Hash)
    requires Inv(s) && h in s.tokens && !Live(s, h) && Exec(s, steps).now <= s.tokens[h].expiresAt
    ensures var t := Exec(s, steps);
            h in t.tokens && !Live(t, h) && t.tokens[h].sessionId == s.tokens[h].sessionId
            && t.tokens[h].expiresAt == s.tokens[h].expiresAt
    decreases |steps|
  {
    if steps != [] {
      StepKeeps(s, steps[0]);
      RevokedRowStep(s, steps[0], h);
      ClockRuns(Apply(s, steps[0]), steps[1..]);
      RevokedRowStays(Apply(s, steps[0]), steps[1..], h);
    }
  }

  lemma FirstUseRevokes(s: State, first: Step)
    requires Inv(s) && first.Refresh? && Reply(s, first).SignedIn?
    ensures var t := Apply(s, first); var h := first.hash;
            h in t.tokens && !Live(t, h) && t.tokens[h].sessionId == s.tokens[h].sessionId
            && t.tokens[h].expiresAt == s.tokens[h].expiresAt && Inv(t)
  {
    StepKeeps(s, first);
  }

  /** A refresh token of a session that is presented twice within its lifetime, with anything in between, is refused the
    * second time, and whoever holds the session's tokens is signed out for good. */
  lemma SecondUseEndsTheSession(s: State, first: Step, between: seq<Step>, second: Step, after: seq<Step>)
    requires Inv(s) && first.Refresh? && second.Refresh? && first.hash == second.hash
    requires Reply(s, first).SignedIn? && s.tokens[first.hash].sessionId.Some?
    requires var t := Exec(Apply(s, first), between);
             Possible(t, second) && t.now <= s.tokens[first.hash].expiresAt
    ensures var t := Exec(Apply(s, first), between);
            && Reply(t, second) == Refused(REFRESH_TOKEN_REVOKED)
            && !Refreshable(Exec(Apply(t, second), after), s.tokens[first.hash].sessionId.value)
  {
    var h := first.hash;
    FirstUseRevokes(s, first);
    RunKeeps(Apply(s, first), between);
    RevokedRowStays(Apply(s, first), between, h);
    ReplayEndsExactlyItsSession(Exec(Apply(s, first), between), h, second.account, second.newSession, second.newHash,
        after);
  }

  // ---- password resets ----

  /** This reset token will never be accepted again. */
  predicate Spent(s: State, h: Hash) {
    h in s.minted && !ResetWorks(s, h)
  }

  lemma SpentStep(s: State, step: Step, h: Hash)
    requires Inv(s) && Spent(s, h)
    ensures Spent(Apply(s, step), h)
  {
  }

  lemma {:induction false} SpentStays(s: State, steps: seq<Step>, h: Hash)
    requires Inv(s) && Spent(s, h)
    ensures Spent(Exec(s, steps), h)
    decreases |steps|
  {
    if steps != [] {
      StepKeeps(s, steps[0]);
      SpentStep(s, steps[0], h);
      SpentStays(Apply(s, steps[0]), steps[1..], h);
    }
  }

  /** A reset link works once: after it was accepted, no run ever accepts it again. */
  lemma ResetWorksOnce(s: State, h: Hash, steps: seq<Step>)
    requires Inv(s) && Reply(s, ResetPassword(h)) == Done
    ensures Reply(Exec(Apply(s, ResetPassword(h)), steps), ResetPassword(h)).Refused?
  {
    StepKeeps(s, ResetPassword(h));
    SpentStays(Apply(s, ResetPassword(h)), steps, h);
  }

  lemma ResetExpiryStep(s: State, step: Step, h: Hash, expiry: int)
    requires Inv(s) && h in s.minted && (h in s.resets ==> s.resets[h].expiresAt <= expiry)
    ensures var t := Apply(s, step); h in t.minted && (h in t.resets ==> t.resets[h].expiresAt <= expiry)
  {
  }

  /** … and for one hour: later than that it is refused in every run. */
  lemma {:induction false} ResetExpires(s: State, steps: seq<Step>, h: Hash, expiry: int)
    requires Inv(s) && h in s.minted && (h in s.resets ==> s.resets[h].expiresAt <= expiry)
    ensures expiry < Exec(s, steps).now ==> Reply(Exec(s, steps), ResetPassword(h)).Refused?
    decreases |steps|
  {
    if steps != [] {
      StepKeeps(s, steps[0]);
      ResetExpiryStep(s, steps[0], h, expiry);
      ResetExpires(Apply(s, steps[0]), steps[1..], h, expiry);
    }
  }

  lemma ResetLinkLastsOneHour(s: State, tenantId: string, userId: string, h: Hash, steps: seq<Step>)
    requires Inv(s) && Possible(s, ForgotPassword(tenantId, userId, true, h))
    requires s.now + RESET_LIFETIME < Exec(Apply(s, ForgotPassword(tenantId, userId, true, h)), steps).now
    ensures Reply(Exec(Apply(s, ForgotPassword(tenantId, userId, true, h)), steps), ResetPassword(h)).Refused?
  {
    var t := Apply(s, ForgotPassword(tenantId, userId, true, h));
    StepKeeps(s, ForgotPassword(tenantId, userId, true, h));
    ResetExpires(t, steps, h, s.now + RESET_LIFETIME);
  }

  lemma ResetWorksStep(s: State, step: Step, h: Hash)
    requires Inv(s) && ResetWorks(s, h) && step != ResetPassword(h)
    ensures var t := Apply(s, step);
            t.now <= s.resets[h].expiresAt ==> ResetWorks(t, h) && t.resets[h].expiresAt == s.resets[h].expiresAt
  {
    assert h in s.minted;
  }

  lemma TooLate(s: State, steps: seq<Step>, h: Hash)
    requires Inv(s) && h in s.minted && !ResetWorks(s, h)
    ensures !ResetWorks(Exec(s, steps), h)
  {
    SpentStays(s, steps, h);
  }

  /** A working link works after a run if and only if it was not used in it and its hour is not over: nothing else,
    * neither a password change nor a reset through another link of the same user, takes it back. */
  lemma {:induction false} ResetStillWorksIff(s: State, steps: seq<Step>, h: Hash)
    requires Inv(s) && ResetWorks(s, h)
    ensures var t := Exec(s, steps);
            Reply(t, ResetPassword(h)) == Done <==> t.now <= s.resets[h].expiresAt && ResetPassword(h) !in steps
    decreases |steps|
  {
    if steps != [] {
      var t, rest := Apply(s, steps[0]), steps[1..];
      StepKeeps(s, steps[0]);
      ClockRuns(t, rest);
      if steps[0] == ResetPassword(h) {
        TooLate(t, rest, h);
      } else {
        ResetWorksStep(s, steps[0], h);
        assert h in s.minted && h in t.minted;
        if ResetWorks(t, h) {
          ResetStillWorksIff(t, rest, h);
        } else {
          TooLate(t, rest, h);
        }
      }
    }
  }

  lemma OneStep(s: State, step: Step)
    ensures Exec(s, [step]) == Apply(s, step)
  {
    assert [step][1..] == [];
    assert Exec(s, [step]) == Exec(Apply(s, step), []);
  }

  /** So a link that was sent before a password change resets the new password. */
  lemma OlderLinksOutliveThePassword(s: State, userId: string, sessionId: SessionId, other: Hash, h: Hash)
    requires Inv(s) && ResetWorks(s, h) && ResetWorks(s, other) && h != other
    ensures Reply(Apply(s, ChangePassword(userId, sessionId, true)), ResetPassword(h)) == Done
    ensures Reply(Apply(s, ResetPassword(other)), ResetPassword(h)) == Done
  {
    ResetStillWorksIff(s, [ChangePassword(userId, sessionId, true)], h);
    ResetStillWorksIff(s, [ResetPassword(other)], h);
    OneStep(s, ChangePassword(userId, sessionId, true));
    OneStep(s, ResetPassword(other));
  }
}
