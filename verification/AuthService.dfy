/** The auth service and its middleware, working on the token tables statement by statement. */
module AuthService {
  import opened Prelude
  import opened Sessions
  import opened SessionChains

  class Service {
    var now: int
    var tokens: map<Hash, Token>
    var resets: map<Hash, ResetToken>
    var issued: set<Claims>
    ghost var chains: map<SessionId, Chain>
    ghost var minted: set<Hash>

    ghost function St(): State
      reads this
    {
      State(now, tokens, resets, issued, chains, minted)
    }

    /** A database that may hold refresh tokens from before sessions existed. */
    constructor (legacy: map<Hash, Token>)
      requires forall h | h in legacy :: legacy[h].sessionId.None?
      ensures Sessions.Init(St()) && tokens == legacy && Inv(St())
    {
      now, tokens, resets, issued, chains, minted := 0, legacy, map[], {}, map[], legacy.Keys;
      new;
      InitHolds(St());
    }

    /** `create`: one row, and the access token that goes with it. */
    method Issue(tenantId: string, userId: string, sessionId: SessionId, h: Hash)
      modifies this`tokens, this`issued, this`chains, this`minted
      ensures St() == if sessionId in old(chains) then ExtendSession(old(St()), tenantId, userId, sessionId, h)
                      else StartSession(old(St()), tenantId, userId, sessionId, h)
    {
      tokens := tokens[h := Token(tenantId, userId, now + REFRESH_LIFETIME, None, now, Some(sessionId))];
      issued := issued + {Claims(userId, tenantId, sessionId)};
      ghost var chain := if sessionId in chains then chains[sessionId].(hashes := chains[sessionId].hashes + [h])
                   else Chain(tenantId, userId, [h]);
      chains := chains[sessionId := chain];
      minted := minted + {h};
    }

    /** `updateMany`: stamps every row of the set. */
    method RevokeRows(rows: set<Hash>)
      requires rows <= tokens.Keys
      modifies this`tokens
      ensures St() == Revoke(old(St()), rows)
    {
      ghost var before := tokens;
      var left := rows;
      while left != {}
        invariant left <= rows && tokens.Keys == before.Keys
        invariant forall h | h in before ::
                    tokens[h] == if h in rows - left then before[h].(revokedAt := Some(now)) else before[h]
        decreases |left|
      {
        var h :| h in left;
        tokens := tokens[h := tokens[h].(revokedAt := Some(now))];
        left := left - {h};
      }
      assert tokens == Revoke(old(St()), rows).tokens;
    }

    method RevokeUserRows(userId: string, keep: Option<SessionId>) returns (count: nat)
      modifies this`tokens
      ensures St() == Revoke(old(St()), UserRows(old(St()), userId, keep))
      ensures count == |UserRows(old(St()), userId, keep)|
    {
      var rows := set h | h in tokens && tokens[h].userId == userId && tokens[h].revokedAt.None?
                          && (keep.None? || tokens[h].sessionId != keep);
      assert rows == UserRows(St(), userId, keep);
      RevokeRows(rows);
      return |rows|;
    }

    method RevokeSessionRows(sessionId: SessionId, userId: string, tenantId: string) returns (count: nat)
      modifies this`tokens
      ensures St() == Revoke(old(St()), SessionRows(old(St()), sessionId, userId, tenantId))
      ensures count == |SessionRows(old(St()), sessionId, userId, tenantId)|
    {
      var rows := set h | h in tokens && InSession(tokens[h], sessionId, userId, tenantId) && tokens[h].revokedAt.None?;
      assert rows == SessionRows(St(), sessionId, userId, tenantId);
      RevokeRows(rows);
      return |rows|;
    }

    method Login(tenantId: string, userId: string, account: bool, newSession: SessionId, newHash: Hash)
      returns (answer: Answer)
      requires Possible(St(), Step.Login(tenantId, userId, account, newSession, newHash))
      modifies this
      ensures var step := Step.Login(tenantId, userId, account, newSession, newHash);
              St() == Apply(old(St()), step) && answer == Reply(old(St()), step)
      ensures old(Inv(St())) ==> Inv(St())
    {
      if Inv(St()) {
        StepKeeps(St(), Step.Login(tenantId, userId, account, newSession, newHash));
      }
      if !account {
        return Refused(ACCOUNT_REFUSED);
      }
      Issue(tenantId, userId, newSession, newHash);
      return SignedIn(Claims(userId, tenantId, newSession));
    }

    method Refresh(h: Hash, account: bool, newSession: SessionId, newHash: Hash) returns (answer: Answer)
      requires Possible(St(), Step.Refresh(h, account, newSession, newHash))
      modifies this
      ensures var step := Step.Refresh(h, account, newSession, newHash);
              St() == Apply(old(St()), step) && answer == Reply(old(St()), step)
      ensures old(Inv(St())) ==> Inv(St())
    {
      if Inv(St()) {
        StepKeeps(St(), Step.Refresh(h, account, newSession, newHash));
      }
      if h !in tokens {
        return Refused(INVALID_REFRESH_TOKEN);
      }
      var stored := tokens[h];
      if stored.expiresAt < now {
        return Refused(REFRESH_TOKEN_EXPIRED);
      }
      if stored.revokedAt.Some? {
        if stored.sessionId.Some? {
          var _ := RevokeSessionRows(stored.sessionId.value, stored.userId, stored.tenantId);
        } else {
          var _ := RevokeUserRows(stored.userId, None);
        }
        return Refused(REFRESH_TOKEN_REVOKED);
      }
      if !account {
        return Refused(ACCOUNT_REFUSED);
      }
      var sessionId := if stored.sessionId.Some? then stored.sessionId.value else newSession;
      RevokeRows({h});
      Issue(stored.tenantId, stored.userId, sessionId, newHash);
      return SignedIn(Claims(stored.userId, stored.tenantId, sessionId));
    }

    method Logout(presented: Option<Hash>) returns (answer: Answer)
      modifies this
      ensures St() == Apply(old(St()), Step.Logout(presented)) && answer == Done
      ensures old(Inv(St())) ==> Inv(St())
    {
      if Inv(St()) {
        StepKeeps(St(), Step.Logout(presented));
      }
      if presented.Some? {
        var h := presented.value;
        if h in tokens {
          RevokeRows({h});
        }
      }
      return Done;
    }

    method RevokeSession(userId: string, tenantId: string, sessionId: SessionId) returns (answer: Answer)
      modifies this
      ensures var step := Step.RevokeSession(userId, tenantId, sessionId);
              St() == Apply(old(St()), step) && answer == Reply(old(St()), step)
      ensures old(Inv(St())) ==> Inv(St())
    {
      if Inv(St()) {
        StepKeeps(St(), Step.RevokeSession(userId, tenantId, sessionId));
      }
      var count := RevokeSessionRows(sessionId, userId, tenantId);
      if count == 0 {
        return Refused(SESSION_NOT_FOUND);
      }
      return Revoked(count);
    }

    method LogoutAll(userId: string) returns (answer: Answer)
      modifies this
      ensures var step := Step.LogoutAll(userId); St() == Apply(old(St()), step) && answer == Reply(old(St()), step)
      ensures old(Inv(St())) ==> Inv(St())
    {
      if Inv(St()) {
        StepKeeps(St(), Step.LogoutAll(userId));
      }
      var count := RevokeUserRows(userId, None);
      return Revoked(count);
    }

    method ChangePassword(userId: string, sessionId: SessionId, account: bool) returns (answer: Answer)
      modifies this
      ensures var step := Step.ChangePassword(userId, sessionId, account);
              St() == Apply(old(St()), step) && answer == Reply(old(St()), step)
      ensures old(Inv(St())) ==> Inv(St())
    {
      if Inv(St()) {
        StepKeeps(St(), Step.ChangePassword(userId, sessionId, account));
      }
      if !account {
        return Refused(ACCOUNT_REFUSED);
      }
      var count := RevokeUserRows(userId, Some(sessionId));
      return Revoked(count);
    }

    /** A reset link; its token lives for an hour. */
    method ForgotPassword(tenantId: string, userId: string, account: bool, newHash: Hash) returns (answer: Answer)
      requires Possible(St(), Step.ForgotPassword(tenantId, userId, account, newHash))
      modifies this
      ensures St() == Apply(old(St()), Step.ForgotPassword(tenantId, userId, account, newHash)) && answer == Done
      ensures old(Inv(St())) ==> Inv(St())
    {
      if Inv(St()) {
        StepKeeps(St(), Step.ForgotPassword(tenantId, userId, account, newHash));
      }
      if account {
        resets := resets[newHash := ResetToken(tenantId, userId, now + RESET_LIFETIME, None)];
        minted := minted + {newHash};
      }
      return Done;
    }

    method ResetPassword(h: Hash) returns (answer: Answer)
      modifies this
      ensures var step := Step.ResetPassword(h); St() == Apply(old(St()), step) && answer == Reply(old(St()), step)
      ensures old(Inv(St())) ==> Inv(St())
    {
      if Inv(St()) {
        StepKeeps(St(), Step.ResetPassword(h));
      }
      if h !in resets {
        return Refused(INVALID_RESET_TOKEN);
      }
      var stored := resets[h];
      if stored.expiresAt < now {
        return Refused(RESET_TOKEN_EXPIRED);
      }
      if stored.usedAt.Some? {
        return Refused(RESET_TOKEN_USED);
      }
      resets := resets[h := stored.(usedAt := Some(now))];
      var _ := RevokeUserRows(stored.userId, None);
      return Done;
    }

    /** The middleware: an access token is good while its session holds a live refresh token. */
    method Authenticate(claims: Claims, verified: bool, account: bool) returns (answer: Answer)
      ensures answer == Reply(St(), Step.Authenticate(claims, verified, account))
    {
      if !verified || claims !in issued {
        return Refused(INVALID_TOKEN);
      }
      var rows := set h | h in tokens && tokens[h].sessionId == Some(claims.sessionId) && tokens[h].userId == claims.sub
                          && tokens[h].revokedAt.None? && tokens[h].expiresAt > now;
      assert rows == set h | h in St().tokens && ActiveToken(St(), h, claims.sessionId, claims.sub);
      assert |rows| > 0 <==> SessionActive(St(), claims.sessionId, claims.sub) by {
        if SessionActive(St(), claims.sessionId, claims.sub) {
          var h :| h in tokens && ActiveToken(St(), h, claims.sessionId, claims.sub);
          assert h in rows;
        }
        if |rows| > 0 {
          var h :| h in rows;
          assert ActiveToken(St(), h, claims.sessionId, claims.sub);
        }
      }
      if !(|rows| > 0) {
        return Refused(SESSION_REVOKED);
      }
      if !account {
        return Refused(ACCOUNT_REFUSED);
      }
      return Done;
    }

    method DeleteExpiredTokens(tenant: Option<string>)
      modifies this`tokens
      ensures tokens == CleanupStep(old(St()), tenant).tokens
    {
      tokens := map h | h in tokens && !(tokens[h].expiresAt < now && OfTenant(tokens[h].tenantId, tenant)) ::
          tokens[h];
    }

    method DeleteResets(tenant: Option<string>)
      modifies this`resets
      ensures resets == CleanupStep(old(St()), tenant).resets
    {
      resets := map h | h in resets && !(resets[h].expiresAt < now && OfTenant(resets[h].tenantId, tenant)) ::
          resets[h];
      var thirtyDaysAgo := now - USED_TOKEN_AGE;
      resets := map h | h in resets && !(resets[h].usedAt.Some? && resets[h].usedAt.value < thirtyDaysAgo
                                         && OfTenant(resets[h].tenantId, tenant)) :: resets[h];
    }

    /** The token part of the cleanup job: one `deleteMany` after another. */
    method CleanupExpired(tenant: Option<string>)
      modifies this
      ensures St() == Apply(old(St()), Cleanup(tenant))
      ensures old(Inv(St())) ==> Inv(St())
    {
      if Inv(St()) {
        StepKeeps(St(), Cleanup(tenant));
      }
      DeleteExpiredTokens(tenant);
      DeleteResets(tenant);
    }
  }
}
