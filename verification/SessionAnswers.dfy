/** What each auth request is answered and which rows it touches, read off the rows, and who can get tokens. */
module SessionAnswers {
  import opened Prelude
  import opened Sessions
  import opened SessionChains
  import opened SessionTheorems

  // ---- only an accepted account gets tokens ----

  /** A step that may hand out tokens: a login or a refresh whose account was accepted. */
  predicate Accepting(step: Step) {
    (step.Login? || step.Refresh?) && step.account
  }

  /** Every other step adds no refresh token and no access token. */
  lemma OthersGetNothing(s: State, step: Step)
    requires !Accepting(step)
    ensures Apply(s, step).issued == s.issued && Apply(s, step).tokens.Keys <= s.tokens.Keys
  {
  }

  /** A refused account changes nothing with a working token, or at a login, and is told so. */
  lemma RefusedAccount(s: State, h: Hash, tenantId: string, userId: string, newSession: SessionId, newHash: Hash)
    requires newSession !in s.chains && newHash !in s.minted
    ensures var login := Login(tenantId, userId, false, newSession, newHash);
            Apply(s, login) == s && Reply(s, login) == Refused(ACCOUNT_REFUSED)
    ensures h in s.tokens && s.tokens[h].revokedAt.None? && s.now <= s.tokens[h].expiresAt ==>
              var refresh := Refresh(h, false, newSession, newHash);
              Apply(s, refresh) == s && Reply(s, refresh) == Refused(ACCOUNT_REFUSED)
  {
  }

  /** Over runs: an access token or refresh token that is there at the end and was not at the start goes back to a
    * login or refresh in the run whose account was accepted. */
  lemma {:induction false} TokensComeFromAccounts(s: State, steps: seq<Step>, claims: Claims, h: Hash)
    requires forall i | 0 <= i < |steps| :: !Accepting(steps[i])
    ensures claims in Exec(s, steps).issued ==> claims in s.issued
    ensures h in Exec(s, steps).tokens ==> h in s.tokens
    decreases |steps|
  {
    if steps != [] {
      OthersGetNothing(s, steps[0]);
      TokensComeFromAccounts(Apply(s, steps[0]), steps[1..], claims, h);
    }
  }

  /** … namely one that answered it with exactly these claims. */
  lemma {:induction false} ClaimsComeFromAnswers(s: State, steps: seq<Step>, claims: Claims) returns (i: nat)
    requires claims in Exec(s, steps).issued && claims !in s.issued
    ensures i < |steps| && Accepting(steps[i]) && Reply(Exec(s, steps[..i]), steps[i]) == SignedIn(claims)
    decreases |steps|
  {
    var t := Apply(s, steps[0]);
    if claims in t.issued {
      i := 0;
      assert Exec(s, steps[..0]) == s;
    } else {
      i := ClaimsComeFromAnswers(t, steps[1..], claims);
      assert steps[..i + 1][1..] == steps[1..][..i];
      i := i + 1;
    }
  }

  // ---- signing in ----

  /** A fresh row for seven days. */
  predicate IsFreshRow(s: State, t: Token, tenantId: string, userId: string, sessionId: SessionId) {
    && t.tenantId == tenantId && t.userId == userId && t.sessionId == Some(sessionId) && t.revokedAt.None?
    && t.createdAt == s.now && t.expiresAt == s.now + 604_800_000
  }

  /** A login opens a session that is active at once, with one fresh row and one access token; no other row changes. */
  lemma LoginOpensASession(s: State, tenantId: string, userId: string, newSession: SessionId, newHash: Hash)
    requires newSession !in s.chains && newHash !in s.minted
    ensures var step := Login(tenantId, userId, true, newSession, newHash);
            var t := Apply(s, step);
            && Reply(s, step) == SignedIn(Claims(userId, tenantId, newSession))
            && newHash in t.tokens && IsFreshRow(s, t.tokens[newHash], tenantId, userId, newSession)
            && (forall h | h != newHash ::
                  (h in t.tokens <==> h in s.tokens) && (h in t.tokens ==> t.tokens[h] == s.tokens[h]))
            && t.issued == s.issued + {Claims(userId, tenantId, newSession)}
            && SessionActive(t, newSession, userId) && Accepted(t, Claims(userId, tenantId, newSession))
  {
    var t := Apply(s, Login(tenantId, userId, true, newSession, newHash));
    assert ActiveToken(t, newHash, newSession, userId);
  }

  /** What a refresh is answered, in the order of the code's checks: unknown, expired, revoked, account, and only then
    * new tokens, for the row's user and tenant and for its session, or a new one if it has none. */
  lemma RefreshIsAnswered(s: State, h: Hash, account: bool, newSession: SessionId, newHash: Hash)
    requires newSession !in s.chains && newHash !in s.minted
    ensures var answer := Reply(s, Refresh(h, account, newSession, newHash));
            if h !in s.tokens then answer == Refused(INVALID_REFRESH_TOKEN)
            else
              var row := s.tokens[h];
              if row.expiresAt < s.now then answer == Refused(REFRESH_TOKEN_EXPIRED)
              else if row.revokedAt != None then answer == Refused(REFRESH_TOKEN_REVOKED)
              else if !account then answer == Refused(ACCOUNT_REFUSED)
              else answer == SignedIn(Claims(row.userId, row.tenantId,
                                             if row.sessionId == None then newSession else row.sessionId.value))
  {
  }

  /** A successful refresh revokes the presented row, adds one fresh row of the same user, tenant and session, issues
    * one access token, and touches no other row. */
  lemma RefreshSwapsOneRow(s: State, h: Hash, newSession: SessionId, newHash: Hash)
    requires Inv(s) && newSession !in s.chains && newHash !in s.minted
    requires h in s.tokens && s.tokens[h].revokedAt.None? && s.now <= s.tokens[h].expiresAt
    ensures var row := s.tokens[h];
            var t := Apply(s, Refresh(h, true, newSession, newHash));
            var sessionId := if row.sessionId == None then newSession else row.sessionId.value;
            && h in t.tokens && t.tokens[h] == row.(revokedAt := Some(s.now))
            && newHash in t.tokens && IsFreshRow(s, t.tokens[newHash], row.tenantId, row.userId, sessionId)
            && (forall x | x != h && x != newHash ::
                  (x in t.tokens <==> x in s.tokens) && (x in t.tokens ==> t.tokens[x] == s.tokens[x]))
            && t.issued == s.issued + {Claims(row.userId, row.tenantId, sessionId)}
  {
    assert h in s.minted;
  }

  // ---- authenticating ----

  /** A request passes exactly with a verified access token that was issued, an accepted account, and an unrevoked row
    * of its session and user that expires later than now; otherwise it is told the first of these that fails. */
  lemma AuthenticatedIff(s: State, claims: Claims, verified: bool, account: bool)
    ensures var step := Authenticate(claims, verified, account);
            var active := exists h :: h in s.tokens && s.tokens[h].sessionId == Some(claims.sessionId)
                                      && s.tokens[h].userId == claims.sub && s.tokens[h].revokedAt == None
                                      && s.now < s.tokens[h].expiresAt;
            && Apply(s, step) == s
            && Reply(s, step) == (if !verified || claims !in s.issued then Refused(INVALID_TOKEN)
                                  else if !active then Refused(SESSION_REVOKED)
                                  else if !account then Refused(ACCOUNT_REFUSED)
                                  else Done)
  {
    if SessionActive(s, claims.sessionId, claims.sub) {
      var h :| h in s.tokens && ActiveToken(s, h, claims.sessionId, claims.sub);
      assert s.tokens[h].sessionId == Some(claims.sessionId);
    }
    if h :| h in s.tokens && s.tokens[h].sessionId == Some(claims.sessionId) && s.tokens[h].userId == claims.sub
            && s.tokens[h].revokedAt == None && s.now < s.tokens[h].expiresAt {
      assert ActiveToken(s, h, claims.sessionId, claims.sub);
    }
  }

  // ---- which rows a step revokes ----

  /** The rows that a step that hands out nothing revokes. */
  predicate Revokes(s: State, step: Step, h: Hash)
    requires h in s.tokens
  {
    var row := s.tokens[h];
    match step
    case Logout(presented) => presented == Some(h)
    case RevokeSession(userId, tenantId, sessionId) =>
      row.revokedAt == None && row.sessionId == Some(sessionId) && row.userId == userId && row.tenantId == tenantId
    case LogoutAll(userId) => row.revokedAt == None && row.userId == userId
    case ChangePassword(userId, sessionId, account) =>
      account && row.revokedAt == None && row.userId == userId && row.sessionId != Some(sessionId)
    case ResetPassword(reset) =>
      reset in s.resets && s.now <= s.resets[reset].expiresAt && s.resets[reset].usedAt == None
      && row.revokedAt == None && row.userId == s.resets[reset].userId
    case Refresh(used, _, _, _) =>
      used in s.tokens && s.now <= s.tokens[used].expiresAt && s.tokens[used].revokedAt != None && row.revokedAt == None
      && row.userId == s.tokens[used].userId
      && (s.tokens[used].sessionId != None ==>
            row.sessionId == s.tokens[used].sessionId && row.tenantId == s.tokens[used].tenantId)
    case _ => false
  }

  /** Signing out, changing or resetting a password and replaying a token stamp exactly these rows with the time, and
    * leave every other row as it is. */
  lemma RevokesExactly(s: State, step: Step, h: Hash)
    requires h in s.tokens && !step.Cleanup? && !Reply(s, step).SignedIn? && Possible(s, step)
    ensures h in Apply(s, step).tokens
    ensures Apply(s, step).tokens[h]
            == if Revokes(s, step, h) then s.tokens[h].(revokedAt := Some(s.now)) else s.tokens[h]
  {
  }

  /** The answers that count rows count those; revoking a session that has none is answered 404. */
  lemma CountsAreExact(s: State, step: Step)
    requires step.LogoutAll? || step.RevokeSession? || (step.ChangePassword? && step.account)
    ensures var rows := set h | h in s.tokens && Revokes(s, step, h);
            Reply(s, step) == if step.RevokeSession? && rows == {} then Refused(SESSION_NOT_FOUND) else Revoked(|rows|)
  {
    var rows := set h | h in s.tokens && Revokes(s, step, h);
    match step {
      case LogoutAll(userId) => assert rows == UserRows(s, userId, None);
      case ChangePassword(userId, sessionId, _) => assert rows == UserRows(s, userId, Some(sessionId));
      case RevokeSession(userId, tenantId, sessionId) =>
        assert rows == SessionRows(s, sessionId, userId, tenantId);
        assert rows == {} <==> |rows| == 0;
    }
  }

  // ---- password resets ----

  /** A link is made for an accepted account only; it names its user and tenant and lives for one hour. */
  lemma ForgotMakesOneLink(s: State, tenantId: string, userId: string, account: bool, newHash: Hash)
    requires newHash !in s.minted
    ensures var step := ForgotPassword(tenantId, userId, account, newHash);
            var t := Apply(s, step);
            && Reply(s, step) == Done && t.tokens == s.tokens && t.issued == s.issued
            && t.resets == if account then s.resets[newHash := ResetToken(tenantId, userId, s.now + 3_600_000, None)]
                           else s.resets
  {
  }

  /** What a reset is answered, and that only an accepted one changes anything: it marks its own link and no other. */
  lemma ResetIsAnswered(s: State, h: Hash)
    ensures var answer, t := Reply(s, ResetPassword(h)), Apply(s, ResetPassword(h));
            if h !in s.resets then answer == Refused(INVALID_RESET_TOKEN) && t == s
            else if s.resets[h].expiresAt < s.now then answer == Refused(RESET_TOKEN_EXPIRED) && t == s
            else if s.resets[h].usedAt != None then answer == Refused(RESET_TOKEN_USED) && t == s
            else answer == Done && t.resets == s.resets[h := s.resets[h].(usedAt := Some(s.now))]
  {
  }

  /** A link that was asked for works at any time within the hour, whatever happened to the sessions meanwhile. */
  lemma LinkWorksForAnHour(s: State, tenantId: string, userId: string, h: Hash, steps: seq<Step>)
    requires Inv(s) && h !in s.minted && ResetPassword(h) !in steps
    requires Exec(Apply(s, ForgotPassword(tenantId, userId, true, h)), steps).now <= s.now + 3_600_000
    ensures Reply(Exec(Apply(s, ForgotPassword(tenantId, userId, true, h)), steps), ResetPassword(h)) == Done
  {
    var t := Apply(s, ForgotPassword(tenantId, userId, true, h));
    StepKeeps(s, ForgotPassword(tenantId, userId, true, h));
    ClockRuns(t, steps);
    ResetStillWorksIff(t, steps, h);
  }

  // ---- cleanup ----

  /** Exactly the expired refresh rows of the tenant, or of all, are deleted, and the reset rows that have expired or
    * were used more than 30 days ago. */
  lemma CleanupDeletesExactly(s: State, tenant: Option<string>, h: Hash)
    ensures var t := Apply(s, Cleanup(tenant));
            && (h in t.tokens <==>
                  h in s.tokens
                  && !(s.tokens[h].expiresAt < s.now && (tenant == None || tenant == Some(s.tokens[h].tenantId))))
            && (h in t.tokens ==> t.tokens[h] == s.tokens[h])
            && (h in t.resets <==>
                  h in s.resets
                  && !((s.resets[h].expiresAt < s.now
                        || (s.resets[h].usedAt.Some? && s.resets[h].usedAt.value + 2_592_000_000 < s.now))
                       && (tenant == None || tenant == Some(s.resets[h].tenantId))))
            && (h in t.resets ==> t.resets[h] == s.resets[h])
            && t.issued == s.issued && t.now == s.now
  {
  }
}
