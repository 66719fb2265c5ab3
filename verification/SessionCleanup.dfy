/** Deleting expired tokens is invisible: no decision of any run depends on it. */
module SessionCleanup {
  import opened Prelude
  import opened Sessions

  /** What a client can tell apart: not the code of a refusal, not how many rows a revocation found. */
  datatype Verdict = Granted(claims: Claims) | Accepted | Rejected | NoAnswer

  function Visible(answer: Answer): Verdict {
    match answer
    case SignedIn(claims) => Granted(claims)
    case Done => Accepted
    case Revoked(_) => Accepted
    case Refused(_) => Rejected
    case NoEvent => NoAnswer
  }

  /** The verdicts with and without cleanup: the same, but that revoking a session may find nothing left to revoke. */
  predicate Alike(step: Step, a: Verdict, b: Verdict) {
    a == b || (step.RevokeSession? && a == Rejected && b == Accepted)
  }

  predicate AllAlike(steps: seq<Step>, a: seq<Verdict>, b: seq<Verdict>) {
    |a| == |b| == |steps| && forall i | 0 <= i < |steps| :: Alike(steps[i], a[i], b[i])
  }

  function Verdicts(s: State, steps: seq<Step>): seq<Verdict>
    decreases |steps|
  {
    if steps == [] then []
    else
      (if steps[0].Cleanup? then [] else [Visible(Reply(s, steps[0]))]) + Verdicts(Apply(s, steps[0]), steps[1..])
  }

  function WithoutCleanup(steps: seq<Step>): seq<Step> {
    if steps == [] then []
    else (if steps[0].Cleanup? then [] else [steps[0]]) + WithoutCleanup(steps[1..])
  }

  /** `a` is `b` with some expired rows missing. */
  ghost predicate Pruned(a: State, b: State) {
    && a.now == b.now && a.issued == b.issued && a.chains == b.chains && a.minted == b.minted
    && (forall h | h in a.tokens :: h in b.tokens && b.tokens[h] == a.tokens[h])
    && (forall h | h in b.tokens && h !in a.tokens :: b.tokens[h].expiresAt < b.now)
    && (forall h | h in a.resets :: h in b.resets && b.resets[h] == a.resets[h])
    && (forall h | h in b.resets && h !in a.resets :: !ResetWorks(b, h))
  }

  lemma PrunedRevoke(a: State, b: State, rowsA: set<Hash>, rowsB: set<Hash>)
    requires Pruned(a, b) && forall h | h in a.tokens :: h in rowsA <==> h in rowsB
    ensures Pruned(Revoke(a, rowsA), Revoke(b, rowsB))
  {
  }

  lemma PrunedUserRows(a: State, b: State, userId: string, keep: Option<SessionId>)
    requires Pruned(a, b)
    ensures Pruned(Revoke(a, UserRows(a, userId, keep)), Revoke(b, UserRows(b, userId, keep)))
  {
    PrunedRevoke(a, b, UserRows(a, userId, keep), UserRows(b, userId, keep));
  }

  lemma PrunedSessionRows(a: State, b: State, sessionId: SessionId, userId: string, tenantId: string)
    requires Pruned(a, b)
    ensures Pruned(Revoke(a, SessionRows(a, sessionId, userId, tenantId)),
                   Revoke(b, SessionRows(b, sessionId, userId, tenantId)))
  {
    PrunedRevoke(a, b, SessionRows(a, sessionId, userId, tenantId), SessionRows(b, sessionId, userId, tenantId));
  }

  lemma PrunedStart(a: State, b: State, tenantId: string, userId: string, sessionId: SessionId, h: Hash)
    requires Pruned(a, b)
    ensures Pruned(StartSession(a, tenantId, userId, sessionId, h), StartSession(b, tenantId, userId, sessionId, h))
  {
  }

  lemma PrunedExtend(a: State, b: State, tenantId: string, userId: string, sessionId: SessionId, h: Hash)
    requires Pruned(a, b) && sessionId in a.chains
    ensures Pruned(ExtendSession(a, tenantId, userId, sessionId, h), ExtendSession(b, tenantId, userId, sessionId, h))
  {
  }

  lemma PrunedRotate(a: State, b: State, h: Hash, newSession: SessionId, newHash: Hash)
    requires Pruned(a, b) && h in a.tokens
    ensures Pruned(RotateStep(a, h, newSession, newHash), RotateStep(b, h, newSession, newHash))
  {
    var t := b.tokens[h];
    var sessionId := RefreshedSession(b, h, newSession);
    PrunedRevoke(a, b, {h}, {h});
    if sessionId in b.chains {
      PrunedExtend(Revoke(a, {h}), Revoke(b, {h}), t.tenantId, t.userId, sessionId, newHash);
    } else {
      PrunedStart(Revoke(a, {h}), Revoke(b, {h}), t.tenantId, t.userId, sessionId, newHash);
    }
  }

  lemma PrunedReplay(a: State, b: State, h: Hash)
    requires Pruned(a, b) && h in a.tokens
    ensures Pruned(ReplayStep(a, h), ReplayStep(b, h))
  {
    var t := b.tokens[h];
    if t.sessionId.Some? {
      PrunedSessionRows(a, b, t.sessionId.value, t.userId, t.tenantId);
    } else {
      PrunedUserRows(a, b, t.userId, None);
    }
  }

  lemma PrunedLogout(a: State, b: State, h: Hash)
    requires Pruned(a, b)
    ensures Pruned(Next(a, Logout(Some(h))), Next(b, Logout(Some(h))))
  {
    PrunedRevoke(a, b, {h}, {h});
    if h !in a.tokens {
      assert Revoke(a, {h}) == a;
    }
  }

  lemma PrunedReset(a: State, b: State, h: Hash)
    requires Pruned(a, b)
    ensures Pruned(Next(a, ResetPassword(h)), Next(b, ResetPassword(h)))
  {
    if ResetWorks(b, h) {
      PrunedUserRows(a, b, b.resets[h].userId, None);
    }
  }

  lemma PrunedRefresh(a: State, b: State, h: Hash, account: bool, newSession: SessionId, newHash: Hash)
    requires Pruned(a, b)
    ensures Pruned(Next(a, Refresh(h, account, newSession, newHash)), Next(b, Refresh(h, account, newSession, newHash)))
  {
    if h in a.tokens {
      assert CaseOf(a, h, account) == CaseOf(b, h, account);
      PrunedRotate(a, b, h, newSession, newHash);
      PrunedReplay(a, b, h);
    } else {
      assert CaseOf(b, h, account).Unknown? || CaseOf(b, h, account).Expired?;
    }
  }

  lemma PrunedForgot(a: State, b: State, tenantId: string, userId: string, account: bool, newHash: Hash)
    requires Pruned(a, b)
    ensures Pruned(Next(a, ForgotPassword(tenantId, userId, account, newHash)),
                   Next(b, ForgotPassword(tenantId, userId, account, newHash)))
  {
  }

  lemma PrunedTick(a: State, b: State, elapsed: nat)
    requires Pruned(a, b)
    ensures Pruned(Next(a, Tick(elapsed)), Next(b, Tick(elapsed)))
  {
  }

  /** The same step in both states keeps them related. */
  lemma PrunedStep(a: State, b: State, step: Step)
    requires Pruned(a, b) && !step.Cleanup?
    ensures Pruned(Next(a, step), Next(b, step))
  {
    match step
    case Login(tenantId, userId, account, newSession, newHash) =>
      PrunedStart(a, b, tenantId, userId, newSession, newHash);
    case Refresh(h, account, newSession, newHash) => PrunedRefresh(a, b, h, account, newSession, newHash);
    case Logout(presented) => if presented.Some? { PrunedLogout(a, b, presented.value); }
    case RevokeSession(userId, tenantId, sessionId) => PrunedSessionRows(a, b, sessionId, userId, tenantId);
    case LogoutAll(userId) => PrunedUserRows(a, b, userId, None);
    case ChangePassword(userId, sessionId, account) => PrunedUserRows(a, b, userId, Some(sessionId));
    case ForgotPassword(tenantId, userId, account, newHash) => PrunedForgot(a, b, tenantId, userId, account, newHash);
    case ResetPassword(h) => PrunedReset(a, b, h);
    case Authenticate(_, _, _) =>
    case Tick(elapsed) => PrunedTick(a, b, elapsed);
  }

  lemma PrunedCleanup(a: State, b: State, tenant: Option<string>)
    requires Pruned(a, b)
    ensures Pruned(CleanupStep(a, tenant), b)
  {
  }

  lemma PrunedActive(a: State, b: State, sessionId: SessionId, userId: string)
    requires Pruned(a, b)
    ensures SessionActive(a, sessionId, userId) == SessionActive(b, sessionId, userId)
  {
    if SessionActive(a, sessionId, userId) {
      var h :| h in a.tokens && ActiveToken(a, h, sessionId, userId);
      assert ActiveToken(b, h, sessionId, userId);
    }
    if SessionActive(b, sessionId, userId) {
      var h :| h in b.tokens && ActiveToken(b, h, sessionId, userId);
      assert ActiveToken(a, h, sessionId, userId);
    }
  }

  lemma PrunedSessionFound(a: State, b: State, sessionId: SessionId, userId: string, tenantId: string)
    requires Pruned(a, b)
    ensures SessionRows(a, sessionId, userId, tenantId)
            == set h | h in SessionRows(b, sessionId, userId, tenantId) && h in a.tokens
    ensures |SessionRows(a, sessionId, userId, tenantId)| > 0 ==> |SessionRows(b, sessionId, userId, tenantId)| > 0
  {
    var rowsA, rowsB := SessionRows(a, sessionId, userId, tenantId), SessionRows(b, sessionId, userId, tenantId);
    if |rowsA| > 0 {
      var h :| h in rowsA;
      assert h in rowsB;
    }
  }

  /** Cleanup turns the revocation of a session into a 404 if and only if the session had rows to revoke and all of
    * them, which have expired, are gone. */
  lemma RevokeSessionFindsNothingIff(a: State, b: State, userId: string, tenantId: string, sessionId: SessionId)
    requires Pruned(a, b)
    ensures var step, rows := RevokeSession(userId, tenantId, sessionId), SessionRows(b, sessionId, userId, tenantId);
            && (Visible(Reply(a, step)) != Visible(Reply(b, step))
                <==> rows != {} && forall h | h in rows :: h !in a.tokens)
            && (Visible(Reply(a, step)) != Visible(Reply(b, step)) ==>
                  Reply(a, step) == Refused(SESSION_NOT_FOUND) && forall h | h in rows :: b.tokens[h].expiresAt < b.now)
  {
    PrunedSessionFound(a, b, sessionId, userId, tenantId);
    var rowsA, rowsB := SessionRows(a, sessionId, userId, tenantId), SessionRows(b, sessionId, userId, tenantId);
    if rowsA != {} {
      var h :| h in rowsA;
      assert h in rowsB && h in a.tokens;
      assert |rowsA| > 0;
    } else {
      forall h | h in rowsB ensures h !in a.tokens {
        assert h !in rowsA;
      }
    }
    assert rowsB != {} ==> |rowsB| > 0;
  }

  lemma PrunedReply(a: State, b: State, step: Step)
    requires Pruned(a, b) && !step.Cleanup?
    ensures Alike(step, Visible(Reply(a, step)), Visible(Reply(b, step)))
  {
    if step.Authenticate? {
      PrunedActive(a, b, step.claims.sessionId, step.claims.sub);
    } else if step.RevokeSession? {
      PrunedSessionFound(a, b, step.sessionId, step.userId, step.tenantId);
    }
  }

  /** The only refresh whose code changes is that of an expired token: its row may be gone already. */
  lemma OnlyExpiredCodesDiffer(a: State, b: State, h: Hash, account: bool, newSession: SessionId, newHash: Hash)
    requires Pruned(a, b) && Possible(b, Refresh(h, account, newSession, newHash))
    ensures var step := Refresh(h, account, newSession, newHash);
            Reply(a, step) != Reply(b, step) <==> h in b.tokens && h !in a.tokens
    ensures var step := Refresh(h, account, newSession, newHash);
            Reply(a, step) != Reply(b, step) ==>
              Reply(a, step) == Refused(INVALID_REFRESH_TOKEN) && Reply(b, step) == Refused(REFRESH_TOKEN_EXPIRED)
  {
  }

  lemma AlikeCons(step: Step, rest: seq<Step>, x: Verdict, xs: seq<Verdict>, y: Verdict, ys: seq<Verdict>)
    requires Alike(step, x, y) && AllAlike(rest, xs, ys)
    ensures AllAlike([step] + rest, [x] + xs, [y] + ys)
  {
  }

  lemma VerdictsFrom(s: State, step: Step, rest: seq<Step>)
    ensures Verdicts(s, [step] + rest)
            == (if step.Cleanup? then [] else [Visible(Reply(s, step))]) + Verdicts(Apply(s, step), rest)
    ensures Exec(s, [step] + rest) == Exec(Apply(s, step), rest)
  {
    assert ([step] + rest)[1..] == rest;
  }

  lemma PrunedApply(a: State, b: State, step: Step)
    requires Pruned(a, b) && !step.Cleanup?
    ensures Pruned(Apply(a, step), Apply(b, step))
  {
    PrunedStep(a, b, step);
  }

  lemma OneStepMore(a: State, b: State, step: Step, rest: seq<Step>)
    requires Pruned(a, b) && !step.Cleanup?
    requires AllAlike(WithoutCleanup(rest), Verdicts(Apply(a, step), rest),
            Verdicts(Apply(b, step), WithoutCleanup(rest)))
    ensures WithoutCleanup([step] + rest) == [step] + WithoutCleanup(rest)
    ensures AllAlike([step] + WithoutCleanup(rest), Verdicts(a, [step] + rest),
            Verdicts(b, [step] + WithoutCleanup(rest)))
    ensures Exec(a, [step] + rest) == Exec(Apply(a, step), rest)
    ensures Exec(b, [step] + WithoutCleanup(rest)) == Exec(Apply(b, step), WithoutCleanup(rest))
  {
    assert ([step] + rest)[1..] == rest;
    PrunedReply(a, b, step);
    VerdictsFrom(a, step, rest);
    VerdictsFrom(b, step, WithoutCleanup(rest));
    AlikeCons(step, WithoutCleanup(rest), Visible(Reply(a, step)), Verdicts(Apply(a, step), rest),
              Visible(Reply(b, step)), Verdicts(Apply(b, step), WithoutCleanup(rest)));
  }

  lemma CleanupFirst(a: State, b: State, step: Step, rest: seq<Step>)
    requires Pruned(a, b) && step.Cleanup?
    ensures Pruned(Apply(a, step), b) && WithoutCleanup([step] + rest) == WithoutCleanup(rest)
    ensures Verdicts(a, [step] + rest) == Verdicts(Apply(a, step), rest)
    ensures Exec(a, [step] + rest) == Exec(Apply(a, step), rest)
  {
    assert ([step] + rest)[1..] == rest;
    VerdictsFrom(a, step, rest);
    PrunedCleanup(a, b, step.tenant);
  }

  /** Every decision of a run with cleanups, wherever they come, is the decision of the same run without them. */
  lemma {:induction false} CleanupIsInvisible(a: State, b: State, steps: seq<Step>)
    requires Pruned(a, b)
    ensures AllAlike(WithoutCleanup(steps), Verdicts(a, steps), Verdicts(b, WithoutCleanup(steps)))
    ensures Pruned(Exec(a, steps), Exec(b, WithoutCleanup(steps)))
    decreases |steps|
  {
    if steps != [] {
      var step, rest := steps[0], steps[1..];
      assert steps == [step] + rest;
      if step.Cleanup? {
        CleanupFirst(a, b, step, rest);
        CleanupIsInvisible(Apply(a, step), b, rest);
      } else {
        PrunedApply(a, b, step);
        CleanupIsInvisible(Apply(a, step), Apply(b, step), rest);
        OneStepMore(a, b, step, rest);
      }
    }
  }

  lemma {:induction false} NothingAdded(steps: seq<Step>)
    ensures forall x | x in WithoutCleanup(steps) :: x in steps
    decreases |steps|
  {
    if steps != [] {
      NothingAdded(steps[1..]);
    }
  }

  /** … starting from any one state; only revoking a session whose rows have all expired can be told apart. */
  lemma CleanupNeverDecides(s: State, steps: seq<Step>)
    ensures AllAlike(WithoutCleanup(steps), Verdicts(s, steps), Verdicts(s, WithoutCleanup(steps)))
    ensures (forall i | 0 <= i < |steps| :: !steps[i].RevokeSession?) ==>
              Verdicts(s, steps) == Verdicts(s, WithoutCleanup(steps))
  {
    CleanupIsInvisible(s, s, steps);
    if forall i | 0 <= i < |steps| :: !steps[i].RevokeSession? {
      NothingAdded(steps);
      assert forall x | x in WithoutCleanup(steps) :: !x.RevokeSession?;
    }
  }
}
