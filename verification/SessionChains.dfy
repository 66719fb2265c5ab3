/** The invariant of the session machine: every session is one rotation chain whose only live token is its newest. */
module SessionChains {
  import opened Prelude
  import opened Sessions

  function Newest(c: Chain): Hash
    requires c.hashes != []
  {
    c.hashes[|c.hashes| - 1]
  }

  predicate Distinct(hs: seq<Hash>) {
    forall i, j | 0 <= i < j < |hs| :: hs[i] != hs[j]
  }

  /** A token of a session lies on that session's chain; if it is unrevoked it is the newest there. */
  predicate OnChain(s: State, h: Hash, sessionId: SessionId)
    requires h in s.tokens
  {
    && sessionId in s.chains
    && var t := s.tokens[h];
    && var c := s.chains[sessionId];
    && c.hashes != []
    && t.tenantId == c.tenantId && t.userId == c.userId
    && h in c.hashes
    && t.createdAt <= s.now && t.expiresAt == t.createdAt + REFRESH_LIFETIME
    && (Live(s, h) ==> h == Newest(c))
  }

  ghost predicate TokensOk(s: State) {
    && s.tokens.Keys <= s.minted && s.resets.Keys <= s.minted
    && forall h | h in s.tokens && s.tokens[h].sessionId.Some? :: OnChain(s, h, s.tokens[h].sessionId.value)
  }

  predicate ChainOk(s: State, sessionId: SessionId)
    requires sessionId in s.chains
  {
    var hs := s.chains[sessionId].hashes;
    && hs != [] && Distinct(hs)
    && (forall h | h in hs :: h in s.minted)
    && (forall h | h in hs :: h in s.tokens ==> s.tokens[h].sessionId == Some(sessionId))
    && (forall i, j | 0 <= i < j < |hs| && hs[i] in s.tokens && hs[j] in s.tokens ::
          s.tokens[hs[i]].createdAt <= s.tokens[hs[j]].createdAt)
  }

  ghost predicate ChainsOk(s: State) {
    forall sessionId | sessionId in s.chains :: ChainOk(s, sessionId)
  }

  predicate ClaimsOk(s: State, c: Claims) {
    c.sessionId in s.chains && s.chains[c.sessionId].userId == c.sub && s.chains[c.sessionId].tenantId == c.tenantId
  }

  ghost predicate IssuedOk(s: State) {
    forall c | c in s.issued :: ClaimsOk(s, c)
  }

  ghost predicate Inv(s: State) {
    TokensOk(s) && ChainsOk(s) && IssuedOk(s)
  }

  // ---- every step keeps it ----

  lemma RevokeKeeps(s: State, rows: set<Hash>)
    requires Inv(s)
    ensures Inv(Revoke(s, rows))
  {
    var t := Revoke(s, rows);
    forall h | h in t.tokens && t.tokens[h].sessionId.Some? ensures OnChain(t, h, t.tokens[h].sessionId.value) {
      assert OnChain(s, h, s.tokens[h].sessionId.value);
    }
    forall sessionId | sessionId in t.chains ensures ChainOk(t, sessionId) {
      assert ChainOk(s, sessionId);
    }
  }

  lemma StartKeeps(s: State, tenantId: string, userId: string, sessionId: SessionId, h: Hash)
    requires Inv(s) && sessionId !in s.chains && FreshHash(s, h)
    ensures Inv(StartSession(s, tenantId, userId, sessionId, h))
  {
    var t := StartSession(s, tenantId, userId, sessionId, h);
    forall x | x in t.tokens && t.tokens[x].sessionId.Some? ensures OnChain(t, x, t.tokens[x].sessionId.value) {
      if x != h {
        assert OnChain(s, x, s.tokens[x].sessionId.value);
      }
    }
    forall x | x in t.chains ensures ChainOk(t, x) {
      if x != sessionId {
        assert ChainOk(s, x);
      }
    }
    forall c | c in t.issued ensures ClaimsOk(t, c) {
      if c in s.issued {
        assert ClaimsOk(s, c);
      }
    }
  }

  lemma ExtendedChain(s: State, t: State, sessionId: SessionId, h: Hash)
    requires Inv(s) && sessionId in s.chains && FreshHash(s, h)
    requires t == ExtendSession(s, s.chains[sessionId].tenantId, s.chains[sessionId].userId, sessionId, h)
    ensures ChainOk(t, sessionId)
  {
    var hs := s.chains[sessionId].hashes;
    var ts := t.chains[sessionId].hashes;
    assert ChainOk(s, sessionId) && ts == hs + [h];
    forall i, j | 0 <= i < j < |ts| && ts[i] in t.tokens && ts[j] in t.tokens
      ensures t.tokens[ts[i]].createdAt <= t.tokens[ts[j]].createdAt
    {
      if j == |hs| {
        assert ts[i] in s.tokens && OnChain(s, ts[i], sessionId);
      }
    }
  }

  /** The new token may join the chain because no token of the session is live any more. */
  lemma ExtendKeeps(s: State, sessionId: SessionId, h: Hash)
    requires Inv(s) && sessionId in s.chains && FreshHash(s, h)
    requires forall x | x in s.tokens && s.tokens[x].sessionId == Some(sessionId) :: !Live(s, x)
    ensures Inv(ExtendSession(s, s.chains[sessionId].tenantId, s.chains[sessionId].userId, sessionId, h))
  {
    var c := s.chains[sessionId];
    var t := ExtendSession(s, c.tenantId, c.userId, sessionId, h);
    assert ChainOk(s, sessionId);
    forall x | x in t.tokens && t.tokens[x].sessionId.Some? ensures OnChain(t, x, t.tokens[x].sessionId.value) {
      if x != h {
        assert OnChain(s, x, s.tokens[x].sessionId.value);
      }
    }
    forall x | x in t.chains ensures ChainOk(t, x) {
      assert ChainOk(s, x);
      if x == sessionId {
        ExtendedChain(s, t, sessionId, h);
      }
    }
    forall k | k in t.issued ensures ClaimsOk(t, k) {
      if k in s.issued {
        assert ClaimsOk(s, k);
      }
    }
  }

  lemma RotateKeeps(s: State, h: Hash, newSession: SessionId, newHash: Hash)
    requires Inv(s) && h in s.tokens && Live(s, h) && newSession !in s.chains && FreshHash(s, newHash)
    ensures Inv(RotateStep(s, h, newSession, newHash))
  {
    var r := Revoke(s, {h});
    RevokeKeeps(s, {h});
    var t := s.tokens[h];
    if t.sessionId.Some? {
      assert OnChain(s, h, t.sessionId.value);
      forall x | x in r.tokens && r.tokens[x].sessionId == t.sessionId ensures !Live(r, x) {
        assert OnChain(s, x, t.sessionId.value);
      }
      ExtendKeeps(r, t.sessionId.value, newHash);
    } else {
      StartKeeps(r, t.tenantId, t.userId, newSession, newHash);
    }
  }

  lemma CleanupKeeps(s: State, tenant: Option<string>)
    requires Inv(s)
    ensures Inv(CleanupStep(s, tenant))
  {
    var t := CleanupStep(s, tenant);
    forall h | h in t.tokens && t.tokens[h].sessionId.Some? ensures OnChain(t, h, t.tokens[h].sessionId.value) {
      assert OnChain(s, h, s.tokens[h].sessionId.value);
    }
    forall sessionId | sessionId in t.chains ensures ChainOk(t, sessionId) {
      assert ChainOk(s, sessionId);
    }
  }

  /** Time may pass and password resets may change without touching any token. */
  lemma FrameKeeps(s: State, t: State)
    requires Inv(s) && t.tokens == s.tokens && t.issued == s.issued && t.chains == s.chains
    requires s.now <= t.now && s.minted <= t.minted && t.resets.Keys <= t.minted
    ensures Inv(t)
  {
    forall h | h in t.tokens && t.tokens[h].sessionId.Some? ensures OnChain(t, h, t.tokens[h].sessionId.value) {
      assert OnChain(s, h, s.tokens[h].sessionId.value);
    }
    forall sessionId | sessionId in t.chains ensures ChainOk(t, sessionId) {
      assert ChainOk(s, sessionId);
    }
    forall c | c in t.issued ensures ClaimsOk(t, c) {
      assert ClaimsOk(s, c);
    }
  }

  lemma ReplayKeeps(s: State, h: Hash)
    requires Inv(s) && h in s.tokens
    ensures Inv(ReplayStep(s, h))
  {
    var t := s.tokens[h];
    if t.sessionId.Some? {
      RevokeKeeps(s, SessionRows(s, t.sessionId.value, t.userId, t.tenantId));
    } else {
      RevokeKeeps(s, UserRows(s, t.userId, None));
    }
  }

  lemma StepKeeps(s: State, step: Step)
    requires Inv(s)
    ensures Inv(Apply(s, step))
  {
    if !Possible(s, step) {
      return;
    }
    match step
    case Login(tenantId, userId, account, newSession, newHash) =>
      if account { StartKeeps(s, tenantId, userId, newSession, newHash); }
    case Refresh(h, account, newSession, newHash) =>
      if CaseOf(s, h, account).Replay? {
        ReplayKeeps(s, h);
      } else if CaseOf(s, h, account).Rotates? {
        RotateKeeps(s, h, newSession, newHash);
      }
    case Logout(presented) => if presented.Some? { RevokeKeeps(s, {presented.value}); }
    case RevokeSession(userId, tenantId, sessionId) => RevokeKeeps(s, SessionRows(s, sessionId, userId, tenantId));
    case LogoutAll(userId) => RevokeKeeps(s, UserRows(s, userId, None));
    case ChangePassword(userId, sessionId, account) => RevokeKeeps(s, UserRows(s, userId, Some(sessionId)));
    case ForgotPassword(_, _, _, _) => FrameKeeps(s, Apply(s, step));
    case ResetPassword(h) =>
      if ResetWorks(s, h) {
        RevokeKeeps(s, UserRows(s, s.resets[h].userId, None));
        FrameKeeps(Revoke(s, UserRows(s, s.resets[h].userId, None)), Apply(s, step));
      }
    case Authenticate(_, _, _) =>
    case Cleanup(tenant) => CleanupKeeps(s, tenant);
    case Tick(elapsed) => FrameKeeps(s, Apply(s, step));
  }

  lemma {:induction false} RunKeeps(s: State, steps: seq<Step>)
    requires Inv(s)
    ensures Inv(Exec(s, steps))
    decreases |steps|
  {
    if steps != [] {
      StepKeeps(s, steps[0]);
      RunKeeps(Apply(s, steps[0]), steps[1..]);
    }
  }

  lemma InitHolds(s: State)
    requires Init(s)
    ensures Inv(s)
  {
  }

  /** The invariant holds in every reachable state. */
  lemma ReachableHolds(s: State, steps: seq<Step>)
    requires Init(s)
    ensures Inv(Exec(s, steps))
  {
    InitHolds(s);
    RunKeeps(s, steps);
  }
}
