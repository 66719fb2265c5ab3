/** Login sessions, rotating refresh tokens and password resets as a state machine of serialised requests.
  *
  * Tokens are named by their hashes. A fresh hash or session id is one that was never used before; a step that offers a
  * used one is not a possible event and leaves the state as it is. `chains` and `minted` are history variables: the
  * hashes each session was ever given, in order, and every hash ever handed out.
  */
module Sessions {
  import opened Prelude

  type Hash = string
  type SessionId = string

  datatype Token = Token(
    tenantId: string, userId: string, expiresAt: int, revokedAt: Option<int>, createdAt: int,
    sessionId: Option<SessionId>)          // None: issued before sessions existed

  datatype ResetToken = ResetToken(tenantId: string, userId: string, expiresAt: int, usedAt: Option<int>)

  /** What an access token says. */
  datatype Claims = Claims(sub: string, tenantId: string, sessionId: SessionId)

  datatype Chain = Chain(tenantId: string, userId: string, hashes: seq<Hash>)

  datatype State = State(
    now: int,
    tokens: map<Hash, Token>,
    resets: map<Hash, ResetToken>,
    issued: set<Claims>,
    chains: map<SessionId, Chain>,
    minted: set<Hash>)

  const REFRESH_LIFETIME: int := 7 * 24 * 60 * 60 * 1000
  const RESET_LIFETIME: int := 60 * 60 * 1000
  const USED_TOKEN_AGE: int := 30 * 24 * 60 * 60 * 1000

  /** `account` stands for the checks on users, memberships, roles, tenants and passwords, which no step changes. */
  datatype Step =
    | Login(tenantId: string, userId: string, account: bool, newSession: SessionId, newHash: Hash)
    | Refresh(hash: Hash, account: bool, newSession: SessionId, newHash: Hash)
    | Logout(presented: Option<Hash>)
    | RevokeSession(userId: string, tenantId: string, sessionId: SessionId)
    | LogoutAll(userId: string)
    | ChangePassword(userId: string, sessionId: SessionId, account: bool)
    | ForgotPassword(tenantId: string, userId: string, account: bool, newHash: Hash)
    | ResetPassword(hash: Hash)
    | Authenticate(claims: Claims, verified: bool, account: bool)
    | Cleanup(tenant: Option<string>)
    | Tick(elapsed: nat)

  datatype Code =
    | INVALID_REFRESH_TOKEN | REFRESH_TOKEN_EXPIRED | REFRESH_TOKEN_REVOKED | ACCOUNT_REFUSED | SESSION_NOT_FOUND
    | INVALID_RESET_TOKEN | RESET_TOKEN_EXPIRED | RESET_TOKEN_USED | INVALID_TOKEN | SESSION_REVOKED

  datatype Answer =
    | SignedIn(claims: Claims)
    | Done
    | Revoked(count: nat)
    | Refused(code: Code)
    | NoEvent

  // ---- row filters ----

  predicate Live(s: State, h: Hash)
    requires h in s.tokens
  {
    s.tokens[h].revokedAt.None?
  }

  predicate ActiveToken(s: State, h: Hash, sessionId: SessionId, userId: string) {
    h in s.tokens && s.tokens[h].sessionId == Some(sessionId) && s.tokens[h].userId == userId && Live(s, h)
    && s.tokens[h].expiresAt > s.now
  }

  /** `count(sessionId, userId, revokedAt: null, expiresAt > now) > 0`. */
  predicate SessionActive(s: State, sessionId: SessionId, userId: string) {
    exists h | h in s.tokens :: ActiveToken(s, h, sessionId, userId)
  }

  predicate InSession(t: Token, sessionId: SessionId, userId: string, tenantId: string) {
    t.sessionId == Some(sessionId) && t.userId == userId && t.tenantId == tenantId
  }

  function SessionRows(s: State, sessionId: SessionId, userId: string, tenantId: string): set<Hash> {
    set h | h in s.tokens && InSession(s.tokens[h], sessionId, userId, tenantId) && Live(s, h)
  }

  /** Every unrevoked row of the user, except those of the session to keep. */
  function UserRows(s: State, userId: string, keep: Option<SessionId>): set<Hash> {
    set h | h in s.tokens && s.tokens[h].userId == userId && Live(s, h) && (keep.None? || s.tokens[h].sessionId != keep)
  }

  function Revoke(s: State, rows: set<Hash>): State {
    s.(tokens := map h | h in s.tokens :: if h in rows then s.tokens[h].(revokedAt := Some(s.now)) else s.tokens[h])
  }

  // ---- the steps ----

  predicate FreshHash(s: State, h: Hash) {
    h !in s.minted
  }

  function NewToken(s: State, tenantId: string, userId: string, sessionId: SessionId): Token {
    Token(tenantId, userId, s.now + REFRESH_LIFETIME, None, s.now, Some(sessionId))
  }

  /** The refresh token a new session starts with, and its access token. */
  function StartSession(s: State, tenantId: string, userId: string, sessionId: SessionId, h: Hash): State {
    s.(tokens := s.tokens[h := NewToken(s, tenantId, userId, sessionId)],
       issued := s.issued + {Claims(userId, tenantId, sessionId)},
       chains := s.chains[sessionId := Chain(tenantId, userId, [h])],
       minted := s.minted + {h})
  }

  /** The next refresh token of an existing session, and a new access token. */
  function ExtendSession(s: State, tenantId: string, userId: string, sessionId: SessionId, h: Hash): State
    requires sessionId in s.chains
  {
    var c := s.chains[sessionId];
    s.(tokens := s.tokens[h := NewToken(s, tenantId, userId, sessionId)],
       issued := s.issued + {Claims(userId, tenantId, sessionId)},
       chains := s.chains[sessionId := c.(hashes := c.hashes + [h])],
       minted := s.minted + {h})
  }

  datatype RefreshCase = Unknown | Expired | Replay | AccountRefused | Rotates

  /** The checks of `refresh`, in its order. */
  function CaseOf(s: State, h: Hash, account: bool): RefreshCase {
    if h !in s.tokens then Unknown
    else if s.tokens[h].expiresAt < s.now then Expired
    else if !Live(s, h) then Replay
    else if !account then AccountRefused
    else Rotates
  }

  /** A replayed token ends its session; one without a session ends every session of its user. */
  function ReplayStep(s: State, h: Hash): State
    requires h in s.tokens
  {
    var t := s.tokens[h];
    match t.sessionId
    case Some(sessionId) => Revoke(s, SessionRows(s, sessionId, t.userId, t.tenantId))
    case None => Revoke(s, UserRows(s, t.userId, None))
  }

  function RefreshedSession(s: State, h: Hash, newSession: SessionId): SessionId
    requires h in s.tokens
  {
    if s.tokens[h].sessionId.Some? then s.tokens[h].sessionId.value else newSession
  }

  function RotateStep(s: State, h: Hash, newSession: SessionId, newHash: Hash): State
    requires h in s.tokens
  {
    var t := s.tokens[h];
    var sessionId := RefreshedSession(s, h, newSession);
    var r := Revoke(s, {h});
    if sessionId in s.chains then ExtendSession(r, t.tenantId, t.userId, sessionId, newHash)
    else StartSession(r, t.tenantId, t.userId, sessionId, newHash)
  }

  predicate Possible(s: State, step: Step) {
    match step
    case Login(_, _, _, newSession, newHash) => newSession !in s.chains && FreshHash(s, newHash)
    case Refresh(_, _, newSession, newHash) => newSession !in s.chains && FreshHash(s, newHash)
    case ForgotPassword(_, _, _, newHash) => FreshHash(s, newHash)
    case _ => true
  }

  predicate ResetWorks(s: State, h: Hash) {
    h in s.resets && s.now <= s.resets[h].expiresAt && s.resets[h].usedAt.None?
  }

  function ResetStep(s: State, h: Hash): State
    requires h in s.resets
  {
    Revoke(s, UserRows(s, s.resets[h].userId, None)).(resets := s.resets[h := s.resets[h].(usedAt := Some(s.now))])
  }

  predicate OfTenant(tenantId: string, tenant: Option<string>) {
    tenant.None? || tenantId == tenant.value
  }

  predicate ResetPurged(s: State, h: Hash, tenant: Option<string>)
    requires h in s.resets
  {
    var r := s.resets[h];
    (r.expiresAt < s.now || (r.usedAt.Some? && r.usedAt.value < s.now - USED_TOKEN_AGE)) && OfTenant(r.tenantId, tenant)
  }

  function CleanupStep(s: State, tenant: Option<string>): State {
    s.(tokens := map h | h in s.tokens && !(s.tokens[h].expiresAt < s.now && OfTenant(s.tokens[h].tenantId, tenant)) ::
        s.tokens[h],
       resets := map h | h in s.resets && !ResetPurged(s, h, tenant) :: s.resets[h])
  }

  function Next(s: State, step: Step): State {
    match step
    case Login(tenantId, userId, account, newSession, newHash) =>
      if account then StartSession(s, tenantId, userId, newSession, newHash) else s
    case Refresh(h, account, newSession, newHash) =>
      (match CaseOf(s, h, account)
       case Replay => ReplayStep(s, h)
       case Rotates => RotateStep(s, h, newSession, newHash)
       case _ => s)
    case Logout(presented) => if presented.Some? && presented.value in s.tokens then Revoke(s, {presented.value}) else s
    case RevokeSession(userId, tenantId, sessionId) => Revoke(s, SessionRows(s, sessionId, userId, tenantId))
    case LogoutAll(userId) => Revoke(s, UserRows(s, userId, None))
    case ChangePassword(userId, sessionId, account) =>
      if account then Revoke(s, UserRows(s, userId, Some(sessionId))) else s
    case ForgotPassword(tenantId, userId, account, newHash) =>
      if account
      then s.(resets := s.resets[newHash := ResetToken(tenantId, userId, s.now + RESET_LIFETIME, None)],
              minted := s.minted + {newHash})
      else s
    case ResetPassword(h) => if ResetWorks(s, h) then ResetStep(s, h) else s
    case Authenticate(_, _, _) => s
    case Cleanup(tenant) => CleanupStep(s, tenant)
    case Tick(elapsed) => s.(now := s.now + elapsed)
  }

  function Apply(s: State, step: Step): State {
    if Possible(s, step) then Next(s, step) else s
  }

  function Reply(s: State, step: Step): Answer {
    if !Possible(s, step) then NoEvent
    else
      match step
      case Login(tenantId, userId, account, newSession, _) =>
        if account then SignedIn(Claims(userId, tenantId, newSession)) else Refused(ACCOUNT_REFUSED)
      case Refresh(h, account, newSession, _) =>
        (match CaseOf(s, h, account)
         case Unknown => Refused(INVALID_REFRESH_TOKEN)
         case Expired => Refused(REFRESH_TOKEN_EXPIRED)
         case Replay => Refused(REFRESH_TOKEN_REVOKED)
         case AccountRefused => Refused(ACCOUNT_REFUSED)
         case Rotates =>
           SignedIn(Claims(s.tokens[h].userId, s.tokens[h].tenantId, RefreshedSession(s, h, newSession))))
      case Logout(_) => Done
      case RevokeSession(userId, tenantId, sessionId) =>
        var count := |SessionRows(s, sessionId, userId, tenantId)|;
        if count == 0 then Refused(SESSION_NOT_FOUND) else Revoked(count)
      case LogoutAll(userId) => Revoked(|UserRows(s, userId, None)|)
      case ChangePassword(userId, sessionId, account) =>
        if account then Revoked(|UserRows(s, userId, Some(sessionId))|) else Refused(ACCOUNT_REFUSED)
      case ForgotPassword(_, _, _, _) => Done
      case ResetPassword(h) =>
        if h !in s.resets then Refused(INVALID_RESET_TOKEN)
        else if s.resets[h].expiresAt < s.now then Refused(RESET_TOKEN_EXPIRED)
        else if s.resets[h].usedAt.Some? then Refused(RESET_TOKEN_USED)
        else Done
      case Authenticate(claims, verified, account) =>
        if !verified || claims !in s.issued then Refused(INVALID_TOKEN)
        else if !SessionActive(s, claims.sessionId, claims.sub) then Refused(SESSION_REVOKED)
        else if !account then Refused(ACCOUNT_REFUSED)
        else Done
      case Cleanup(_) => Done
      case Tick(_) => Done
  }

  function Exec(s: State, steps: seq<Step>): State
    decreases |steps|
  {
    if steps == [] then s else Exec(Apply(s, steps[0]), steps[1..])
  }

  /** At the start there may be refresh tokens from before sessions existed, and nothing else. */
  predicate Init(s: State) {
    && s.issued == {} && s.chains == map[] && s.resets == map[]
    && s.tokens.Keys <= s.minted
    && (forall h | h in s.tokens :: s.tokens[h].sessionId.None?)
  }
}
