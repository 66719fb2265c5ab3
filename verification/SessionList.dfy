/** The list of a user's sessions: one pass over the active rows, newest first, keeping each session's first row. */
module SessionList {
  import opened Sessions
  import opened SessionChains
  import opened SessionTheorems

  datatype SessionRow = SessionRow(sessionId: SessionId, expiresAt: int, createdAt: int)

  datatype SessionEntry = SessionEntry(id: SessionId, current: bool, expiresAt: int)

  predicate Has(list: seq<SessionEntry>, id: SessionId) {
    exists e | e in list :: e.id == id
  }

  /** The first row of each session, in the order of the rows. */
  function Summary(rows: seq<SessionRow>, current: SessionId): seq<SessionEntry> {
    if rows == [] then []
    else
      var before := Summary(rows[..|rows| - 1], current);
      var r := rows[|rows| - 1];
      if Has(before, r.sessionId) then before
      else before + [SessionEntry(r.sessionId, r.sessionId == current, r.expiresAt)]
  }

  method ListSessions(rows: seq<SessionRow>, current: SessionId) returns (list: seq<SessionEntry>)
    ensures list == Summary(rows, current)
  {
    var sessions: map<SessionId, SessionEntry> := map[];
    list := [];
    for i := 0 to |rows|
      invariant list == Summary(rows[..i], current)
      invariant forall id :: id in sessions <==> Has(list, id)
    {
      assert rows[..i + 1][..i] == rows[..i];
      var t := rows[i];
      if t.sessionId in sessions {
        continue;
      }
      var entry := SessionEntry(t.sessionId, t.sessionId == current, t.expiresAt);
      sessions := sessions[t.sessionId := entry];
      ghost var before := list;
      list := list + [entry];
      forall id ensures Has(list, id) <==> Has(before, id) || id == t.sessionId {
        if Has(before, id) {
          var e :| e in before && e.id == id;
          assert e in list;
        }
        assert entry in list;
      }
    }
    assert rows[..|rows|] == rows;
  }

  predicate NewestFirst(rows: seq<SessionRow>) {
    forall i, j | 0 <= i < j < |rows| :: rows[j].createdAt <= rows[i].createdAt
  }

  predicate IsNewestOf(rows: seq<SessionRow>, i: nat, e: SessionEntry)
    requires i < |rows|
  {
    && rows[i].sessionId == e.id && rows[i].expiresAt == e.expiresAt
    && forall j | 0 <= j < |rows| && rows[j].sessionId == e.id :: rows[j].createdAt <= rows[i].createdAt
  }

  lemma {:induction false} SummaryCovers(rows: seq<SessionRow>, current: SessionId)
    ensures forall r | r in rows :: Has(Summary(rows, current), r.sessionId)
  {
    if rows != [] {
      var n := |rows| - 1;
      SummaryCovers(rows[..n], current);
      var before, list := Summary(rows[..n], current), Summary(rows, current);
      forall r | r in rows ensures Has(list, r.sessionId) {
        if r in rows[..n] {
          var e :| e in before && e.id == r.sessionId;
          assert e in list;
        } else {
          assert list[|list| - 1].id == r.sessionId || Has(before, r.sessionId);
        }
      }
    }
  }

  lemma {:induction false} SummaryDistinct(rows: seq<SessionRow>, current: SessionId, i: nat, j: nat)
    requires i < j < |Summary(rows, current)|
    ensures Summary(rows, current)[i].id != Summary(rows, current)[j].id
  {
    var before := Summary(rows[..|rows| - 1], current);
    assert before[i] in before;
    if j < |before| {
      SummaryDistinct(rows[..|rows| - 1], current, i, j);
    }
  }

  /** Each entry is the newest row of its session; with the two facts above, each session of the rows is listed once. */
  lemma {:induction false} SummaryIsNewest(rows: seq<SessionRow>, current: SessionId, e: SessionEntry) returns (i: nat)
    requires NewestFirst(rows) && e in Summary(rows, current)
    ensures i < |rows| && IsNewestOf(rows, i, e) && (e.current <==> e.id == current)
  {
    var n := |rows| - 1;
    if e in Summary(rows[..n], current) {
      i := SummaryIsNewest(rows[..n], current, e);
    } else {
      i := n;
      SummaryCovers(rows[..n], current);
      assert forall j | 0 <= j < n :: rows[..n][j] in rows[..n];
    }
  }

  /** An entry shows this row, the first of its session. */
  predicate IsFirstRow(rows: seq<SessionRow>, current: SessionId, p: nat, e: SessionEntry) {
    && p < |rows| && e == SessionEntry(rows[p].sessionId, rows[p].sessionId == current, rows[p].expiresAt)
    && forall q | 0 <= q < p :: rows[q].sessionId != rows[p].sessionId
  }

  lemma {:induction false} FirstRow(rows: seq<SessionRow>, current: SessionId, i: nat) returns (p: nat)
    requires i < |Summary(rows, current)|
    ensures IsFirstRow(rows, current, p, Summary(rows, current)[i])
    decreases |rows|
  {
    var n := |rows| - 1;
    if i < |Summary(rows[..n], current)| {
      p := FirstRow(rows[..n], current, i);
    } else {
      p := n;
      SummaryCovers(rows[..n], current);
      assert forall q | 0 <= q < n :: rows[..n][q] in rows[..n];
    }
  }

  /** The last row adds an entry only if no earlier row is of its session. */
  lemma NotAmongEarlier(rows: seq<SessionRow>, current: SessionId, q: nat)
    requires rows != [] && IsFirstRow(rows, current, q, Summary(rows, current)[|Summary(rows, current)| - 1])
    requires |Summary(rows, current)| > |Summary(rows[..|rows| - 1], current)|
    ensures q == |rows| - 1
  {
    var n := |rows| - 1;
    SummaryCovers(rows[..n], current);
    assert forall k | 0 <= k < n :: rows[..n][k] == rows[k] && rows[..n][k] in rows[..n];
  }

  /** Entries stand in the order of the rows that they show. */
  lemma {:induction false} SummaryKeepsTheOrder(rows: seq<SessionRow>, current: SessionId, i: nat, j: nat)
    returns (p: nat, q: nat)
    requires i < j < |Summary(rows, current)|
    ensures p < q && IsFirstRow(rows, current, p, Summary(rows, current)[i])
    ensures IsFirstRow(rows, current, q, Summary(rows, current)[j])
    decreases |rows|
  {
    var n := |rows| - 1;
    if j < |Summary(rows[..n], current)| {
      p, q := SummaryKeepsTheOrder(rows[..n], current, i, j);
    } else {
      p := FirstRow(rows[..n], current, i);
      q := FirstRow(rows, current, j);
      NotAmongEarlier(rows, current, q);
    }
  }

  /** Without repeated sessions nothing is skipped. */
  lemma {:induction false} NothingSkipped(rows: seq<SessionRow>, current: SessionId)
    requires forall i, j | 0 <= i < j < |rows| :: rows[i].sessionId != rows[j].sessionId
    ensures |Summary(rows, current)| == |rows|
    ensures forall e | e in Summary(rows, current) :: exists r :: r in rows && r.sessionId == e.id
  {
    if rows != [] {
      var n := |rows| - 1;
      NothingSkipped(rows[..n], current);
      forall e | e in Summary(rows, current) ensures exists r :: r in rows && r.sessionId == e.id {
        if e in Summary(rows[..n], current) {
          var r :| r in rows[..n] && r.sessionId == e.id;
          assert r in rows;
        } else {
          assert rows[n] in rows;
        }
      }
    }
  }

  // ---- the rows the query finds ----

  predicate Listed(s: State, h: Hash, userId: string, tenantId: string) {
    h in s.tokens && s.tokens[h].userId == userId && s.tokens[h].tenantId == tenantId && s.tokens[h].sessionId.Some?
    && Live(s, h) && s.tokens[h].expiresAt > s.now
  }

  /** Each row that `findActiveSessionTokens` selects, once. */
  ghost predicate IsListing(s: State, hs: seq<Hash>, userId: string, tenantId: string) {
    (forall h :: h in hs <==> Listed(s, h, userId, tenantId)) && Distinct(hs)
  }

  function RowOf(t: Token): SessionRow
    requires t.sessionId.Some?
  {
    SessionRow(t.sessionId.value, t.expiresAt, t.createdAt)
  }

  lemma ListedSessionsDiffer(s: State, a: Hash, b: Hash, userId: string, tenantId: string)
    requires Inv(s) && a != b && Listed(s, a, userId, tenantId) && Listed(s, b, userId, tenantId)
    ensures s.tokens[a].sessionId != s.tokens[b].sessionId
  {
    if s.tokens[a].sessionId == s.tokens[b].sessionId {
      OneLiveToken(s, a, b, s.tokens[a].sessionId.value);
    }
  }

  /** The rows the query returns, in some order, for the selected hashes. */
  ghost predicate RowsFor(s: State, hs: seq<Hash>, rows: seq<SessionRow>) {
    |rows| == |hs|
    && forall i | 0 <= i < |hs| ::
         hs[i] in s.tokens && s.tokens[hs[i]].sessionId.Some? && rows[i] == RowOf(s.tokens[hs[i]])
  }

  lemma ListedAreDistinct(s: State, hs: seq<Hash>, rows: seq<SessionRow>, userId: string, tenantId: string)
    requires Inv(s) && IsListing(s, hs, userId, tenantId) && RowsFor(s, hs, rows)
    ensures forall i, j | 0 <= i < j < |rows| :: rows[i].sessionId != rows[j].sessionId
  {
    forall i, j | 0 <= i < j < |rows| ensures rows[i].sessionId != rows[j].sessionId {
      assert hs[i] in hs && hs[j] in hs;
      ListedSessionsDiffer(s, hs[i], hs[j], userId, tenantId);
    }
  }

  lemma ActiveIsListed(s: State, hs: seq<Hash>, rows: seq<SessionRow>, current: SessionId, claims: Claims)
    requires Inv(s) && IsListing(s, hs, claims.sub, claims.tenantId) && RowsFor(s, hs, rows) && claims in s.issued
    requires SessionActive(s, claims.sessionId, claims.sub)
    ensures Has(Summary(rows, current), claims.sessionId)
  {
    SummaryCovers(rows, current);
    var h :| h in s.tokens && ActiveToken(s, h, claims.sessionId, claims.sub);
    assert OnChain(s, h, claims.sessionId) && ClaimsOk(s, claims);
    assert Listed(s, h, claims.sub, claims.tenantId);
    assert h in hs;
    var i :| 0 <= i < |hs| && hs[i] == h;
    assert rows[i] in rows;
  }

  lemma ListedIsActive(s: State, hs: seq<Hash>, rows: seq<SessionRow>, current: SessionId, claims: Claims)
    requires Inv(s) && IsListing(s, hs, claims.sub, claims.tenantId) && RowsFor(s, hs, rows)
    requires Has(Summary(rows, current), claims.sessionId)
    requires forall e | e in Summary(rows, current) :: exists r :: r in rows && r.sessionId == e.id
    ensures SessionActive(s, claims.sessionId, claims.sub)
  {
    var e :| e in Summary(rows, current) && e.id == claims.sessionId;
    var r :| r in rows && r.sessionId == e.id;
    var i :| 0 <= i < |rows| && rows[i] == r;
    assert hs[i] in hs;
    assert ActiveToken(s, hs[i], claims.sessionId, claims.sub);
  }

  /** In a reachable state the list has one entry per selected row, and names exactly the sessions whose access tokens
    * the middleware accepts. */
  lemma ListIsTheActiveSessions(s: State, hs: seq<Hash>, rows: seq<SessionRow>, current: SessionId, claims: Claims)
    requires Inv(s) && IsListing(s, hs, claims.sub, claims.tenantId) && RowsFor(s, hs, rows) && claims in s.issued
    ensures |Summary(rows, current)| == |hs|
    ensures Has(Summary(rows, current), claims.sessionId) <==> Accepted(s, claims)
  {
    ListedAreDistinct(s, hs, rows, claims.sub, claims.tenantId);
    NothingSkipped(rows, current);
    if SessionActive(s, claims.sessionId, claims.sub) {
      ActiveIsListed(s, hs, rows, current, claims);
    }
    if Has(Summary(rows, current), claims.sessionId) {
      ListedIsActive(s, hs, rows, current, claims);
    }
  }
}
