/** The keys of cached reports, and the patterns that `invalidateCache` cuts out of them. */
module AnalyticsKeys {
  import opened Prelude
  import opened CacheKeys

  // ---- which requests share a key ----

  datatype Params = Params(
    from: Option<string>, to: Option<string>, groupBy: Option<string>, category: Option<string>,
    categoryId: Option<string>, product: Option<string>, productId: Option<string>, status: Option<string>,
    warehouseId: Option<string>, warehouse: Option<string>, page: Option<int>, limit: Option<int>)

  /** The object whose JSON is hashed. */
  datatype Query = Query(
    from: string, to: string, groupBy: string, category: string, product: string, status: string, warehouseId: string,
    page: int, limit: int)

  /** `a || b || ''`: an empty string counts as absent. */
  function Either(a: Option<string>, b: Option<string>): string {
    if a.Some? && a.value != "" then a.value else if b.Some? then b.value else ""
  }

  function OrDefault(a: Option<int>, d: int): int {
    if a.Some? then a.value else d
  }

  function Normalize(p: Params): Query {
    Query(Either(p.from, None), Either(p.to, None), Either(p.groupBy, None), Either(p.category, p.categoryId),
          Either(p.product, p.productId), Either(p.status, None), Either(p.warehouseId, p.warehouse),
          OrDefault(p.page, 1), OrDefault(p.limit, 20))
  }

  function KeyFor(tenantId: string, endpoint: string, p: Params, digest: Query -> string): CacheKey {
    Analytics(tenantId, endpoint, digest(Normalize(p)))
  }

  /** The digest tells these two queries apart, or they are the same. */
  predicate Separates(digest: Query -> string, q: Query, r: Query) {
    digest(q) == digest(r) ==> q == r
  }

  /** Two report requests share a cache entry exactly when tenant, endpoint and digest agree, so, unless the digest
    * confuses these two, exactly when tenant, endpoint and normalised parameters agree. */
  lemma SharedKeyIff(t1: string, e1: string, p1: Params, t2: string, e2: string, p2: Params, digest: Query -> string)
    requires ValidId(t1) && ValidId(t2) && IsEndpoint(e1) && IsEndpoint(e2)
    requires IsDigest(digest(Normalize(p1))) && IsDigest(digest(Normalize(p2)))
    ensures var shared := Render(KeyFor(t1, e1, p1, digest)) == Render(KeyFor(t2, e2, p2, digest));
            && (shared <==> t1 == t2 && e1 == e2 && digest(Normalize(p1)) == digest(Normalize(p2)))
            && (Separates(digest, Normalize(p1), Normalize(p2)) ==>
                  (shared <==> t1 == t2 && e1 == e2 && Normalize(p1) == Normalize(p2)))
  {
    if Render(KeyFor(t1, e1, p1, digest)) == Render(KeyFor(t2, e2, p2, digest)) {
      RenderInjective(KeyFor(t1, e1, p1, digest), KeyFor(t2, e2, p2, digest));
    }
  }

  // ---- what a report reads of its parameters ----

  /** What the repository takes from the parameters; None where it sets no condition. */
  datatype Filters = Filters(
    from: Option<string>, to: Option<string>, groupBy: Option<string>, category: Option<string>,
    product: Option<string>, status: Option<string>, warehouse: Option<string>, page: int, limit: int)

  /** `a || b || null`. */
  function FirstOf(a: Option<string>, b: Option<string>): Option<string> {
    if a.Some? && a.value != "" then a else if b.Some? && b.value != "" then b else None
  }

  /** Each report, from the lines that read its filters. */
  function ReadBy(endpoint: string, p: Params): Filters {
    var from, to := FirstOf(p.from, None), FirstOf(p.to, None);
    var groupBy, status := FirstOf(p.groupBy, None), FirstOf(p.status, None);
    var category, product := FirstOf(p.category, p.categoryId), FirstOf(p.product, p.productId);
    var page, limit := OrDefault(p.page, 1), if OrDefault(p.limit, 20) < 100 then OrDefault(p.limit, 20) else 100;
    if endpoint == "overview" then Filters(from, to, None, None, None, None, None, 1, 1)
    else if endpoint == "sales" then Filters(from, to, groupBy, category, product, status, None, page, limit)
    else if endpoint == "orders" then Filters(from, to, groupBy, None, None, status, None, page, limit)
    else if endpoint == "inventory" then
      Filters(None, None, None, category, product, status, FirstOf(p.warehouseId, p.warehouse), page, limit)
    else if endpoint == "customers" then Filters(from, to, groupBy, None, None, None, None, page, limit)
    else Filters(from, to, groupBy, None, None, Some(if status.Some? then status.value else "COMPLETED"), None, page,
        limit)
  }

  /** The parameters a query stands for. */
  function AsParams(q: Query): Params {
    Params(Some(q.from), Some(q.to), Some(q.groupBy), Some(q.category), None, Some(q.product), None, Some(q.status),
           Some(q.warehouseId), None, Some(q.page), Some(q.limit))
  }

  lemma FirstOfNormal(a: Option<string>, b: Option<string>)
    ensures FirstOf(Some(Either(a, b)), None) == FirstOf(a, b)
    ensures Either(Some(Either(a, b)), None) == Either(a, b)
  {
  }

  /** A report reads nothing that its key leaves out: what it reads is a function of the normalised parameters. */
  lemma ReadsFactorThroughTheKey(endpoint: string, p: Params)
    ensures ReadBy(endpoint, p) == ReadBy(endpoint, AsParams(Normalize(p)))
    ensures Normalize(AsParams(Normalize(p))) == Normalize(p)
  {
    FirstOfNormal(p.from, None);
    FirstOfNormal(p.to, None);
    FirstOfNormal(p.groupBy, None);
    FirstOfNormal(p.status, None);
    FirstOfNormal(p.category, p.categoryId);
    FirstOfNormal(p.product, p.productId);
    FirstOfNormal(p.warehouseId, p.warehouse);
  }

  /** So requests that may share an entry ask the same question. */
  lemma SharedKeyReadsAlike(endpoint: string, p1: Params, p2: Params)
    requires Normalize(p1) == Normalize(p2)
    ensures ReadBy(endpoint, p1) == ReadBy(endpoint, p2)
  {
    ReadsFactorThroughTheKey(endpoint, p1);
    ReadsFactorThroughTheKey(endpoint, p2);
  }

  predicate AgreeIf(needed: bool, a: string, b: string) {
    needed ==> a == b
  }

  /** What each report reads, field by field: two queries are the same question to it if and only if they agree on these
    * fields. No status and COMPLETED are one for the revenue report, and so are all limits from a hundred. */
  lemma ReadsExactly(endpoint: string, q: Query, r: Query)
    requires IsEndpoint(endpoint)
    ensures ReadBy(endpoint, AsParams(q)) == ReadBy(endpoint, AsParams(r)) <==>
              && AgreeIf(endpoint != "inventory", q.from, r.from) && AgreeIf(endpoint != "inventory", q.to, r.to)
              && AgreeIf(endpoint in {"sales", "orders", "customers", "revenue"}, q.groupBy, r.groupBy)
              && AgreeIf(endpoint in {"sales", "inventory"}, q.category, r.category)
              && AgreeIf(endpoint in {"sales", "inventory"}, q.product, r.product)
              && AgreeIf(endpoint in {"sales", "orders", "inventory"}, q.status, r.status)
              && AgreeIf(endpoint == "revenue", if q.status == "" then "COMPLETED" else q.status,
                         if r.status == "" then "COMPLETED" else r.status)
              && AgreeIf(endpoint == "inventory", q.warehouseId, r.warehouseId)
              && (endpoint != "overview" ==>
                    q.page == r.page && (q.limit == r.limit || (q.limit >= 100 && r.limit >= 100)))
  {
  }

  // ---- cutting a key at an endpoint ----

  /** `s.split(sep)[0]`: everything before the first occurrence. */
  function Before(s: string, sep: string): string {
    if s == "" || sep <= s then "" else [s[0]] + Before(s[1..], sep)
  }

  lemma {:induction false} BeforeSkips(seg: string, s: string, sep: string)
    requires NoColon(seg) && |sep| > 0 && sep[0] == ':'
    ensures Before(seg + s, sep) == seg + Before(s, sep)
    decreases |seg|
  {
    if seg == "" {
      assert seg + s == s;
    } else {
      assert (seg + s)[0] == seg[0] && (seg + s)[1..] == seg[1..] + s;
      BeforeSkips(seg[1..], s, sep);
    }
  }

  /** Where the cut falls: before the first segment, after the head, that is the word and is not the last. */
  function Cut(segs: seq<string>, word: string): nat
    requires |segs| > 0
    ensures 1 <= Cut(segs, word) <= |segs|
  {
    if |segs| == 1 then 1 else if segs[1] == word && |segs| > 2 then 1 else 1 + Cut(segs[1..], word)
  }

  lemma {:induction false} BeforeWord(segs: seq<string>, word: string)
    requires Segments(segs) && NoColon(word)
    ensures Before(Join(segs), ":" + word + ":") == Join(segs[..Cut(segs, word)])
    decreases |segs|
  {
    var sep := ":" + word + ":";
    var first := segs[0];
    if |segs| == 1 {
      BeforeSkips(first, "", sep);
      assert first + "" == Join(segs) && segs[..1] == segs;
    } else {
      var rest := segs[1..];
      var tail := ":" + Join(rest);
      assert Join(segs) == first + tail;
      BeforeSkips(first, tail, sep);
      JoinPrefix([word], rest);
      assert Join([word]) + ":" == word + ":";
      assert sep <= tail <==> word + ":" <= Join(rest) by {
        assert sep == ":" + (word + ":");
        assert sep[1..] == word + ":" && tail[1..] == Join(rest);
        if word + ":" <= Join(rest) {
          assert ":" + (word + ":") <= ":" + Join(rest);
        }
      }
      assert |rest| > 1 ==> (rest[..1] == [word] <==> rest[0] == word) by {
        if |rest| > 1 {
          assert rest[..1] == [rest[0]] && rest[..1][0] == rest[0] && [word][0] == word;
        }
      }
      if segs[1] == word && |segs| > 2 {
        assert segs[..1] == [first];
      } else {
        BeforeWord(rest, word);
        assert tail[1..] == Join(rest) && Before(tail, sep) == ":" + Before(Join(rest), sep);
        var c := Cut(rest, word);
        assert segs[..c + 1] == [first] + rest[..c] && segs[..c + 1][1..] == rest[..c];
      }
    }
  }

  /** `key.split(':endpoint:')[0] + ':endpoint:*'`, as `invalidateCache` builds it. */
  function EndpointPattern(tenantId: string, endpoint: string, digest: string): string {
    Before(Render(Analytics(tenantId, endpoint, digest)), ":" + endpoint + ":") + ":" + endpoint + ":*"
  }

  lemma CutOfKey(tenantId: string, endpoint: string, digest: string)
    requires ValidId(tenantId) && IsEndpoint(endpoint)
    ensures Cut(Head(tenantId) + ["analytics", endpoint, digest], endpoint) == if tenantId == endpoint then 3 else 5
  {
    var segs := Head(tenantId) + ["analytics", endpoint, digest];
    assert segs == ["pulseops", "v1", "tenant", tenantId, "analytics", endpoint, digest];
    assert endpoint[0] != "v1"[0] && endpoint[0] != "tenant"[0] && endpoint[0] != "analytics"[0];
    var a, b, c, d := segs[1..], segs[2..], segs[3..], segs[4..];
    assert a[1..] == b && b[1..] == c && c[1..] == d;
    assert a[1] == "tenant" && b[1] == tenantId && c[1] == "analytics" && d[1] == endpoint && |d| == 3;
    assert Cut(d, endpoint) == 1;
    assert Cut(c, endpoint) == 2;
    assert Cut(b, endpoint) == if tenantId == endpoint then 1 else 3;
    assert Cut(a, endpoint) == 1 + Cut(b, endpoint);
  }

  lemma {:induction false} JoinSnoc(segs: seq<string>, last: string)
    requires |segs| > 0
    ensures Join(segs + [last]) == Join(segs) + ":" + last
    decreases |segs|
  {
    if |segs| == 1 {
      assert (segs + [last])[1..] == [last];
    } else {
      assert (segs + [last])[1..] == segs[1..] + [last];
      JoinSnoc(segs[1..], last);
    }
  }

  /** The pattern lies below the endpoint's segments, unless the tenant is called like the endpoint. */
  lemma EndpointPatternIs(tenantId: string, endpoint: string, digest: string)
    requires ValidId(tenantId) && IsEndpoint(endpoint) && IsDigest(digest)
    ensures EndpointPattern(tenantId, endpoint, digest)
            == if tenantId == endpoint then Below(Head(tenantId)) else Below(Head(tenantId) + ["analytics", endpoint])
  {
    var segs := Head(tenantId) + ["analytics", endpoint, digest];
    var k := Analytics(tenantId, endpoint, digest);
    KeyIsSegments(k);
    BeforeWord(segs, endpoint);
    CutOfKey(tenantId, endpoint, digest);
    if tenantId == endpoint {
      assert segs[..3] == ["pulseops", "v1", "tenant"];
      JoinSnoc(segs[..3], endpoint);
      assert segs[..3] + [endpoint] == Head(tenantId);
      assert Join(segs[..3]) + ":" + endpoint + ":*" == Join(Head(tenantId)) + ":*";
    } else {
      assert segs[..5] == Head(tenantId) + ["analytics"];
      JoinSnoc(segs[..5], endpoint);
      assert segs[..5] + [endpoint] == Head(tenantId) + ["analytics", endpoint];
      assert Join(segs[..5]) + ":" + endpoint + ":*" == Join(Head(tenantId) + ["analytics", endpoint]) + ":*";
    }
  }

  /** Invalidating one endpoint removes exactly that endpoint's reports of the tenant, except for a tenant whose id is
    * the endpoint's name: there it removes every key below the tenant. No other tenant is touched in either case. */
  lemma EndpointPatternMatches(tenantId: string, endpoint: string, digest: string, k: CacheKey)
    requires ValidId(tenantId) && IsEndpoint(endpoint) && IsDigest(digest) && ValidKey(k)
    ensures var p := EndpointPattern(tenantId, endpoint, digest);
            '[' !in p
            && (Glob(p, Render(k)) <==>
                  k.tenantId == tenantId
                  && (if tenantId == endpoint then !k.Tenant? else k.Analytics? && k.endpoint == endpoint))
  {
    EndpointPatternIs(tenantId, endpoint, digest);
    if tenantId == endpoint {
      assert Head(tenantId) + [] == Head(tenantId);
      TenantPatternMatches(tenantId, [], k);
      assert |Tail(k)| > 0 ==> Tail(k)[..0] == [];
    } else {
      EndpointIsPlain(endpoint);
      TenantPatternMatches(tenantId, ["analytics", endpoint], k);
      FamilyOfTail(k);
      if |Tail(k)| > 2 {
        assert Tail(k)[..2] == [Tail(k)[0], Tail(k)[1]];
        assert Tail(k)[..2] == ["analytics", endpoint] ==>
                Tail(k)[..2][0] == "analytics" && Tail(k)[..2][1] == endpoint;
      }
    }
  }

  /** So the pattern is exact for every key of the tenant if and only if the tenant's id is not the endpoint's name. */
  lemma EndpointPatternIsExactIff(tenantId: string, endpoint: string, digest: string)
    requires ValidId(tenantId) && IsEndpoint(endpoint) && IsDigest(digest)
    ensures (forall k | ValidKey(k) ::
               '[' !in EndpointPattern(tenantId, endpoint, digest)
               && (Glob(EndpointPattern(tenantId, endpoint, digest), Render(k)) <==>
                     k.Analytics? && k.tenantId == tenantId && k.endpoint == endpoint))
            <==> tenantId != endpoint
  {
    forall k | ValidKey(k)
      ensures var p := EndpointPattern(tenantId, endpoint, digest);
              '[' !in p && (Glob(p, Render(k)) <==>
                              k.tenantId == tenantId
                              && (if tenantId == endpoint then !k.Tenant? else k.Analytics? && k.endpoint == endpoint))
    {
      EndpointPatternMatches(tenantId, endpoint, digest, k);
    }
    assert ValidKey(TenantSettings(tenantId));
  }
}
