/** Cache keys and invalidation patterns, as the strings Redis sees. */
module CacheKeys {
  import opened Prelude
  import opened Text

  // ---- colon-separated strings ----

  predicate NoColon(s: string) {
    forall i | 0 <= i < |s| :: s[i] != ':'
  }

  ghost predicate Segments(segs: seq<string>) {
    |segs| > 0 && forall i | 0 <= i < |segs| :: NoColon(segs[i])
  }

  function Join(segs: seq<string>): string {
    if segs == [] then "" else if |segs| == 1 then segs[0] else segs[0] + ":" + Join(segs[1..])
  }

  /** A colon-free head followed by a colon can be read off in one way only. */
  lemma {:induction false} HeadIsUnique(a: string, x: string, b: string, y: string)
    requires NoColon(a) && NoColon(b) && a + ":" + x <= b + ":" + y
    ensures a == b && x <= y
  {
    var l, r := a + ":" + x, b + ":" + y;
    assert l[|a|] == ':' && r[|b|] == ':';
    assert forall i | 0 <= i < |a| :: l[i] == a[i];
    assert forall i | 0 <= i < |b| :: r[i] == b[i];
    assert forall i | 0 <= i < |l| :: l[i] == r[i];
    assert |a| == |b|;
    assert a == l[..|a|] == r[..|b|] == b;
    assert x == l[|a| + 1..] && y == r[|a| + 1..];
    forall i | 0 <= i < |x| ensures i < |y| && x[i] == y[i] {
      assert l[|a| + 1 + i] == r[|a| + 1 + i];
    }
  }

  lemma NoColonInside(a: string, x: string, b: string)
    requires NoColon(b)
    ensures !(a + ":" + x <= b)
  {
    assert (a + ":" + x)[|a|] == ':';
  }

  /** The segments before a trailing colon are the leading segments of whatever starts with them, and conversely. */
  lemma {:induction false} JoinPrefix(xs: seq<string>, ys: seq<string>)
    requires Segments(xs) && Segments(ys)
    ensures Join(xs) + ":" <= Join(ys) <==> |xs| < |ys| && ys[..|xs|] == xs
  {
    var x, y := xs[0], ys[0];
    if |ys| == 1 {
      if |xs| == 1 {
        NoColonInside(x, "", y);
        assert x + ":" + "" == Join(xs) + ":";
      } else {
        NoColonInside(x, Join(xs[1..]) + ":", y);
        assert x + ":" + (Join(xs[1..]) + ":") == Join(xs) + ":";
      }
    } else if |xs| == 1 {
      assert Join(xs) + ":" == x + ":" + "";
      if Join(xs) + ":" <= Join(ys) {
        HeadIsUnique(x, "", y, Join(ys[1..]));
      }
    } else {
      var p, q := Join(xs[1..]) + ":", Join(ys[1..]);
      assert Join(xs) + ":" == x + ":" + p && Join(ys) == y + ":" + q;
      JoinPrefix(xs[1..], ys[1..]);
      if x + ":" + p <= y + ":" + q {
        HeadIsUnique(x, p, y, q);
      }
      if x == y && p <= q {
        assert x + ":" + p <= y + ":" + q;
      }
      if |xs| < |ys| {
        assert ys[..|xs|] == [y] + ys[1..][..|xs| - 1] && xs == [x] + xs[1..];
      }
    }
  }

  lemma {:induction false} JoinInjective(xs: seq<string>, ys: seq<string>)
    requires Segments(xs) && Segments(ys) && Join(xs) == Join(ys)
    ensures xs == ys
  {
    if |xs| == 1 && |ys| == 1 {
    } else if |xs| == 1 {
      NoColonInside(ys[0], Join(ys[1..]), xs[0]);
    } else if |ys| == 1 {
      NoColonInside(xs[0], Join(xs[1..]), ys[0]);
    } else {
      HeadIsUnique(xs[0], Join(xs[1..]), ys[0], Join(ys[1..]));
      HeadIsUnique(ys[0], Join(ys[1..]), xs[0], Join(xs[1..]));
      JoinInjective(xs[1..], ys[1..]);
      assert xs == [xs[0]] + xs[1..] && ys == [ys[0]] + ys[1..];
    }
  }

  // ---- the key builders ----

  /** `sanitizeId` lets an id through when either pattern matches. */
  predicate ValidId(id: string) {
    IsUuidLike(id) || (1 <= |id| <= 64 && forall i | 0 <= i < |id| :: WordChar(id[i]))
  }

  datatype CacheKey =
    | Tenant(tenantId: string)
    | TenantSettings(tenantId: string)
    | PermissionsList(tenantId: string)
    | UserPermissions(tenantId: string, userId: string)
    | ProductList(tenantId: string, digest: string)
    | DashboardOverview(tenantId: string)
    | Analytics(tenantId: string, endpoint: string, digest: string)

  predicate IsEndpoint(e: string) {
    e == "overview" || e == "sales" || e == "orders" || e == "inventory" || e == "customers" || e == "revenue"
  }

  /** Sixteen hexadecimal digits of a hash. */
  predicate IsDigest(d: string) {
    |d| == 16 && forall i | 0 <= i < |d| :: UuidChar(d[i]) && d[i] != '-'
  }

  predicate ValidKey(k: CacheKey) {
    && ValidId(k.tenantId)
    && (k.UserPermissions? ==> ValidId(k.userId))
    && (k.ProductList? ==> IsDigest(k.digest))
    && (k.Analytics? ==> IsEndpoint(k.endpoint) && IsDigest(k.digest))
  }

  function Tail(k: CacheKey): seq<string> {
    match k
    case Tenant(_) => []
    case TenantSettings(_) => ["settings"]
    case PermissionsList(_) => ["permissions", "list"]
    case UserPermissions(_, userId) => ["permissions", "user", userId]
    case ProductList(_, digest) => ["products", "list", digest]
    case DashboardOverview(_) => ["dashboard", "overview"]
    case Analytics(_, endpoint, digest) => ["analytics", endpoint, digest]
  }

  function Head(tenantId: string): seq<string> {
    ["pulseops", "v1", "tenant", tenantId]
  }

  function Render(k: CacheKey): string {
    Join(Head(k.tenantId) + Tail(k))
  }

  /** The builders throw on an id that `sanitizeId` refuses. */
  function Build(k: CacheKey): Result<string, string> {
    if !ValidId(k.tenantId) || (k.UserPermissions? && !ValidId(k.userId))
        then Err("Invalid cache id") else Ok(Render(k))
  }

  lemma IdIsSegment(id: string)
    requires ValidId(id)
    ensures NoColon(id) && |id| > 0
  {
  }

  predicate Plain(p: string) {
    forall i | 0 <= i < |p| :: p[i] !in "*?[]\\"
  }

  predicate PlainSegment(s: string) {
    NoColon(s) && Plain(s)
  }

  lemma EndpointIsPlain(e: string)
    requires IsEndpoint(e)
    ensures PlainSegment(e)
  {
  }

  lemma TailIsSegments(k: CacheKey)
    requires ValidKey(k)
    ensures forall i | 0 <= i < |Tail(k)| :: NoColon(Tail(k)[i])
  {
    if k.UserPermissions? {
      IdIsSegment(k.userId);
    } else if k.Analytics? {
      EndpointIsPlain(k.endpoint);
    }
  }

  lemma KeyIsSegments(k: CacheKey)
    requires ValidKey(k)
    ensures Segments(Head(k.tenantId) + Tail(k))
  {
    IdIsSegment(k.tenantId);
    TailIsSegments(k);
    var segs := Head(k.tenantId) + Tail(k);
    forall i | 0 <= i < |segs| ensures NoColon(segs[i]) {
      if i >= 4 {
        assert segs[i] == Tail(k)[i - 4];
      }
    }
  }

  lemma TailInjective(a: CacheKey, b: CacheKey)
    requires a.tenantId == b.tenantId && Tail(a) == Tail(b)
    ensures a == b
  {
    assert |Tail(a)| == 2 ==> Tail(a)[0] == Tail(b)[0];
    assert |Tail(a)| == 3 ==> Tail(a)[0] == Tail(b)[0] && Tail(a)[1] == Tail(b)[1] && Tail(a)[2] == Tail(b)[2];
    assert "permissions"[1] != "products"[1] && "permissions"[0] != "analytics"[0] && "products"[0] != "analytics"[0];
    assert "permissions"[0] != "dashboard"[0];
  }

  /** Different keys are different strings: no tenant, family, user, endpoint or digest is ever confused. */
  lemma RenderInjective(a: CacheKey, b: CacheKey)
    requires ValidKey(a) && ValidKey(b) && Render(a) == Render(b)
    ensures a == b
  {
    KeyIsSegments(a);
    KeyIsSegments(b);
    var xs, ys := Head(a.tenantId) + Tail(a), Head(b.tenantId) + Tail(b);
    JoinInjective(xs, ys);
    assert xs[3] == a.tenantId && ys[3] == b.tenantId;
    assert Tail(a) == xs[4..] == ys[4..] == Tail(b);
    TailInjective(a, b);
  }

  // ---- patterns ----

  /** Redis glob matching for patterns without character classes. */
  predicate Glob(p: string, s: string)
    requires '[' !in p
    decreases |p| + |s|
  {
    if p == "" then s == ""
    else if p[0] == '*' then Glob(p[1..], s) || (s != "" && Glob(p, s[1..]))
    else if p[0] == '?' then s != "" && Glob(p[1..], s[1..])
    else if p[0] == '\\' && |p| > 1 then s != "" && s[0] == p[1] && Glob(p[2..], s[1..])
    else s != "" && s[0] == p[0] && Glob(p[1..], s[1..])
  }

  lemma {:induction false} StarMatchesAll(s: string)
    ensures Glob("*", s)
    decreases |s|
  {
    if s == "" {
      assert Glob("*"[1..], s);
    } else {
      StarMatchesAll(s[1..]);
    }
  }

  /** A plain prefix and a star match exactly the strings with that prefix. */
  lemma {:induction false} GlobIsPrefix(p: string, s: string)
    requires Plain(p)
    ensures Glob(p + "*", s) <==> p <= s
    decreases |p|
  {
    if p == "" {
      assert p + "*" == "*";
      StarMatchesAll(s);
    } else {
      assert (p + "*")[1..] == p[1..] + "*";
      if s != "" {
        GlobIsPrefix(p[1..], s[1..]);
        assert p <= s <==> p[0] == s[0] && p[1..] <= s[1..] by {
          if p[0] == s[0] && p[1..] <= s[1..] {
            assert p == [p[0]] + p[1..] && s == [s[0]] + s[1..];
          }
        }
      }
    }
  }

  /** The pattern for everything below the given segments. */
  function Below(segs: seq<string>): string {
    Join(segs) + ":*"
  }

  function UserPermissionsPattern(tenantId: string): string {
    Below(Head(tenantId) + ["permissions", "user"])
  }

  function ProductListPattern(tenantId: string): string {
    Below(Head(tenantId) + ["products", "list"])
  }

  function DashboardPattern(tenantId: string): string {
    Below(Head(tenantId) + ["dashboard"])
  }

  function AnalyticsPattern(tenantId: string): string {
    Below(Head(tenantId) + ["analytics"])
  }

  lemma {:induction false} JoinIsPlain(segs: seq<string>)
    requires forall i | 0 <= i < |segs| :: Plain(segs[i])
    ensures Plain(Join(segs))
  {
    if |segs| > 1 {
      JoinIsPlain(segs[1..]);
    }
  }

  /** A pattern below some segments matches the keys that start with them. */
  lemma BelowMatches(segs: seq<string>, k: CacheKey)
    requires |segs| > 0 && (forall i | 0 <= i < |segs| :: PlainSegment(segs[i])) && ValidKey(k)
    ensures var key := Head(k.tenantId) + Tail(k);
            '[' !in Below(segs) && (Glob(Below(segs), Render(k)) <==> |segs| < |key| && key[..|segs|] == segs)
  {
    KeyIsSegments(k);
    JoinIsPlain(segs);
    var p := Join(segs) + ":";
    assert Below(segs) == p + "*";
    GlobIsPrefix(p, Render(k));
    JoinPrefix(segs, Head(k.tenantId) + Tail(k));
  }

  lemma TenantSegments(tenantId: string, tail: seq<string>)
    requires ValidId(tenantId) && forall i | 0 <= i < |tail| :: PlainSegment(tail[i])
    ensures forall i | 0 <= i < |Head(tenantId) + tail| :: PlainSegment((Head(tenantId) + tail)[i])
  {
    var segs := Head(tenantId) + tail;
    assert PlainSegment("pulseops") && PlainSegment("v1") && PlainSegment("tenant") && PlainSegment(tenantId);
    forall i | 0 <= i < |segs| ensures PlainSegment(segs[i]) {
      if i >= 4 {
        assert segs[i] == tail[i - 4];
      }
    }
  }

  /** A pattern below a tenant's segments matches keys of that tenant only: those whose tail starts the same way. */
  lemma TenantPatternMatches(tenantId: string, tail: seq<string>, k: CacheKey)
    requires ValidId(tenantId) && (forall i | 0 <= i < |tail| :: PlainSegment(tail[i])) && ValidKey(k)
    ensures var p := Below(Head(tenantId) + tail);
            '[' !in p && (Glob(p, Render(k))
                <==> k.tenantId == tenantId && |tail| < |Tail(k)| && Tail(k)[..|tail|] == tail)
  {
    var segs, key := Head(tenantId) + tail, Head(k.tenantId) + Tail(k);
    TenantSegments(tenantId, tail);
    BelowMatches(segs, k);
    if |segs| < |key| {
      assert key[..|segs|] == Head(k.tenantId) + Tail(k)[..|tail|];
      if key[..|segs|] == segs {
        assert key[..|segs|][3] == k.tenantId && segs[3] == tenantId;
        assert Tail(k)[..|tail|] == key[..|segs|][4..] && tail == segs[4..];
      }
    }
  }

  /** The words of a key tell its family. */
  lemma FamilyOfTail(k: CacheKey)
    ensures |Tail(k)| == 3 && Tail(k)[0] == "permissions" <==> k.UserPermissions?
    ensures |Tail(k)| == 3 && Tail(k)[0] == "products" <==> k.ProductList?
    ensures |Tail(k)| == 2 && Tail(k)[0] == "dashboard" <==> k.DashboardOverview?
    ensures |Tail(k)| == 3 && Tail(k)[0] == "analytics" <==> k.Analytics?
  {
    assert "permissions"[1] != "products"[1] && "permissions"[0] != "analytics"[0] && "products"[0] != "analytics"[0];
    assert "permissions"[0] != "dashboard"[0] && "products"[0] != "dashboard"[0] && "analytics"[0] != "dashboard"[0];
  }

  /** Each invalidation pattern matches exactly its own family of one tenant's keys. */
  lemma UserPermissionsPatternIsExact(tenantId: string, k: CacheKey)
    requires ValidId(tenantId) && ValidKey(k)
    ensures '[' !in UserPermissionsPattern(tenantId)
            && (Glob(UserPermissionsPattern(tenantId), Render(k)) <==> k.UserPermissions? && k.tenantId == tenantId)
  {
    TenantPatternMatches(tenantId, ["permissions", "user"], k);
    FamilyOfTail(k);
    if |Tail(k)| > 2 {
      assert Tail(k)[..2] == [Tail(k)[0], Tail(k)[1]];
      assert Tail(k)[..2] == ["permissions", "user"] ==> Tail(k)[..2][0] == "permissions";
    }
  }

  lemma ProductListPatternIsExact(tenantId: string, k: CacheKey)
    requires ValidId(tenantId) && ValidKey(k)
    ensures '[' !in ProductListPattern(tenantId)
            && (Glob(ProductListPattern(tenantId), Render(k)) <==> k.ProductList? && k.tenantId == tenantId)
  {
    TenantPatternMatches(tenantId, ["products", "list"], k);
    FamilyOfTail(k);
    if |Tail(k)| > 2 {
      assert Tail(k)[..2] == [Tail(k)[0], Tail(k)[1]];
      assert Tail(k)[..2] == ["products", "list"] ==> Tail(k)[..2][0] == "products";
    }
  }

  lemma OneWordPattern(tenantId: string, word: string, k: CacheKey)
    requires ValidId(tenantId) && PlainSegment(word) && ValidKey(k)
    ensures var p := Below(Head(tenantId) + [word]);
            '[' !in p && (Glob(p, Render(k)) <==> k.tenantId == tenantId && |Tail(k)| > 1 && Tail(k)[0] == word)
  {
    TenantPatternMatches(tenantId, [word], k);
    if |Tail(k)| > 1 {
      assert Tail(k)[..1] == [Tail(k)[0]];
      assert Tail(k)[..1] == [word] <==> Tail(k)[0] == word by {
        assert Tail(k)[..1][0] == Tail(k)[0] && [word][0] == word;
      }
    }
  }

  lemma DashboardPatternIsExact(tenantId: string, k: CacheKey)
    requires ValidId(tenantId) && ValidKey(k)
    ensures '[' !in DashboardPattern(tenantId)
            && (Glob(DashboardPattern(tenantId), Render(k)) <==> k.DashboardOverview? && k.tenantId == tenantId)
  {
    OneWordPattern(tenantId, "dashboard", k);
    FamilyOfTail(k);
  }

  lemma AnalyticsPatternIsExact(tenantId: string, k: CacheKey)
    requires ValidId(tenantId) && ValidKey(k)
    ensures '[' !in AnalyticsPattern(tenantId)
            && (Glob(AnalyticsPattern(tenantId), Render(k)) <==> k.Analytics? && k.tenantId == tenantId)
  {
    OneWordPattern(tenantId, "analytics", k);
    FamilyOfTail(k);
  }

  // ---- the strings themselves ----

  /** Of the two tests of an id the first adds nothing: an id passes if and only if it has 1 to 64 letters, digits,
    * underscores or hyphens; and a builder fails exactly on the others. */
  lemma IdsPassIff(k: CacheKey, id: string)
    ensures ValidId(id) <==>
              1 <= |id| <= 64 && forall i | 0 <= i < |id| ::
                'a' <= id[i] <= 'z' || 'A' <= id[i] <= 'Z' || '0' <= id[i] <= '9' || id[i] == '_' || id[i] == '-'
    ensures Build(k).Ok? <==> ValidId(k.tenantId) && (k.UserPermissions? ==> ValidId(k.userId))
    ensures Build(k).Ok? ==> Build(k).value == Render(k)
  {
  }

  lemma JoinCons(head: string, rest: seq<string>)
    requires rest != []
    ensures Join([head] + rest) == head + ":" + Join(rest)
  {
    assert ([head] + rest)[1..] == rest;
  }

  lemma JoinTwo(a: string, b: string, c: string)
    ensures Join([a, b]) == a + ":" + b && Join([a, b, c]) == a + ":" + (b + ":" + c)
  {
    JoinCons(a, [b]);
    JoinCons(b, [c]);
    JoinCons(a, [b, c]);
    assert [b] + [c] == [b, c] && [a] + [b] == [a, b] && [a] + [b, c] == [a, b, c];
  }

  lemma Prefixed(rest: string)
    ensures "pulseops" + ":" + ("v1" + ":" + ("tenant" + ":" + rest)) == "pulseops:v1:tenant:" + rest
  {
  }

  lemma JoinHead(last: seq<string>)
    requires last != []
    ensures Join(["pulseops"] + (["v1"] + (["tenant"] + last)))
            == "pulseops" + ":" + ("v1" + ":" + ("tenant" + ":" + Join(last)))
  {
    JoinCons("tenant", last);
    JoinCons("v1", ["tenant"] + last);
    JoinCons("pulseops", ["v1"] + (["tenant"] + last));
  }

  lemma UnderTenant(tenantId: string, tail: seq<string>)
    ensures Join(Head(tenantId) + tail)
            == "pulseops:v1:tenant:" + (if tail == [] then tenantId else tenantId + ":" + Join(tail))
  {
    var last := [tenantId] + tail;
    if tail == [] {
      assert last == [tenantId];
    } else {
      JoinCons(tenantId, tail);
    }
    JoinHead(last);
    Prefixed(Join(last));
    assert Head(tenantId) + tail == ["pulseops"] + (["v1"] + (["tenant"] + last));
  }

  lemma TwoWords(u: string, d: string)
    ensures "permissions" + ":" + ("user" + ":" + u) == "permissions:user:" + u
    ensures "products" + ":" + ("list" + ":" + d) == "products:list:" + d
  {
  }

  /** The keys of a tenant and its permissions, spelled out. */
  lemma KeysReadAs(t: string, u: string)
    ensures Render(Tenant(t)) == "pulseops:v1:tenant:" + t
    ensures Render(TenantSettings(t)) == "pulseops:v1:tenant:" + (t + ":" + "settings")
    ensures Render(PermissionsList(t)) == "pulseops:v1:tenant:" + (t + ":" + "permissions:list")
    ensures Render(UserPermissions(t, u)) == "pulseops:v1:tenant:" + (t + ":" + ("permissions:user:" + u))
  {
    UnderTenant(t, []);
    UnderTenant(t, ["settings"]);
    UnderTenant(t, ["permissions", "list"]);
    UnderTenant(t, ["permissions", "user", u]);
    JoinTwo("permissions", "list", "");
    JoinTwo("permissions", "user", u);
    TwoWords(u, "");
  }

  /** The keys of lists and reports. */
  lemma ReportKeysReadAs(t: string, e: string, d: string)
    ensures Render(ProductList(t, d)) == "pulseops:v1:tenant:" + (t + ":" + ("products:list:" + d))
    ensures Render(DashboardOverview(t)) == "pulseops:v1:tenant:" + (t + ":" + "dashboard:overview")
    ensures Render(Analytics(t, e, d)) == "pulseops:v1:tenant:" + (t + ":" + ("analytics:" + (e + ":" + d)))
  {
    UnderTenant(t, ["products", "list", d]);
    UnderTenant(t, ["dashboard", "overview"]);
    UnderTenant(t, ["analytics", e, d]);
    JoinTwo("products", "list", d);
    JoinTwo("dashboard", "overview", "");
    JoinTwo("analytics", e, d);
    TwoWords("", d);
  }

  /** The patterns. */
  lemma PatternsReadAs(t: string)
    ensures UserPermissionsPattern(t) == "pulseops:v1:tenant:" + (t + ":" + "permissions:user") + ":*"
    ensures ProductListPattern(t) == "pulseops:v1:tenant:" + (t + ":" + "products:list") + ":*"
    ensures DashboardPattern(t) == "pulseops:v1:tenant:" + (t + ":" + "dashboard") + ":*"
    ensures AnalyticsPattern(t) == "pulseops:v1:tenant:" + (t + ":" + "analytics") + ":*"
  {
    UnderTenant(t, ["permissions", "user"]);
    UnderTenant(t, ["products", "list"]);
    UnderTenant(t, ["dashboard"]);
    UnderTenant(t, ["analytics"]);
    JoinTwo("permissions", "user", "");
    JoinTwo("products", "list", "");
  }
}
