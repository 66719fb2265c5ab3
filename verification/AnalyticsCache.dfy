/** The report cache as the analytics service uses it: fill on a miss, and delete one pattern per endpoint to
  * invalidate. */
module AnalyticsCache {
  import opened Prelude
  import opened CacheKeys
  import opened CacheService
  import opened AnalyticsKeys
  import CacheAside

  datatype Fetched = Fetched(data: string, cacheHit: bool)

  /** What one load answered, and when. */
  datatype Load = Load(tenantId: string, endpoint: string, query: Query, data: string, at: int)

  function Report(tenantId: string, endpoint: string, digest: string): string {
    Render(Analytics(tenantId, endpoint, digest))
  }

  function Ttl(endpoint: string): int {
    CacheAside.Ttl(Analytics("", endpoint, ""))
  }

  /** The endpoints, in the order in which `invalidateCache` takes them. */
  function Endpoints(): seq<string> {
    ["overview", "sales", "orders", "inventory", "customers", "revenue"]
  }

  lemma EndpointAt(e: string) returns (i: nat)
    requires IsEndpoint(e)
    ensures i < 6 && Endpoints()[i] == e
  {
    i := if e == "overview" then 0 else if e == "sales" then 1 else if e == "orders" then 2
         else if e == "inventory" then 3 else if e == "customers" then 4 else 5;
  }

  /** Whether deleting the endpoint's pattern removes this key. */
  predicate Hit(tenantId: string, endpoint: string, k: CacheKey) {
    k.tenantId == tenantId && if tenantId == endpoint then !k.Tenant? else k.Analytics? && k.endpoint == endpoint
  }

  predicate HitBefore(tenantId: string, n: nat, k: CacheKey)
    requires n <= 6
  {
    exists i | 0 <= i < n :: Hit(tenantId, Endpoints()[i], k)
  }

  /** What a full invalidation removes: the tenant's reports, and everything below a tenant that is called like an
    * endpoint. */
  lemma HitByAll(tenantId: string, k: CacheKey)
    requires ValidKey(k)
    ensures HitBefore(tenantId, 6, k)
            <==> k.tenantId == tenantId && if IsEndpoint(tenantId) then !k.Tenant? else k.Analytics?
  {
    var es := Endpoints();
    if k.tenantId == tenantId && k.Analytics? {
      var i := EndpointAt(k.endpoint);
      assert Hit(tenantId, es[i], k);
    }
    if k.tenantId == tenantId && IsEndpoint(tenantId) && !k.Tenant? {
      var i := EndpointAt(tenantId);
      assert Hit(tenantId, es[i], k);
    }
    if HitBefore(tenantId, 6, k) {
      var i :| 0 <= i < 6 && Hit(tenantId, es[i], k);
      assert IsEndpoint(es[i]);
    }
  }

  /** The two keys that are deleted first belong to the family that the patterns remove. */
  lemma DeletedAreHit(tenantId: string, d: string, k: CacheKey)
    requires ValidId(tenantId) && IsDigest(d) && ValidKey(k) && !HitBefore(tenantId, 6, k)
    ensures Render(k) != Report(tenantId, "overview", d) && Render(k) != Report(tenantId, "sales", d)
  {
    HitByAll(tenantId, k);
    if Render(k) == Report(tenantId, "overview", d) {
      RenderInjective(k, Analytics(tenantId, "overview", d));
    }
    if Render(k) == Report(tenantId, "sales", d) {
      RenderInjective(k, Analytics(tenantId, "sales", d));
    }
  }

  class Reports {
    const cache: Cache<string>
    const digest: Query -> string
    ghost var loads: set<Load>

    constructor (digest: Query -> string)
      requires forall q :: IsDigest(digest(q))
      ensures Valid() && fresh(cache) && this.digest == digest && loads == {}
    {
      this.digest := digest;
      loads := {};
      cache := new Cache();
    }

    ghost predicate EntryOk(t: string, e: string, q: Query, entry: Stored<string>)
      reads this, cache
    {
      && entry.expiresAt.Some? && entry.expiresAt.value - Ttl(e) <= cache.now
      && Load(t, e, q, entry.value, entry.expiresAt.value - Ttl(e)) in loads
    }

    /** Every cached report is what a load for the same tenant, endpoint and digest answered, one lifetime before the
      * entry expires. */
    ghost predicate Valid()
      reads this, cache
    {
      && (forall q :: IsDigest(digest(q)))
      && forall t, e, d | ValidId(t) && IsEndpoint(e) && IsDigest(d) && Report(t, e, d) in cache.store ::
           exists q :: digest(q) == d && EntryOk(t, e, q, cache.store[Report(t, e, d)])
    }

    /** No load so far was for another query with the digest of this one. */
    ghost predicate Unconfused(q: Query)
      reads this
    {
      forall l | l in loads :: Separates(digest, l.query, q)
    }

    /** The data was loaded less than one lifetime ago, for this tenant, endpoint and query. */
    ghost predicate RecentlyLoaded(tenantId: string, endpoint: string, q: Query, data: string)
      reads this, cache
    {
      exists at :: cache.now - Ttl(endpoint) < at <= cache.now && Load(tenantId, endpoint, q, data, at) in loads
    }

    /** `_cachedFetch`: the data returned was loaded less than one lifetime ago for parameters of the same digest, that
      * is, for equivalent parameters unless an earlier load's digest collides with this one. */
    method CachedFetch(tenantId: string, endpoint: string, params: Params, loaded: Result<string, string>, getOk: bool,
                       setOk: bool)
      returns (r: Result<Fetched, string>)
      requires Valid() && IsEndpoint(endpoint)
      modifies this`loads, cache`store
      ensures Valid() && old(loads) <= loads
      ensures r.Ok? ==> ValidId(tenantId)
                        && exists q :: digest(q) == digest(Normalize(params))
                                       && RecentlyLoaded(tenantId, endpoint, q, r.value.data)
      ensures r.Ok? && old(Unconfused(Normalize(params))) ==>
                RecentlyLoaded(tenantId, endpoint, Normalize(params), r.value.data)
      ensures var key := Report(tenantId, endpoint, digest(Normalize(params)));
              r.Ok? ==>
                (r.value.cacheHit <==>
                   getOk && key in old(cache.store) && old(cache.store[key].expiresAt).Some?
                   && cache.now < old(cache.store[key].expiresAt).value)
      ensures r.Ok? && r.value.cacheHit ==> loads == old(loads) && cache.store == old(cache.store)
      ensures r.Ok? && !r.value.cacheHit ==>
                loaded == Ok(r.value.data)
                && loads == old(loads) + {Load(tenantId, endpoint, Normalize(params), r.value.data, cache.now)}
                && cache.store == if setOk
                                  then old(cache.store)[Report(tenantId, endpoint, digest(Normalize(params)))
                                         := Stored(r.value.data,
                                                   Some(cache.now + (if endpoint == "overview" then 300 else 180)))]
                                  else old(cache.store)
      ensures r.Err? ==> !ValidId(tenantId) || (loaded.Err? && r.error == loaded.error)
      ensures r.Err? ==> cache.store == old(cache.store) && loads == old(loads)
    {
      if tenantId == "" {
        return Err("tenantId is required");
      }
      var query := Normalize(params);
      var key := KeyFor(tenantId, endpoint, params, digest);
      if !ValidId(tenantId) {
        return Err("Invalid cache id");
      }
      var cached := cache.Get(Render(key), getOk);
      if cached.Some? {
        ghost var entry := cache.store[Report(tenantId, endpoint, digest(query))];
        ghost var q :| digest(q) == digest(query) && EntryOk(tenantId, endpoint, q, entry);
        assert Load(tenantId, endpoint, q, cached.value, entry.expiresAt.value - Ttl(endpoint)) in loads;
        assert RecentlyLoaded(tenantId, endpoint, q, cached.value);
        return Ok(Fetched(cached.value, true));
      }
      if loaded.Err? {
        return Err(loaded.error);
      }
      ghost var store := cache.store;
      loads := loads + {Load(tenantId, endpoint, query, loaded.value, cache.now)};
      var _ := cache.Set(Render(key), loaded.value, Ttl(endpoint), setOk);
      forall t, e, d | ValidId(t) && IsEndpoint(e) && IsDigest(d) && Report(t, e, d) in cache.store
        ensures exists q :: digest(q) == d && EntryOk(t, e, q, cache.store[Report(t, e, d)])
      {
        var k := Analytics(t, e, d);
        if setOk && Render(k) == Render(key) {
          RenderInjective(k, key);
          assert EntryOk(t, e, query, cache.store[Report(t, e, d)]);
        } else {
          ghost var q :| digest(q) == d && old(EntryOk(t, e, q, store[Report(t, e, d)]));
          assert EntryOk(t, e, q, cache.store[Report(t, e, d)]);
        }
      }
      assert RecentlyLoaded(tenantId, endpoint, query, loaded.value);
      return Ok(Fetched(loaded.value, false));
    }

    /** One endpoint's `delByPattern`; the pattern is cut out of a sample key. */
    method DeleteEndpoint(tenantId: string, endpoint: string, sample: string, pages: seq<seq<string>>,
        failsAt: Option<nat>)
      requires ValidId(tenantId) && IsEndpoint(endpoint) && IsDigest(sample)
      requires '[' !in EndpointPattern(tenantId, endpoint, sample)
      requires Scans(cache.store, EndpointPattern(tenantId, endpoint, sample), pages)
      modifies cache`store
      ensures forall x | x in cache.store :: x in old(cache.store) && cache.store[x] == old(cache.store[x])
      ensures forall k | ValidKey(k) && Render(k) in old(cache.store) && !Hit(tenantId, endpoint, k) ::
              Render(k) in cache.store
      ensures failsAt.None? ==> forall k | ValidKey(k) && Hit(tenantId, endpoint, k) :: Render(k) !in cache.store
    {
      var pattern := EndpointPattern(tenantId, endpoint, sample);
      forall k | ValidKey(k) ensures Glob(pattern, Render(k)) <==> Hit(tenantId, endpoint, k) {
        EndpointPatternMatches(tenantId, endpoint, sample, k);
      }
      var _ := cache.DelByPattern(pattern, pages, failsAt);
    }

    /** The six patterns, one after the other. */
    method DeleteEndpoints(tenantId: string, samples: seq<string>,
                           scan: (map<string, Stored<string>>, string) -> seq<seq<string>>, failsAt: seq<Option<nat>>)
      requires ValidId(tenantId) && |samples| == |failsAt| == 6 && forall i | 0 <= i < 6 :: IsDigest(samples[i])
      requires forall store, pattern | '[' !in pattern :: Scans(store, pattern, scan(store, pattern))
      modifies cache`store
      ensures forall x | x in cache.store :: x in old(cache.store) && cache.store[x] == old(cache.store[x])
      ensures forall k | ValidKey(k) && Render(k) in old(cache.store) && !HitBefore(tenantId, 6, k) ::
              Render(k) in cache.store
      ensures (forall i | 0 <= i < 6 :: failsAt[i].None?) ==>
                forall k | ValidKey(k) && HitBefore(tenantId, 6, k) :: Render(k) !in cache.store
    {
      ghost var before := cache.store;
      for n := 0 to 6
        invariant forall x | x in cache.store :: x in before && cache.store[x] == before[x]
        invariant forall k | ValidKey(k) && Render(k) in before && !HitBefore(tenantId, 6, k) ::
                Render(k) in cache.store
        invariant (forall i | 0 <= i < n :: failsAt[i].None?) ==>
                    forall k | ValidKey(k) && HitBefore(tenantId, n, k) :: Render(k) !in cache.store
      {
        var endpoint := Endpoints()[n];
        EndpointPatternMatches(tenantId, endpoint, samples[n], Tenant(tenantId));
        var pages := scan(cache.store, EndpointPattern(tenantId, endpoint, samples[n]));
        DeleteEndpoint(tenantId, endpoint, samples[n], pages, failsAt[n]);
      }
    }

    /** `invalidateCache`: whatever fails, nothing of another tenant is removed; if nothing fails, exactly the tenant's
      * reports are, except that a tenant called like an endpoint loses every key below it. */
    method InvalidateCache(tenantId: string, samples: seq<string>,
                           scan: (map<string, Stored<string>>, string) -> seq<seq<string>>,
                           delOk: seq<bool>, failsAt: seq<Option<nat>>)
      requires Valid() && ValidId(tenantId) && |samples| == |failsAt| == 6 && |delOk| == 2
      requires forall i | 0 <= i < 6 :: IsDigest(samples[i])
      requires forall store, pattern | '[' !in pattern :: Scans(store, pattern, scan(store, pattern))
      modifies cache`store
      ensures Valid()
      ensures forall x | x in cache.store :: x in old(cache.store) && cache.store[x] == old(cache.store[x])
      ensures forall k | ValidKey(k) && Render(k) in old(cache.store) && k.tenantId != tenantId ::
              Render(k) in cache.store
      ensures (forall i | 0 <= i < 6 :: failsAt[i].None?) ==>
                forall k | ValidKey(k) && Render(k) in old(cache.store) ::
                  Render(k) !in cache.store <==>
                    k.tenantId == tenantId && if IsEndpoint(tenantId) then !k.Tenant? else k.Analytics?
    {
      ghost var before := cache.store;
      var absent := Params(None, None, None, None, None, None, None, None, None, None, None, None);
      var overview := KeyFor(tenantId, "overview", absent, digest);
      var sales := KeyFor(tenantId, "sales", absent, digest);
      var _ := cache.Del(Render(overview), delOk[0]);
      var _ := cache.Del(Render(sales), delOk[1]);
      forall k | ValidKey(k) && Render(k) in before && !HitBefore(tenantId, 6, k) ensures Render(k) in cache.store {
        DeletedAreHit(tenantId, digest(Normalize(absent)), k);
      }
      DeleteEndpoints(tenantId, samples, scan, failsAt);
      forall k | ValidKey(k)
        ensures HitBefore(tenantId, 6, k)
                <==> k.tenantId == tenantId && if IsEndpoint(tenantId) then !k.Tenant? else k.Analytics?
      {
        HitByAll(tenantId, k);
      }
      assert Valid() by {
        forall t, e, d | ValidId(t) && IsEndpoint(e) && IsDigest(d) && Report(t, e, d) in cache.store
          ensures exists q :: digest(q) == d && EntryOk(t, e, q, cache.store[Report(t, e, d)])
        {
          ghost var q :| digest(q) == d && old(EntryOk(t, e, q, cache.store[Report(t, e, d)]));
          assert EntryOk(t, e, q, cache.store[Report(t, e, d)]);
        }
      }
    }
  }

  /** A digest of sixteen hexadecimal digits that tells the first page from all others. */
  function PageDigest(q: Query): string {
    if q.page == 1 then "0000000000000001" else "0000000000000002"
  }

  ghost function InSomeOrder(s: set<string>): (r: seq<string>)
    ensures forall x :: x in r <==> x in s
    decreases |s|
  {
    if s == {} then [] else var x :| x in s; [x] + InSomeOrder(s - {x})
  }

  /** A scan that keeps its promise exists for every store and pattern: one page with all matching keys. */
  lemma ScanExists() returns (scan: (map<string, Stored<string>>, string) -> seq<seq<string>>)
    ensures forall store, pattern | '[' !in pattern :: Scans(store, pattern, scan(store, pattern))
  {
    scan := (store: map<string, Stored<string>>, pattern: string) =>
      if '[' in pattern then [] else [InSomeOrder(Matching(store, pattern))];
    forall store, pattern | '[' !in pattern ensures Scans(store, pattern, scan(store, pattern)) {
      assert scan(store, pattern)[0] == InSomeOrder(Matching(store, pattern));
    }
  }

  /** The cache at work: the first fetch loads, the second is a hit with the same data. */
  method FetchTwice(tenantId: string, params: Params, first: string, second: string)
    returns (reports: Reports, hit: Result<Fetched, string>)
    requires ValidId(tenantId)
    ensures reports.Valid() && fresh(reports) && hit == Ok(Fetched(first, true))
  {
    reports := new Reports(PageDigest);
    var _ := reports.CachedFetch(tenantId, "sales", params, Ok(first), true, true);
    hit := reports.CachedFetch(tenantId, "sales", params, Ok(second), true, true);
  }
}
