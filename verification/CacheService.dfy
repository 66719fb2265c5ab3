/** The cache service: Redis behind calls that never throw. */
module CacheService {
  import opened Prelude
  import opened CacheKeys

  datatype Stored<V> = Stored(value: V, expiresAt: Option<int>)

  function SumLengths(pages: seq<seq<string>>): nat {
    if pages == [] then 0 else SumLengths(pages[..|pages| - 1]) + |pages[|pages| - 1]|
  }

  function Matching<V>(store: map<string, Stored<V>>, pattern: string): set<string>
    requires '[' !in pattern
  {
    set k | k in store && Glob(pattern, k)
  }

  /** What SCAN promises for a full iteration: only matching keys, and every matching key at least once. */
  ghost predicate Scans<V>(store: map<string, Stored<V>>, pattern: string, pages: seq<seq<string>>)
    requires '[' !in pattern
  {
    && (forall i, k | 0 <= i < |pages| && k in pages[i] :: Glob(pattern, k))
    && (forall k | k in Matching(store, pattern) :: exists i :: 0 <= i < |pages| && k in pages[i])
  }

  /** The keys on the first n pages. */
  function Scanned(pages: seq<seq<string>>, n: nat): set<string>
    requires n <= |pages|
  {
    set i, k | 0 <= i < n && k in pages[i] :: k
  }

  lemma OnlyMatching<V>(store: map<string, Stored<V>>, pattern: string, pages: seq<seq<string>>, n: nat)
    requires '[' !in pattern && Scans(store, pattern, pages) && n <= |pages|
    ensures forall k | k in Scanned(pages, n) :: Glob(pattern, k)
  {
  }

  lemma AllScanned<V>(store: map<string, Stored<V>>, pattern: string, pages: seq<seq<string>>)
    requires '[' !in pattern && Scans(store, pattern, pages)
    ensures store - Scanned(pages, |pages|) == store - Matching(store, pattern)
  {
    forall k | k in store ensures k in Scanned(pages, |pages|) <==> k in Matching(store, pattern) {
      if k in Matching(store, pattern) {
        var i :| 0 <= i < |pages| && k in pages[i];
      }
    }
  }

  class Cache<V> {
    var now: int
    var store: map<string, Stored<V>>

    constructor ()
      ensures store == map[]
    {
      now, store := 0, map[];
    }

    /** `ok` is false when there is no client or the call fails; both read as a miss. */
    method Get(key: string, ok: bool) returns (r: Option<V>)
      ensures r.Some? <==> ok && key in store && (store[key].expiresAt.None? || now < store[key].expiresAt.value)
      ensures r.Some? ==> r.value == store[key].value
    {
      if !ok || key !in store {
        return None;
      }
      var e := store[key];
      if e.expiresAt.Some? && e.expiresAt.value <= now {
        return None;
      }
      return Some(e.value);
    }

    /** A positive lifetime expires; without one the entry stays. */
    method Set(key: string, value: V, ttlSeconds: int, ok: bool) returns (r: bool)
      modifies this`store
      ensures r == ok
      ensures store == if ok
              then old(store)[key := Stored(value, if ttlSeconds > 0 then Some(now + ttlSeconds) else None)]
                       else old(store)
    {
      if !ok {
        return false;
      }
      if ttlSeconds > 0 {
        store := store[key := Stored(value, Some(now + ttlSeconds))];
      } else {
        store := store[key := Stored(value, None)];
      }
      return true;
    }

    method Del(key: string, ok: bool) returns (r: bool)
      modifies this`store
      ensures r == ok && store == if ok then old(store) - {key} else old(store)
    {
      if !ok {
        return false;
      }
      store := store - {key};
      return true;
    }

    /** Follows the SCAN cursor, deleting page by page. `failsAt` is the page at which Redis stops answering, 0 when
      * there is no client; what was deleted by then stays deleted. The count is of keys scanned: a key that SCAN
      * repeats counts again. */
    method DelByPattern(pattern: string, pages: seq<seq<string>>, failsAt: Option<nat>) returns (deleted: nat)
      requires '[' !in pattern && Scans(store, pattern, pages)
      modifies this`store
      ensures failsAt.None? || failsAt.value >= |pages| ==>
                store == old(store) - Matching(old(store), pattern) && deleted == SumLengths(pages)
      ensures failsAt.Some? && failsAt.value < |pages| ==>
                store == old(store) - Scanned(pages, failsAt.value) && deleted == 0
      ensures forall k | k in old(store) && !Glob(pattern, k) :: k in store
      ensures forall k | k in store :: k in old(store) && store[k] == old(store)[k]
    {
      deleted := 0;
      var cursor := 0;
      while cursor < |pages|
        invariant 0 <= cursor <= |pages| && (failsAt.Some? ==> cursor <= failsAt.value)
        invariant deleted == SumLengths(pages[..cursor])
        invariant store == old(store) - Scanned(pages, cursor)
      {
        if failsAt == Some(cursor) {
          OnlyMatching(old(store), pattern, pages, cursor);
          return 0;
        }
        var keys := pages[cursor];
        assert pages[..cursor + 1][..cursor] == pages[..cursor];
        if |keys| > 0 {
          store := store - (set k | k in keys);
          deleted := deleted + |keys|;
        }
        assert Scanned(pages, cursor + 1) == Scanned(pages, cursor) + set k | k in keys;
        cursor := cursor + 1;
      }
      assert pages[..|pages|] == pages;
      OnlyMatching(old(store), pattern, pages, |pages|);
      AllScanned(old(store), pattern, pages);
    }
  }
}
