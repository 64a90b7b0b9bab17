/**
 * `cacheService`: the cache layer over the browser's `localStorage`. The
 * storage is the one field of the class; every method reads or rewrites it
 * the way the JavaScript object does, loop by loop. The order in which
 * `localStorage.key(i)` enumerates keys is not specified, so the loops below
 * pick the next key arbitrarily from those not yet visited.
 */
module CacheService {
  import opened Wrappers
  import opened Text
  import opened CacheKey
  import opened CacheStore

  /** One element of `allCaches` in `clearOldCaches`. */
  datatype CacheRef = CacheRef(key: string, stamp: int)

  predicate DistinctKeys(s: seq<CacheRef>)
  {
    forall i, j :: 0 <= i < j < |s| ==> s[i].key != s[j].key
  }

  function KeysOf(s: seq<CacheRef>): set<string>
  {
    set r | r in s :: r.key
  }

  lemma {:induction false} KeysOfSize(s: seq<CacheRef>)
    requires DistinctKeys(s)
    ensures |KeysOf(s)| == |s|
  {
    if s != [] {
      var tail := s[1..];
      assert KeysOf(s) == {s[0].key} + KeysOf(tail) by {
        assert s == [s[0]] + tail;
      }
      assert s[0].key !in KeysOf(tail) by {
        forall r | r in tail ensures r.key != s[0].key {
          var m :| 0 <= m < |tail| && tail[m] == r;
          assert s[m + 1] == r;
        }
      }
      KeysOfSize(tail);
    }
  }

  lemma KeysOfSnoc(s: seq<CacheRef>, r: CacheRef)
    ensures KeysOf(s + [r]) == KeysOf(s) + {r.key}
  {
  }

  predicate SortedByStamp(s: seq<CacheRef>)
  {
    forall i, j :: 0 <= i < j < |s| ==> s[i].stamp <= s[j].stamp
  }

  method Swap(a: array<CacheRef>, i: int, j: int)
    requires 0 <= i < a.Length && 0 <= j < a.Length
    modifies a
    ensures a[..] == old(a[..])[i := old(a[j])][j := old(a[i])]
    ensures multiset(a[..]) == multiset(old(a[..]))
    ensures DistinctKeys(old(a[..])) ==> DistinctKeys(a[..])
  {
    ghost var s := a[..];
    a[i], a[j] := a[j], a[i];
    assert a[..] == s[i := s[j]][j := s[i]];
    SwapKeeps(s, i, j);
  }

  /** Exchanging two elements keeps the multiset and the distinctness of keys. */
  lemma SwapKeeps(s: seq<CacheRef>, i: int, j: int)
    requires 0 <= i < |s| && 0 <= j < |s|
    ensures multiset(s[i := s[j]][j := s[i]]) == multiset(s)
    ensures DistinctKeys(s) ==> DistinctKeys(s[i := s[j]][j := s[i]])
  {
    var t := s[i := s[j]][j := s[i]];
    if DistinctKeys(s) {
      forall x, y | 0 <= x < y < |t| ensures t[x].key != t[y].key {
        var x' := if x == i then j else if x == j then i else x;
        var y' := if y == i then j else if y == j then i else y;
        assert t[x] == s[x'] && t[y] == s[y'] && x' != y';
      }
    }
  }

  /**
   * `allCaches.sort((a, b) => a.timestamp - b.timestamp)`, here an insertion
   * sort: afterwards the array is ordered by stamp and holds the same elements.
   */
  method SortByStamp(a: array<CacheRef>)
    modifies a
    ensures SortedByStamp(a[..])
    ensures multiset(a[..]) == multiset(old(a[..]))
    ensures DistinctKeys(old(a[..])) ==> DistinctKeys(a[..])
  {
    var i := 0;
    while i < a.Length
      invariant 0 <= i <= a.Length
      invariant SortedByStamp(a[..i])
      invariant multiset(a[..]) == multiset(old(a[..]))
      invariant DistinctKeys(old(a[..])) ==> DistinctKeys(a[..])
    {
      SiftDown(a, i);
      i := i + 1;
    }
  }

  /** One pass of the insertion sort: move `a[i]` down into the sorted prefix `a[..i]`. */
  method SiftDown(a: array<CacheRef>, i: int)
    requires 0 <= i < a.Length && SortedByStamp(a[..i])
    modifies a
    ensures SortedByStamp(a[..i + 1])
    ensures multiset(a[..]) == multiset(old(a[..]))
    ensures DistinctKeys(old(a[..])) ==> DistinctKeys(a[..])
  {
    var j := i;
    while j > 0 && a[j - 1].stamp > a[j].stamp
      invariant 0 <= j <= i
      invariant forall x, y :: 0 <= x < y <= i && y != j ==> a[x].stamp <= a[y].stamp
      invariant multiset(a[..]) == multiset(old(a[..]))
      invariant DistinctKeys(old(a[..])) ==> DistinctKeys(a[..])
    {
      Swap(a, j - 1, j);
      j := j - 1;
    }
  }

  class Cache<D> {
    /** The contents of `localStorage`. */
    var storage: Storage<D>

    constructor (initial: Storage<D>)
      ensures storage == initial
    {
      storage := initial;
    }

    /**
     * `get(key, params)` at time `now`: the cached data, or `None` (null),
     * removing the entry when it has expired.
     */
    method Get(key: string, params: Params, now: int) returns (r: Option<D>)
      modifies this
      ensures r == Read(old(storage), BuildCacheKey(key, params), now)
      ensures storage == AfterRead(old(storage), BuildCacheKey(key, params), now)
    {
      var cacheKey := BuildCacheKey(key, params);
      if cacheKey !in storage {
        return None;
      }
      match storage[cacheKey]
      case Blank =>
        r := None;
      case Malformed =>
        r := None;
      case Unstamped(data) =>
        r := Some(data);
      case Stamped(timestamp, data, _) =>
        var age := now - timestamp;
        if age > TTL {
          storage := storage - {cacheKey};
          r := None;
        } else {
          r := Some(data);
        }
    }

    /**
     * `set(key, data, params)` at time `now`. When the write fails
     * (`writeFails`, the storage being full) nothing is written and
     * `clearOldCaches` runs instead; the write is not retried.
     */
    method Set(key: string, data: D, params: Params, now: int, writeFails: bool) returns (ghost evicted: set<string>)
      modifies this
      ensures !writeFails ==> storage == Written(old(storage), BuildCacheKey(key, params), data, params, now)
      ensures writeFails ==> OldestHalfEvicted(old(storage), storage, evicted)
    {
      var cacheKey := BuildCacheKey(key, params);
      if !writeFails {
        storage := storage[cacheKey := Stamped(now, data, params)];
        evicted := {};
      } else {
        evicted := ClearOldCaches();
      }
    }

    /** `invalidateByPrefix(prefix)`: gather the selected keys, then remove each. */
    method InvalidateByPrefix(prefix: string)
      modifies this
      ensures storage == RemovePrefixed(old(storage), prefix)
    {
      var keysToRemove: seq<string> := [];
      var pending := storage.Keys;
      while pending != {}
        invariant pending <= storage.Keys && storage == old(storage)
        invariant forall k :: k in keysToRemove ==> k in storage && Listed(k, prefix)
        invariant forall k :: k in storage && k !in pending && Listed(k, prefix) ==> k in keysToRemove
        decreases pending
      {
        var k :| k in pending;
        if Listed(k, prefix) {
          keysToRemove := keysToRemove + [k];
        }
        pending := pending - {k};
      }
      var i := 0;
      while i < |keysToRemove|
        invariant 0 <= i <= |keysToRemove|
        invariant storage == old(storage) - set j | 0 <= j < i :: keysToRemove[j]
      {
        storage := storage - {keysToRemove[i]};
        i := i + 1;
      }
      assert storage == RemovePrefixed(old(storage), prefix) by {
        forall k ensures k in storage <==> k in old(storage) && !Listed(k, prefix) {
          if k in keysToRemove {
            var j :| 0 <= j < |keysToRemove| && keysToRemove[j] == k;
          }
        }
      }
    }

    /** `invalidate(collection)`. */
    method Invalidate(collection: string)
      modifies this
      ensures storage == Invalidated(old(storage), collection)
    {
      InvalidateByPrefix(CollectionPrefix(collection));
      if collection == "services" {
        InvalidateByPrefix(ServicesAllKey);
      } else if collection == "prices" {
        InvalidateByPrefix(PricesAllKey);
      }
    }

    /** `clearAll()`: each known namespace in turn. */
    method ClearAll()
      modifies this
      ensures storage == RemoveAllPrefixed(old(storage), KnownPrefixes)
    {
      var i := 0;
      while i < |KnownPrefixes|
        invariant 0 <= i <= |KnownPrefixes|
        invariant RemoveAllPrefixed(old(storage), KnownPrefixes) == RemoveAllPrefixed(storage, KnownPrefixes[i..])
      {
        InvalidateByPrefix(KnownPrefixes[i]);
        assert KnownPrefixes[i..][1..] == KnownPrefixes[i + 1..];
        i := i + 1;
      }
    }

    /**
     * `clearOldCaches()`: gather every non-empty item under a known
     * namespace with its timestamp, sort by timestamp, and remove the first
     * ⌈n/2⌉.
     */
    method ClearOldCaches() returns (ghost evicted: set<string>)
      modifies this
      ensures OldestHalfEvicted(old(storage), storage, evicted)
    {
      var allCaches := GatherAll();
      var a := new CacheRef[|allCaches|](i requires 0 <= i < |allCaches| => allCaches[i]);
      assert a[..] == allCaches;
      SortByStamp(a);
      var n := (a.Length + 1) / 2;
      EvictedAreOldest(a[..], allCaches, n, storage);
      RemoveFirst(a, n);
      evicted := KeysOf(a[..n]);
    }

    /** The gathering loops of `clearOldCaches`: every stored item under the four namespaces, with its stamp. */
    method GatherAll() returns (allCaches: seq<CacheRef>)
      ensures DistinctKeys(allCaches)
      ensures forall r :: r in allCaches ==> r.key in storage && r.stamp == StampOf(storage[r.key])
      ensures KeysOf(allCaches) == EvictionCandidates(storage)
    {
      allCaches := [];
      var p := 0;
      while p < |KnownPrefixes|
        invariant 0 <= p <= |KnownPrefixes|
        invariant DistinctKeys(allCaches)
        invariant forall r :: r in allCaches ==>
          r.key in storage && ListedBefore(r.key, p) && !storage[r.key].Blank? && r.stamp == StampOf(storage[r.key])
        invariant forall k :: k in storage && ListedBefore(k, p) && !storage[k].Blank? ==> k in KeysOf(allCaches)
      {
        allCaches := GatherPrefix(p, allCaches);
        p := p + 1;
      }
    }

    /** The removal loop of `clearOldCaches`: drop the keys of the first `n` entries of `a`. */
    method RemoveFirst(a: array<CacheRef>, n: int)
      requires 0 <= n <= a.Length
      modifies this
      ensures storage == old(storage) - KeysOf(a[..n])
    {
      var i := 0;
      while i < n
        invariant 0 <= i <= n
        invariant storage == old(storage) - KeysOf(a[..i])
      {
        assert a[..i + 1] == a[..i] + [a[i]];
        KeysOfSnoc(a[..i], a[i]);
        storage := storage - {a[i].key};
        i := i + 1;
      }
    }

    /** One pass of the gathering loop: the items under `KnownPrefixes[p]`. */
    method GatherPrefix(p: int, allCaches: seq<CacheRef>) returns (more: seq<CacheRef>)
      requires 0 <= p < |KnownPrefixes|
      requires DistinctKeys(allCaches)
      requires forall r :: r in allCaches ==>
        r.key in storage && ListedBefore(r.key, p) && !storage[r.key].Blank? && r.stamp == StampOf(storage[r.key])
      requires forall k :: k in storage && ListedBefore(k, p) && !storage[k].Blank? ==> k in KeysOf(allCaches)
      ensures DistinctKeys(more)
      ensures forall r :: r in more ==>
        r.key in storage && ListedBefore(r.key, p + 1) && !storage[r.key].Blank? && r.stamp == StampOf(storage[r.key])
      ensures forall k :: k in storage && ListedBefore(k, p + 1) && !storage[k].Blank? ==> k in KeysOf(more)
    {
      var prefix := KnownPrefixes[p];
      more := allCaches;
      var pending := storage.Keys;
      while pending != {}
        invariant pending <= storage.Keys
        invariant DistinctKeys(more)
        invariant forall r :: r in more ==>
          r.key in storage && ListedBefore(r.key, p + 1) && !storage[r.key].Blank? && r.stamp == StampOf(storage[r.key])
        invariant forall r :: r in more ==> ListedBefore(r.key, p) || r.key !in pending
        invariant forall k :: k in storage && ListedBefore(k, p) && !storage[k].Blank? ==> k in KeysOf(more)
        invariant forall k :: k in storage && k !in pending && Listed(k, prefix) && !storage[k].Blank? ==> k in KeysOf(more)
        decreases pending
      {
        var k :| k in pending;
        if Listed(k, prefix) {
          var e := storage[k];
          if !e.Blank? {
            assert k !in KeysOf(more) by {
              if k in KeysOf(more) {
                var r :| r in more && r.key == k;
                var i :| 0 <= i < p && Listed(k, KnownPrefixes[i]);
                PrefixesDisjoint(k, i, p);
              }
            }
            more := more + [CacheRef(k, StampOf(e))];
          }
        }
        pending := pending - {k};
      }
    }

    /**
     * `getStats()` without the size in bytes: how many non-empty items lie
     * under the services and the prices namespace.
     */
    method GetStats() returns (services: nat, prices: nat)
      ensures services == |set k | k in storage && Listed(k, ServicesKey) && !storage[k].Blank?|
      ensures prices == |set k | k in storage && Listed(k, PricesKey) && !storage[k].Blank?|
    {
      services, prices := 0, 0;
      ghost var seenServices: set<string> := {};
      ghost var seenPrices: set<string> := {};
      var pending := storage.Keys;
      while pending != {}
        invariant pending <= storage.Keys
        invariant seenServices == set k | k in storage && k !in pending && Listed(k, ServicesKey) && !storage[k].Blank?
        invariant seenPrices == set k | k in storage && k !in pending && Listed(k, PricesKey) && !storage[k].Blank?
        invariant services == |seenServices| && prices == |seenPrices|
        decreases pending
      {
        var k :| k in pending;
        if k != "" && !storage[k].Blank? {
          if StartsWith(k, ServicesKey) {
            services := services + 1;
            seenServices := seenServices + {k};
          }
          if StartsWith(k, PricesKey) {
            prices := prices + 1;
            seenPrices := seenPrices + {k};
          }
        }
        pending := pending - {k};
      }
      assert seenServices == set k | k in storage && Listed(k, ServicesKey) && !storage[k].Blank?;
      assert seenPrices == set k | k in storage && Listed(k, PricesKey) && !storage[k].Blank?;
    }
  }

  /** After sorting, the first `n` keys are stamped no later than any key after them. */
  lemma EvictedAreOldest<D>(sorted: seq<CacheRef>, gathered: seq<CacheRef>, n: int, s: Storage<D>)
    requires multiset(sorted) == multiset(gathered)
    requires SortedByStamp(sorted) && DistinctKeys(sorted)
    requires 0 <= n <= |sorted| && n == (|sorted| + 1) / 2
    requires forall r :: r in gathered ==> r.key in s && r.stamp == StampOf(s[r.key])
    requires KeysOf(gathered) == EvictionCandidates(s)
    ensures OldestHalfEvicted(s, s - KeysOf(sorted[..n]), KeysOf(sorted[..n]))
  {
    var evicted := KeysOf(sorted[..n]);
    var candidates := EvictionCandidates(s);
    assert forall r :: r in sorted <==> r in gathered by {
      forall r ensures r in sorted <==> r in gathered {
        assert r in sorted <==> r in multiset(sorted);
        assert r in gathered <==> r in multiset(gathered);
      }
    }
    assert KeysOf(sorted) == candidates;
    assert evicted <= candidates;
    assert DistinctKeys(sorted[..n]);
    KeysOfSize(sorted[..n]);
    KeysOfSize(sorted);
    assert |candidates| == |sorted|;
    forall r, k | r in evicted && k in candidates - evicted
      ensures StampOf(s[r]) <= StampOf(s[k])
    {
      var x :| x in sorted[..n] && x.key == r;
      var i :| 0 <= i < n && sorted[i] == x;
      var y :| y in sorted && y.key == k;
      var j :| 0 <= j < |sorted| && sorted[j] == y;
    }
  }
}
