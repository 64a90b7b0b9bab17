/**
 * The browser storage as the cache layer sees it: a map from storage keys to
 * what `JSON.parse` makes of the stored text. This module fixes the cache's
 * constants and states, as functions of the storage, what each operation of
 * the cache service returns and leaves behind.
 */
module CacheStore {
  import opened Wrappers
  import opened Text
  import opened CacheKey

  /** Five minutes in milliseconds: an entry older than this is stale. */
  const TTL: int := 5 * 60 * 1000

  const ServicesKey: string := "firestore_services_cache"
  const PricesKey: string := "firestore_prices_cache"
  const ServicesAllKey: string := "firestore_services_all_cache"
  const PricesAllKey: string := "firestore_prices_all_cache"

  /** The cache namespaces, in the order `Object.values(CACHE_CONFIG.keys)` lists them. */
  const KnownPrefixes: seq<string> := [ServicesKey, PricesKey, ServicesAllKey, PricesAllKey]

  /**
   * What one stored item is, once read back:
   * - Stamped: a record `{timestamp, data, params}` as `set` writes it;
   * - Unstamped: parsed JSON that has no `timestamp` (reading it gives
   *   `undefined`), whose `data` field is `data`;
   * - Malformed: text that `JSON.parse` rejects, or that parses to `null`,
   *   so that reading a field of it throws;
   * - Blank: the empty string, which the cache treats as no item at all.
   */
  datatype Entry<D> =
    | Stamped(timestamp: int, data: D, params: Params)
    | Unstamped(data: D)
    | Malformed
    | Blank

  type Storage<D> = map<string, Entry<D>>

  /** `key && key.startsWith(prefix)`: the empty key is never selected. */
  predicate Listed(key: string, prefix: string)
  {
    key != "" && StartsWith(key, prefix)
  }

  /** The test `Date.now() - timestamp > ttl`; an entry without a timestamp has age NaN and never expires. */
  predicate Expired<D>(e: Entry<D>, now: int)
  {
    e.Stamped? && now - e.timestamp > TTL
  }

  /** What `get` returns for storage key `key` at time `now`; `None` is `null`. */
  function Read<D>(s: Storage<D>, key: string, now: int): Option<D>
  {
    if key !in s then None
    else match s[key]
      case Stamped(timestamp, data, _) => if now - timestamp > TTL then None else Some(data)
      case Unstamped(data) => Some(data)
      case Malformed => None
      case Blank => None
  }

  /** The storage after that `get`: an expired entry is removed, nothing else changes. */
  function AfterRead<D>(s: Storage<D>, key: string, now: int): Storage<D>
  {
    if key in s && Expired(s[key], now) then s - {key} else s
  }

  /** The storage after a successful `set` at time `now`. */
  function Written<D>(s: Storage<D>, key: string, data: D, params: Params, now: int): Storage<D>
  {
    s[key := Stamped(now, data, params)]
  }

  /** The storage after `invalidateByPrefix(prefix)`. */
  function RemovePrefixed<D>(s: Storage<D>, prefix: string): Storage<D>
  {
    map k | k in s && !Listed(k, prefix) :: s[k]
  }

  /** The storage after `invalidateByPrefix` of each prefix in turn. */
  function RemoveAllPrefixed<D>(s: Storage<D>, prefixes: seq<string>): Storage<D>
  {
    if prefixes == [] then s else RemoveAllPrefixed(RemovePrefixed(s, prefixes[0]), prefixes[1..])
  }

  /** `CACHE_CONFIG.keys[collection] || collection`. */
  function CollectionPrefix(collection: string): string
  {
    if collection == "services" then ServicesKey
    else if collection == "prices" then PricesKey
    else if collection == "servicesAll" then ServicesAllKey
    else if collection == "pricesAll" then PricesAllKey
    else collection
  }

  /** The storage after `invalidate(collection)`. */
  function Invalidated<D>(s: Storage<D>, collection: string): Storage<D>
  {
    var s1 := RemovePrefixed(s, CollectionPrefix(collection));
    if collection == "services" then RemovePrefixed(s1, ServicesAllKey)
    else if collection == "prices" then RemovePrefixed(s1, PricesAllKey)
    else s1
  }

  /** `key` lies under the prefix with index `p`, or under one with a smaller index. */
  predicate ListedBefore(key: string, p: int)
  {
    exists i :: 0 <= i < p && i < |KnownPrefixes| && Listed(key, KnownPrefixes[i])
  }

  /** `key` lies under one of the four namespaces. */
  predicate UnderKnownPrefix(key: string)
  {
    ListedBefore(key, |KnownPrefixes|)
  }

  /** The timestamp eviction sorts by: `parsed.timestamp || 0`, and 0 for text that does not parse. */
  function StampOf<D>(e: Entry<D>): int
  {
    if e.Stamped? then e.timestamp else 0
  }

  /** The items `clearOldCaches` gathers: non-empty items under a known namespace. */
  function EvictionCandidates<D>(s: Storage<D>): set<string>
  {
    set k | k in s && UnderKnownPrefix(k) && !s[k].Blank?
  }

  /**
   * What `clearOldCaches` does: of the n candidates it removes ⌈n/2⌉, none
   * stamped later than any candidate it keeps, and nothing else.
   */
  ghost predicate OldestHalfEvicted<D>(before: Storage<D>, after: Storage<D>, evicted: set<string>)
  {
    var candidates := EvictionCandidates(before);
    && evicted <= candidates
    && |evicted| == (|candidates| + 1) / 2
    && after == before - evicted
    && forall r, k :: r in evicted && k in candidates - evicted ==> StampOf(before[r]) <= StampOf(before[k])
  }

  // ---------------------------------------------------------------------
  // Properties of the specification functions
  // ---------------------------------------------------------------------

  /**
   * Round trip: what `set` wrote is what a later `get` of the same key
   * returns, unchanged, as long as no more than `TTL` has passed; and the
   * read removes nothing.
   */
  lemma ReadAfterWrite<D>(s: Storage<D>, key: string, data: D, params: Params, now: int, later: int)
    requires later - now <= TTL
    ensures Read(Written(s, key, data, params, now), key, later) == Some(data)
    ensures AfterRead(Written(s, key, data, params, now), key, later) == Written(s, key, data, params, now)
  {
  }

  /**
   * The expiry boundary: a read misses and removes the entry exactly when the
   * entry is stamped more than `TTL` ago; at age exactly `TTL` it is a hit.
   */
  lemma ExpiryBoundary<D>(s: Storage<D>, key: string, now: int)
    requires key in s && s[key].Stamped?
    ensures Read(s, key, now).None? <==> now - s[key].timestamp > TTL
    ensures AfterRead(s, key, now) != s <==> now - s[key].timestamp > TTL
  {
    if now - s[key].timestamp > TTL {
      assert key !in AfterRead(s, key, now);
    }
  }

  /** A missing, malformed or empty item is a miss and the storage is left as it was. */
  lemma MissLeavesStorage<D>(s: Storage<D>, key: string, now: int)
    requires key !in s || s[key].Malformed? || s[key].Blank?
    ensures Read(s, key, now).None? && AfterRead(s, key, now) == s
  {
  }

  /** `invalidateByPrefix` removes exactly the selected keys and keeps every other pair. */
  lemma RemovePrefixedExact<D>(s: Storage<D>, prefix: string)
    ensures forall k :: k in RemovePrefixed(s, prefix) <==> k in s && !Listed(k, prefix)
    ensures forall k :: k in RemovePrefixed(s, prefix) ==> RemovePrefixed(s, prefix)[k] == s[k]
  {
  }

  /** Removing several prefixes in turn removes exactly the keys selected by one of them. */
  lemma {:induction false} RemoveAllPrefixedExact<D>(s: Storage<D>, prefixes: seq<string>)
    ensures forall k :: k in RemoveAllPrefixed(s, prefixes) <==>
      k in s && forall i :: 0 <= i < |prefixes| ==> !Listed(k, prefixes[i])
    ensures forall k :: k in RemoveAllPrefixed(s, prefixes) ==> RemoveAllPrefixed(s, prefixes)[k] == s[k]
  {
    if prefixes != [] {
      var s1 := RemovePrefixed(s, prefixes[0]);
      RemoveAllPrefixedExact(s1, prefixes[1..]);
      forall k ensures k in RemoveAllPrefixed(s, prefixes) <==>
        k in s && forall i :: 0 <= i < |prefixes| ==> !Listed(k, prefixes[i])
      {
        if k in s && forall i :: 0 <= i < |prefixes| ==> !Listed(k, prefixes[i]) {
          forall i | 0 <= i < |prefixes[1..]| ensures !Listed(k, prefixes[1..][i]) {
            assert prefixes[1..][i] == prefixes[i + 1];
          }
        }
        if k in RemoveAllPrefixed(s, prefixes) {
          forall i | 0 <= i < |prefixes| ensures !Listed(k, prefixes[i]) {
            if i > 0 {
              assert prefixes[i] == prefixes[1..][i - 1];
            }
          }
        }
      }
    }
  }

  /** `clearAll` removes every key under a known namespace and keeps everything else. */
  lemma ClearAllExact<D>(s: Storage<D>)
    ensures forall k :: k in RemoveAllPrefixed(s, KnownPrefixes) <==> k in s && !UnderKnownPrefix(k)
    ensures forall k :: k in RemoveAllPrefixed(s, KnownPrefixes) ==> RemoveAllPrefixed(s, KnownPrefixes)[k] == s[k]
  {
    RemoveAllPrefixedExact(s, KnownPrefixes);
  }

  /**
   * `invalidate('services')` also clears the "all services" namespace (and
   * likewise for prices); any other collection name clears its own prefix only.
   */
  lemma InvalidateExact<D>(s: Storage<D>, collection: string)
    ensures collection == "services" ==> forall k :: k in Invalidated(s, collection) <==>
      k in s && !Listed(k, ServicesKey) && !Listed(k, ServicesAllKey)
    ensures collection == "prices" ==> forall k :: k in Invalidated(s, collection) <==>
      k in s && !Listed(k, PricesKey) && !Listed(k, PricesAllKey)
    ensures collection != "services" && collection != "prices" ==>
      Invalidated(s, collection) == RemovePrefixed(s, CollectionPrefix(collection))
    ensures forall k :: k in Invalidated(s, collection) ==> Invalidated(s, collection)[k] == s[k]
  {
  }

  /**
   * Whatever the parameters, the key of a cached services page lies under the
   * services namespace, so after `invalidate('services')` no cached page is
   * served again.
   */
  lemma InvalidatedServicesMiss<D>(s: Storage<D>, ps: Params, now: int)
    ensures Listed(BuildCacheKey(ServicesKey, ps), ServicesKey)
    ensures Read(Invalidated(s, "services"), BuildCacheKey(ServicesKey, ps), now).None?
  {
    assert |ServicesKey| > 0;
  }

  /** No key lies under two different known namespaces. */
  lemma PrefixesDisjoint(key: string, i: int, j: int)
    requires 0 <= i < |KnownPrefixes| && 0 <= j < |KnownPrefixes| && i != j
    ensures !(Listed(key, KnownPrefixes[i]) && Listed(key, KnownPrefixes[j]))
  {
    if Listed(key, KnownPrefixes[i]) && Listed(key, KnownPrefixes[j]) {
      var p, q := KnownPrefixes[i], KnownPrefixes[j];
      // Both are prefixes of key, so they agree on their common length.
      assert forall m :: 0 <= m < |p| && m < |q| ==> p[m] == key[m] == q[m];
      DistinctAt(i, j);
    }
  }

  /** Each pair of namespaces differs at a position both of them have. */
  lemma DistinctAt(i: int, j: int)
    requires 0 <= i < |KnownPrefixes| && 0 <= j < |KnownPrefixes| && i != j
    ensures exists m :: 0 <= m < |KnownPrefixes[i]| && m < |KnownPrefixes[j]| && KnownPrefixes[i][m] != KnownPrefixes[j][m]
  {
    assert ServicesKey[10] == 's' && PricesKey[10] == 'p';
    assert ServicesAllKey[10] == 's' && PricesAllKey[10] == 'p';
    assert ServicesKey[19] == 'c' && ServicesAllKey[19] == 'a';
    assert PricesKey[17] == 'c' && PricesAllKey[17] == 'a';
    if i % 2 == j % 2 {
      if i % 2 == 0 {
        assert KnownPrefixes[i][19] != KnownPrefixes[j][19];
      } else {
        assert KnownPrefixes[i][17] != KnownPrefixes[j][17];
      }
    } else {
      assert KnownPrefixes[i][10] != KnownPrefixes[j][10];
    }
  }

  /** Eviction leaves ⌊n/2⌋ of the n candidates and every other item as it was. */
  lemma EvictionLeavesHalf<D>(before: Storage<D>, after: Storage<D>, evicted: set<string>)
    requires OldestHalfEvicted(before, after, evicted)
    ensures EvictionCandidates(after) == EvictionCandidates(before) - evicted
    ensures |EvictionCandidates(after)| == |EvictionCandidates(before)| / 2
    ensures forall k :: k in before && k !in EvictionCandidates(before) ==> k in after && after[k] == before[k]
  {
    var c := EvictionCandidates(before);
    assert EvictionCandidates(after) == c - evicted;
    assert |c - evicted| == |c| - |evicted|;
  }

  /**
   * Malformed items count as stamped at time 0, so none survives an eviction
   * that removed an item stamped after time 0.
   */
  lemma MalformedEvictedFirst<D>(before: Storage<D>, after: Storage<D>, evicted: set<string>, r: string, k: string)
    requires OldestHalfEvicted(before, after, evicted)
    requires r in evicted && StampOf(before[r]) > 0
    requires k in EvictionCandidates(before) && before[k].Malformed?
    ensures k in evicted
  {
  }
}
