# Cached Firestore catalogue dashboard, modelled in Dafny

The system is a small catalogue manager with two halves.

- An Express server (`index.js`) lists, creates and updates *services* and *prices* stored in Firestore.
- A browser dashboard (`app.js`) pages through those lists. It keeps recent responses in `localStorage` behind a TTL cache.

This project models the pure and stateful core of both halves and proves what that core promises.

- **Cache layer** (`cacheService`). Modules `CacheKey`, `CacheStore` and `CacheService`.
  - `localStorage` is a `map<string, Entry>`. An entry is one of:
    - a stamped JSON record;
    - parsed JSON without a usable timestamp;
    - text that is not JSON, or JSON that parses to `null` (reading a field of it throws);
    - the empty string.
  - The class `CacheService.Cache` owns that map. Its methods change it with the same loops as the JavaScript object: gather the keys, sort, then remove.
  - `Date.now()` is passed in as `now`. A write the storage refuses is passed in as the flag `writeFails`.
- **List endpoints** (`GET /services`, `GET /prices`). Module `Resolver`.
  - The handler takes the already-fetched documents and the query strings.
  - It parses `page` and `limit` the way `parseInt(x) || default` does (module `ParseInt`).
  - It applies the case-insensitive search and the exact-match or env filters, then slices one page and builds the `pagination` object.
- **Request checks** of `POST` and `PUT` for both collections. Module `Validation`.
- **Dashboard bookkeeping**. Module `Dashboard`.
  - The "Mostrando X-Y de Z itens" arithmetic.
  - The per-page selector.
  - The pagination state a response overwrites.
  - The single confirm-callback slot.
  - The distinct values offered in the category and segment filters.

Support modules:

- `Text`: prefix and substring tests, ASCII case mapping, and code-point order on strings, which equals the UTF-16 code-unit order that `Array.prototype.sort` uses outside the supplementary planes.
- `Seqs`: `filter` and its algebra.
- `Api`: field values and JS truthiness.
- `Wrappers`: `Option` and `Result`.

## Model

| member | source | states |
|---|---|---|
| CacheKey.SortNames | app.js:88-89 | The sorted names are a permutation of the parameter names and strictly ascending in JavaScript's default string order, given distinct names. |
| CacheKey.BuildCacheKey | app.js:87-93 | The key always starts with the base key, and equals it exactly when there are no parameters. |
| CacheKey.OrderIndependent | app.js:87-93 | Two parameter lists with the same name/value pairs, in any order, give the same cache key. |
| CacheKey.KeyFormat | app.js:88-92 | With parameters, the key is `base + "_" + k1=v1&...&kn=vn`, with the names in ascending order. |
| CacheStore.ReadAfterWrite | app.js:36-77 | A value written at `now` reads back unchanged at any time up to `now + ttl`, and that read leaves the storage as written. |
| CacheStore.ExpiryBoundary | app.js:68-77 | A stamped entry misses, and is removed, exactly when its age exceeds the TTL. At an age of exactly 300000 ms it is still a hit and nothing changes. |
| CacheStore.MissLeavesStorage | app.js:63-67 | A missing, empty or unparseable entry reads as null and the storage is unchanged. |
| CacheStore.RemovePrefixedExact | app.js:129-138 | Removing by prefix removes exactly the non-empty keys that start with the prefix, and leaves every other pair as it was. |
| CacheStore.ClearAllExact | app.js:147-151 | Clearing everything removes exactly the keys under one of the four namespaces, and nothing else. |
| CacheStore.InvalidateExact | app.js:98-120 | `invalidate('services')` also removes the "all services" namespace, and likewise for prices. Any other name is used as the prefix. Untouched pairs keep their values. |
| CacheStore.InvalidatedServicesMiss | app.js:98-120 | After `invalidate('services')`, every services-listing key built from any parameters misses. |
| CacheStore.PrefixesDisjoint | app.js:22-27 | No key lies under two of the four namespaces, so no cached item is gathered twice for eviction. |
| CacheStore.EvictionLeavesHalf | app.js:161-184 | After eviction, ⌊n/2⌋ of the n candidates survive, and keys that were not candidates keep their values. |
| CacheStore.MalformedEvictedFirst | app.js:169-177 | An unparseable entry counts as stamped 0. It is therefore evicted whenever any entry with a positive stamp is evicted. |
| CacheService.SortByStamp | app.js:182 | The array ends sorted by timestamp, as a permutation of its input. Distinct keys stay distinct. |
| CacheService.Cache.Get | app.js:58-82 | It returns the cache specification's read of the built key, and the storage becomes the read's after-state: expired entries removed, all else unchanged. |
| CacheService.Cache.Set | app.js:36-53 | On success the storage holds the stamped entry under the built key. On a refused write the oldest half is evicted instead, with no retry. |
| CacheService.Cache.InvalidateByPrefix | app.js:129-142 | The new storage is the old one without the non-empty keys that start with the prefix. |
| CacheService.Cache.Invalidate | app.js:98-124 | The new storage is the specification's invalidation of the collection, including the "all" namespace. |
| CacheService.Cache.ClearAll | app.js:147-156 | The new storage is the old one with all four namespaces removed. |
| CacheService.Cache.ClearOldCaches | app.js:161-190 | It evicts exactly ⌈n/2⌉ of the n non-empty items under the namespaces. Every evicted stamp is ≤ every surviving one. Unparseable or unstamped items count as 0, and other keys are untouched. |
| CacheService.Cache.GetStats | app.js:195-216 | Counts the non-empty items whose keys start with the services namespace and with the prices namespace. The storage is unchanged. |
| CacheService.EvictedAreOldest | app.js:180-183 | Removing the first ⌈n/2⌉ of the stamp-sorted list meets the eviction specification. |
| ParseInt.ParseInt | index.js:62-63 | Text that is blank, or whose first non-space character is neither a digit nor a sign, parses to NaN (`None`). |
| ParseInt.ParseDecimal | index.js:62-63 | The decimal text of any n, followed by any text not starting with a digit or `x`, parses to n: leading digits are read and trailing text ignored. |
| ParseInt.ParseNegated | index.js:62-63 | A minus sign before the decimal text of n parses to -n. |
| ParseInt.QueryInt | index.js:62-63 | An absent value, one that parses to NaN, and one that parses to 0 give the default. A value that parses to a non-zero number gives that number. |
| ParseInt.QueryReadsBack | index.js:62-63 | A positive number written in decimal reads back as itself. |
| ParseInt.NonNumericExample | index.js:63 | `limit=abc` falls back to 20. |
| ParseInt.ZeroExample | index.js:62 | `page=0` falls back to 1. |
| ParseInt.NegativeExample | index.js:62 | `page= -3` parses to -3 (it is not replaced by the default). |
| ParseInt.HexExample | index.js:63 | `limit=0x1A` parses as 26. |
| Seqs.Filter | index.js:75-88 | The filtered list is no longer than the input. Its members are exactly the input's members that satisfy the predicate. |
| Seqs.FilterCounts | index.js:75-88 | Filtering keeps every copy: a kept element occurs in the result as often as in the input, a dropped one not at all. |
| Seqs.FilterIsSubseq | index.js:75-88 | Filtering preserves order: the result is a subsequence of the input. |
| Seqs.FilterConjunction | index.js:82-88 | Two filters in a row equal one filter by the conjunction. |
| Resolver.Hit | index.js:76-78 | A falsy field never matches. A string matches when its lower-cased form contains the needle. A truthy non-string raises. |
| Resolver.SearchHit | index.js:75-79 | The or-chain over id, tipo and servico reports a hit only if some field contains the needle. When no searched field can raise, it reports exactly whether one does. It raises only if some field is a truthy non-string. A matching field before any raising one gives a hit, as the `||` short-circuit does. |
| Resolver.SearchRaises | index.js:75-79 | The search raises (and the handler answers 500) exactly when the chain reaches a truthy non-string field: one that comes before any hit and after only fields that neither raise nor hit. |
| Resolver.ShortCircuitExample | index.js:76-77 | A record whose `id` matches is kept even though its `tipo` is a number. |
| Resolver.TryFilter | index.js:75-79 | The filter succeeds exactly when no element raises, and then equals the plain filter keeping the hits. |
| Resolver.CeilDiv | index.js:102 | `Math.ceil(n/d)`: 0 for n = 0, otherwise the r with (r-1)·d < n ≤ r·d. |
| Resolver.Paginate | index.js:90-105 | `total` is the list's length and `totalPages` is ⌈total/limit⌉. `hasNext` iff page < totalPages, and `hasPrev` iff page > 1. The data is the slice starting at (page-1)·limit, at most `limit` long, empty past the end. |
| Resolver.HasNextMeansMore | index.js:103 | `hasNext` holds exactly when records exist beyond this page (page·limit < total). |
| Resolver.PageNonEmpty | index.js:93-102 | A page has records exactly when page ≤ totalPages. |
| Resolver.PagesCoverFiltered | index.js:93-102 | Pages 1..totalPages laid end to end are the filtered list: each record once, in order. |
| Resolver.SearchStage | index.js:73-80 | An empty search keeps everything. Otherwise the stage raises exactly when some record raises, and else keeps exactly the hits. |
| Resolver.ExactStage | index.js:82-88 | The categoria or segmento stage keeps a record iff no value was given or the field is exactly that string. |
| Resolver.EnvStage | index.js:246-248 | The env stage keeps a record iff no env was given or its `prices` object has a truthy entry for that env. |
| Resolver.ListServices | index.js:60-111 | `GET /services` fails with 500 "Failed to get services" exactly when the search raises on some record. Otherwise `page`/`limit` are the parsed-or-default values. |
| Resolver.ListServicesSelects | index.js:70-105 | The staged filters select exactly the records satisfying search ∧ categoria ∧ segmento, in their original order, and the response is that list's page. |
| Resolver.ListPrices | index.js:226-271 | `GET /prices` fails with 500 "Failed to get prices" exactly when the search over id and code raises. Otherwise `page`/`limit` are the parsed-or-default values. |
| Resolver.ListPricesSelects | index.js:235-265 | The search and env stages select exactly the records satisfying both, in order, and the response is that list's page. |
| Api.Snapshot | index.js:70 | `{ id: doc.id, ...doc.data() }` has the stored fields plus `id`. A stored `id` wins over the document id. |
| Validation.Create | index.js:134-149 | POST is rejected with 400 "Missing service data or id" (or the price message) exactly when the body is missing or its `id` is falsy. Otherwise it writes, without merge, the body plus server timestamps `createdAt`/`updatedAt` under the body's `id`. |
| Validation.Update | index.js:163-182 | PUT is rejected with 400 "Missing … id" for an empty path id, and with "Missing … data" for a missing or key-less body. Otherwise it merges the body with `id` set to the path id and a server-timestamp `updatedAt`. |
| Validation.UpdateWithoutId | index.js:172-180 | A body without `id` is refused by POST but accepted by PUT. |
| Validation.CreateImpliesUpdate | index.js:138-180 | Any body POST accepts, PUT accepts too. The stored `id` then is the path id. |
| Dashboard.PaginationLabel | app.js:569-575 | No label when total is 0. The end never exceeds the total. The start is at least 1. |
| Dashboard.LabelShowsPage | app.js:574-575 | For the page the server returns, the label names exactly the 1-based positions of its records. Past the last page it names an empty range. |
| Dashboard.LimitOptionsReadBack | app.js:17 | Every per-page option reads back as itself through `parseInt`. |
| Dashboard.ResourceView.constructor | app.js:10-11 | The initial state is page 1, limit 15, total 0, totalPages 0. |
| Dashboard.ResourceView.ChangeLimit | app.js:604-607 | It stores the parsed limit and asks for page 1, changing nothing else. |
| Dashboard.ResourceView.ApplyResponse | app.js:497-508 | A paginated response overwrites the rows and all six pagination fields. A bare array sets total to its length and totalPages to 1. Anything else empties the rows. |
| Dashboard.ConfirmDialog.Show | app.js:331-335 | Showing stores the callback, replacing any pending one. |
| Dashboard.ConfirmDialog.Confirm | app.js:337-343 | OK hands back the pending callback, if any, and empties the slot. |
| Dashboard.ConfirmDialog.Cancel | app.js:345-348 | Cancel empties the slot without running it. |
| Dashboard.FirstOccurrences | app.js:630-631 | The reference list keeps each value once: the same members as the input, with no repeats. |
| Dashboard.SetInsertionOrderIsFirstOccurrences | app.js:630 | Building a `Set` by insertion keeps exactly the first occurrence of each value, in order. |
| Dashboard.FilterOptions | app.js:629-631 | The options are the first occurrences, in order, of the field's truthy values, with no repeats. |
| Dashboard.FilterOptionsMembers | app.js:630-631 | A value is an option exactly when it is truthy and some record's field holds it. |
| Text.IncludesAt | index.js:76-78 | `includes` holds exactly when the needle occurs at some position. |
| Text.LowerForgetsCase | index.js:74-78 | Lower-casing makes the search case-insensitive: upper- and lower-cased inputs lower-case alike. |
| Text.LessTransitive | app.js:89 | JavaScript's default string order is transitive. |
| Text.LessTotal | app.js:89 | Any two different strings are ordered one way or the other. |

## Left out

- Firestore reads and writes, Express routing, `fetchAPI`, all DOM rendering, toasts, the debounce timer and tab switching: these are I/O and UI. The handlers take the fetched documents as input and return the write they would issue.
- `GET`/`DELETE` by id, the count endpoints, `/collections` and the `jacto-users` routes: they are not part of this model.
- The `loadServices`/`loadPrices` orchestration (cache first, then network, then `updateFilters`): outside the modelled core. Only the step that stores a response (`ApplyResponse`) is modelled.
- `CACHE_CONFIG.enabled` is always `true`, so the disabled path is not modelled.
- JSON serialisation: the cached value is an opaque `D`, and text that `JSON.parse` rejects or parses to `null` is the `Malformed` entry variant.
- The byte size in `getStats` (`totalSize`, `totalSizeKB`): float arithmetic over string lengths.
- Storage quota: a refused write is the input flag `writeFails`.
- `localStorage.key(i)` order is unspecified. The loops pick the next unvisited key arbitrarily, so each method's contract holds for every order.
- CacheService.SortByStamp: the model states sorted-and-permutation but not the stability of `Array.prototype.sort`. The eviction contract does not depend on stability.
- An item whose parsed JSON has no `timestamp` property is `Unstamped`:
  - `get` sees a NaN age and treats it as a hit;
  - eviction treats it as timestamp 0.
- A `timestamp` that is present but not a number (`null`, a boolean, a string, an array, an object) is not modelled. JavaScript coerces some of these: `get` expires an item stamped `null` or `false`, because `now - null` is `now`, and eviction orders `true` as 1.
- Text.ToLower: only ASCII letters are case-mapped; JavaScript's full Unicode `toLowerCase` is not modelled. Strings are sequences of code points, not UTF-16 code units.
- Names inherited from `Object.prototype` (for example `invalidate('constructor')`, or `prices['constructor']` in the env filter) are treated as absent keys.
- Resolver.HasEnv: treats a `prices` value that is a string or an array as having no env entry. Property lookup on those (`"abc"["0"]`) is not modelled.
- Resolver.Paginate, Resolver.ListServices and Resolver.ListPrices: require the parsed `page >= 1` and `limit >= 1`, so a request such as `?page=-1&search=a` is outside their contracts, including its 500 answer when the search raises. A negative parsed value reaches `slice`, where negative indices count from the end, and those semantics are not modelled.
- ParseInt.ParseInt: digit strings beyond 2^53 lose precision in JavaScript; the model's integers are exact.
- Query values repeated in the URL (which Express turns into arrays) are not modelled; each query value is an optional string.
- Dashboard.ResourceView.ChangeLimit: requires the new value to parse. The selector only offers the decimal options, and each of them parses (`LimitOptionsReadBack`).
- Dashboard.FilterOptions: compares values structurally. JavaScript's `Set` compares objects by identity; for the string values the filters hold, the two agree. A field that is a number, a boolean or an array is the single value `Other(truthy)`, so records with `categoria: 1` and `categoria: 2` give one option here but two under `new Set`.
- Dashboard.ConfirmDialog.Confirm: running the callback is left to the caller, so a callback that itself calls `showConfirm` (whose new callback the source then clears) is not modelled.
- Validation.Create: a truthy non-string `id` (a number, say) passes validation and yields a write, but Firestore's `doc(id)` accepts only a string path and throws, which the handler answers with 500. That SDK check is not modelled.
- The global search's calls to `filterServices`/`filterPrices` are not modelled: those functions are never defined.
