/**
 * The `GET /services` and `GET /prices` handlers: parse `page` and `limit`,
 * filter the already-fetched documents in memory, then cut out one page.
 */
module Resolver {
  import opened Wrappers
  import opened Text
  import opened ParseInt
  import opened Seqs
  import opened Api

  datatype ServiceQuery = ServiceQuery(page: Option<string>, limit: Option<string>, search: Option<string>,
                                       categoria: Option<string>, segmento: Option<string>)

  datatype PriceQuery = PriceQuery(page: Option<string>, limit: Option<string>, search: Option<string>,
                                   env: Option<string>)

  const DefaultPage := 1
  const DefaultLimit := 20
  const ServiceSearchFields := ["id", "tipo", "servico"]
  const PriceSearchFields := ["id", "code"]

  /** `req.query.x || ''`. */
  function QueryText(q: Option<string>): (r: string)
    ensures q.None? ==> r == ""
    ensures q.Some? ==> r == q.value
  {
    match q
    case None => ""
    case Some(s) => s
  }

  // ---------------------------------------------------------------- search

  /**
   * `(f && f.toLowerCase().includes(needle))` for one field: `None` stands for
   * the TypeError a truthy non-string raises, which the handler turns into 500.
   */
  function Hit(f: Field, needle: string): (r: Option<bool>)
    ensures !Truthy(f) ==> r == Some(false)
    ensures f.Text? && f.s != "" ==> r == Some(Includes(ToLower(f.s), needle))
    ensures r.None? <==> Raises(f)
  {
    if !Truthy(f) then Some(false)
    else match f
      case Text(s) => Some(Includes(ToLower(s), needle))
      case _ => None
  }

  /** `name` holds a string containing `needle` once lower-cased. */
  predicate TextMatch(r: Record, name: string, needle: string)
  {
    FieldOf(r, name).Text? && Includes(ToLower(FieldOf(r, name).s), needle)
  }

  /** Reading `f.toLowerCase` on this value raises: it is truthy but not a string. */
  predicate Raises(f: Field)
  {
    Truthy(f) && !f.Text?
  }

  /** Every searched field is a string or falsy, so searching it cannot raise. */
  predicate Searchable(r: Record, fields: seq<string>)
  {
    forall i :: 0 <= i < |fields| ==> !Raises(FieldOf(r, fields[i]))
  }

  /** The `||` chain gets past the first `i` fields: none of them raises and none is a hit. */
  predicate Reaches(r: Record, fields: seq<string>, needle: string, i: int)
    requires 0 <= i <= |fields|
  {
    forall j :: 0 <= j < i ==>
      !Raises(FieldOf(r, fields[j])) && !(Truthy(FieldOf(r, fields[j])) && TextMatch(r, fields[j], needle))
  }

  /** The `||` chain over `fields`, evaluated left to right and stopping at the first hit. */
  function SearchHit(r: Record, fields: seq<string>, needle: string): (hit: Option<bool>)
    ensures hit == Some(true) ==> exists i :: 0 <= i < |fields| && TextMatch(r, fields[i], needle)
    ensures forall i ::
      (0 <= i < |fields| && Truthy(FieldOf(r, fields[i])) && TextMatch(r, fields[i], needle) &&
       forall j :: 0 <= j < i ==> !Raises(FieldOf(r, fields[j])))
      ==> hit == Some(true)
    ensures needle != "" && Searchable(r, fields) ==>
      hit == Some(exists i :: 0 <= i < |fields| && TextMatch(r, fields[i], needle))
    ensures hit.None? ==> exists i :: 0 <= i < |fields| && Raises(FieldOf(r, fields[i]))
  {
    if fields == [] then Some(false)
    else
      match Hit(FieldOf(r, fields[0]), needle)
      case Some(true) => Some(true)
      case Some(false) =>
        var rest := SearchHit(r, fields[1..], needle);
        assert forall i :: 0 <= i < |fields| - 1 ==> fields[1..][i] == fields[i + 1];
        assert needle != "" ==> !TextMatch(r, fields[0], needle) by {
          if needle != "" && FieldOf(r, fields[0]).Text? && FieldOf(r, fields[0]).s == "" {
            assert !Includes(ToLower(""), needle);
          }
        }
        rest
      case None => None
  }

  /**
   * The search raises exactly when the chain reaches a truthy non-string
   * field, that is, when such a field comes before any hit.
   */
  lemma {:induction false} SearchRaises(r: Record, fields: seq<string>, needle: string)
    ensures SearchHit(r, fields, needle).None? <==>
      exists i :: 0 <= i < |fields| && Raises(FieldOf(r, fields[i])) && Reaches(r, fields, needle, i)
  {
    if fields != [] {
      var f := FieldOf(r, fields[0]);
      var tail := fields[1..];
      match Hit(f, needle)
      case Some(true) =>
        assert Truthy(f) && TextMatch(r, fields[0], needle);
      case None =>
        assert Raises(f) && Reaches(r, fields, needle, 0);
      case Some(false) =>
        SearchRaises(r, tail, needle);
        assert !Raises(f) && !(Truthy(f) && TextMatch(r, fields[0], needle));
        if SearchHit(r, tail, needle).None? {
          var k :| 0 <= k < |tail| && Raises(FieldOf(r, tail[k])) && Reaches(r, tail, needle, k);
          assert Raises(FieldOf(r, fields[k + 1]));
          assert Reaches(r, fields, needle, k + 1) by {
            forall j | 0 <= j < k + 1
              ensures !Raises(FieldOf(r, fields[j])) && !(Truthy(FieldOf(r, fields[j])) && TextMatch(r, fields[j], needle))
            {
              if j > 0 {
                assert fields[j] == tail[j - 1];
              }
            }
          }
        }
        if exists i :: 0 <= i < |fields| && Raises(FieldOf(r, fields[i])) && Reaches(r, fields, needle, i) {
          var k :| 0 <= k < |fields| && Raises(FieldOf(r, fields[k])) && Reaches(r, fields, needle, k);
          assert k > 0;
          assert Raises(FieldOf(r, tail[k - 1]));
          assert Reaches(r, tail, needle, k - 1) by {
            forall j | 0 <= j < k - 1
              ensures !Raises(FieldOf(r, tail[j])) && !(Truthy(FieldOf(r, tail[j])) && TextMatch(r, tail[j], needle))
            {
              assert tail[j] == fields[j + 1];
            }
          }
        }
    }
  }

  /** A hit in `id` keeps the record even though the later `tipo` is a number. */
  lemma ShortCircuitExample()
    ensures SearchHit(map["id" := Text("ab"), "tipo" := Other(true)], ServiceSearchFields, "a") == Some(true)
  {
    var r := map["id" := Text("ab"), "tipo" := Other(true)];
    assert FieldOf(r, "id") == Text("ab");
    assert Includes(ToLower("ab"), "a") by {
      assert ToLower("ab") == "ab";
      assert StartsWith("ab", "a");
    }
  }

  /** The predicate `filter` uses: keep on `Some(true)`. */
  function Keeps<T>(f: T -> Option<bool>): T -> bool
  {
    x => f(x) == Some(true)
  }

  /** `s.filter(f)` where `f` may raise: `None` as soon as any element raises. */
  function TryFilter<T(==)>(s: seq<T>, f: T -> Option<bool>): (r: Option<seq<T>>)
    ensures r.Some? <==> forall i :: 0 <= i < |s| ==> f(s[i]).Some?
    ensures r.Some? ==> r.value == Filter(s, Keeps(f))
  {
    if s == [] then Some([])
    else match f(s[0])
      case None => None
      case Some(keep) =>
        match TryFilter(s[1..], f)
        case None => None
        case Some(rest) => Some(if keep then [s[0]] + rest else rest)
  }

  function SearchFilter(fields: seq<string>, needle: string): Record -> Option<bool>
  {
    x => SearchHit(x, fields, needle)
  }

  /** `s.categoria === value`. */
  function FieldEquals(name: string, value: string): Record -> bool
  {
    x => FieldOf(x, name) == Text(value)
  }

  /** `p.prices && p.prices[env]`. */
  predicate HasEnv(r: Record, env: string)
  {
    match FieldOf(r, "prices")
    case Object(envs) => env in envs && Truthy(envs[env])
    case _ => false
  }

  function EnvFilter(env: string): Record -> bool
  {
    x => HasEnv(x, env)
  }

  // ------------------------------------------------------------ pagination

  /** `Math.ceil(n / d)`. */
  function CeilDiv(n: nat, d: int): (r: nat)
    requires d >= 1
    ensures n == 0 ==> r == 0
    ensures n > 0 ==> (r - 1) * d < n <= r * d
  {
    (n + d - 1) / d
  }

  function Min(a: int, b: int): int
  {
    if a <= b then a else b
  }

  /** `(page - 1) * limit`, the index of the first record of a page. */
  function Offset(page: int, limit: int): (r: nat)
    requires page >= 1 && limit >= 1
    ensures r == (page - 1) * limit
    ensures r + limit == page * limit
  {
    (page - 1) * limit
  }

  /** `services.slice(offset, offset + limit)` and the `pagination` object. */
  function Paginate<T>(filtered: seq<T>, page: int, limit: int): (r: PageResponse<T>)
    requires page >= 1 && limit >= 1
    ensures r.pagination.page == page && r.pagination.limit == limit
    ensures r.pagination.total == |filtered|
    ensures r.pagination.totalPages == CeilDiv(|filtered|, limit)
    ensures r.pagination.hasNext <==> page < r.pagination.totalPages
    ensures r.pagination.hasPrev <==> page > 1
    ensures |r.data| <= limit
    ensures Offset(page, limit) >= |filtered| ==> r.data == []
    ensures Offset(page, limit) < |filtered| ==> |r.data| == Min(limit, |filtered| - Offset(page, limit))
    ensures forall i :: 0 <= i < |r.data| ==>
      Offset(page, limit) + i < |filtered| && r.data[i] == filtered[Offset(page, limit) + i]
  {
    var offset := Offset(page, limit);
    var data := if offset >= |filtered| then [] else filtered[offset..Min(offset + limit, |filtered|)];
    var totalPages := CeilDiv(|filtered|, limit);
    PageResponse(data, PageInfo(page, limit, |filtered|, totalPages, page < totalPages, page > 1))
  }

  lemma MulMonotone(a: int, b: int, c: int)
    requires a <= b && c >= 0
    ensures a * c <= b * c
  {
  }

  /** `hasNext` says exactly that records lie beyond this page. */
  lemma {:induction false} HasNextMeansMore<T>(filtered: seq<T>, page: int, limit: int)
    requires page >= 1 && limit >= 1
    ensures Paginate(filtered, page, limit).pagination.hasNext <==> page * limit < |filtered|
  {
    var t := CeilDiv(|filtered|, limit);
    if page < t {
      MulMonotone(page, t - 1, limit);
    }
    if page >= t {
      MulMonotone(t, page, limit);
    }
  }

  /** A page has records exactly when it is one of the `totalPages` pages. */
  lemma {:induction false} PageNonEmpty<T>(filtered: seq<T>, page: int, limit: int)
    requires page >= 1 && limit >= 1
    ensures |Paginate(filtered, page, limit).data| > 0 <==> page <= Paginate(filtered, page, limit).pagination.totalPages
  {
    var t := CeilDiv(|filtered|, limit);
    if page <= t {
      MulMonotone(page - 1, t - 1, limit);
    }
    if page > t {
      MulMonotone(t, page - 1, limit);
    }
  }

  /** Pages `1..k` laid end to end. */
  function PagesUpTo<T>(filtered: seq<T>, limit: int, k: nat): seq<T>
    requires limit >= 1
  {
    if k == 0 then [] else PagesUpTo(filtered, limit, k - 1) + Paginate(filtered, k, limit).data
  }

  lemma {:induction false} PagesUpToPrefix<T>(filtered: seq<T>, limit: int, k: nat)
    requires limit >= 1
    ensures PagesUpTo(filtered, limit, k) == filtered[..Min(k * limit, |filtered|)]
  {
    if k > 0 {
      PagesUpToPrefix(filtered, limit, k - 1);
      var offset := Offset(k, limit);
      PageSlice(filtered, k, limit);
      PrefixThenSlice(filtered, Min(offset, |filtered|), Min(offset + limit, |filtered|));
    }
  }

  /** Page `k` is the slice between the ends of pages `k - 1` and `k`. */
  lemma PageSlice<T>(filtered: seq<T>, k: int, limit: int)
    requires k >= 1 && limit >= 1
    ensures var offset := Offset(k, limit);
      Paginate(filtered, k, limit).data == filtered[Min(offset, |filtered|)..Min(offset + limit, |filtered|)]
  {
  }

  lemma PrefixThenSlice<T>(s: seq<T>, lo: int, hi: int)
    requires 0 <= lo <= hi <= |s|
    ensures s[..lo] + s[lo..hi] == s[..hi]
  {
  }

  /** The `totalPages` pages together are the filtered list, each record once, in order. */
  lemma PagesCoverFiltered<T>(filtered: seq<T>, limit: int)
    requires limit >= 1
    ensures PagesUpTo(filtered, limit, CeilDiv(|filtered|, limit)) == filtered
  {
    PagesUpToPrefix(filtered, limit, CeilDiv(|filtered|, limit));
  }

  // --------------------------------------------------------------- handlers

  /** The documents as the handler sees them, `snapshot.docs.map(...)`. */
  function Records(docs: seq<Doc>): (r: seq<Record>)
    ensures |r| == |docs|
    ensures forall i :: 0 <= i < |docs| ==> r[i] == Snapshot(docs[i])
  {
    seq(|docs|, i requires 0 <= i < |docs| => Snapshot(docs[i]))
  }

  /** Skipping a stage whose value is empty is filtering by a predicate that always holds. */
  lemma StageOrSkip(s: seq<Record>, on: bool, p: Record -> bool, target: Record -> bool)
    requires forall x :: target(x) == (!on || p(x))
    ensures (if on then Filter(s, p) else s) == Filter(s, target)
  {
    if on {
      FilterPointwise(s, p, target);
    } else {
      FilterAll(s, target);
    }
  }

  /** A record passes the search stage: no search, or a hit. */
  function SearchPasses(fields: seq<string>, search: string): Record -> bool
  {
    x => search == "" || SearchHit(x, fields, ToLower(search)) == Some(true)
  }

  /** `if (search) { ... = ....filter(...) }`: `None` when the search raises. */
  function SearchStage(s: seq<Record>, fields: seq<string>, search: string): (r: Option<seq<Record>>)
    ensures r.None? <==> search != "" && exists i :: 0 <= i < |s| && SearchHit(s[i], fields, ToLower(search)).None?
    ensures r.Some? ==> r.value == Filter(s, SearchPasses(fields, search))
  {
    var f := SearchFilter(fields, ToLower(search));
    if search != "" then
      StageOrSkip(s, true, Keeps(f), SearchPasses(fields, search));
      TryFilter(s, f)
    else
      StageOrSkip(s, false, Keeps(f), SearchPasses(fields, search));
      Some(s)
  }

  /** A record passes an exact-match stage: no value given, or an equal field. */
  function ExactPasses(name: string, value: string): Record -> bool
  {
    x => value == "" || FieldOf(x, name) == Text(value)
  }

  /** `if (categoria) { ... = ....filter(s => s.categoria === categoria) }`. */
  function ExactStage(s: seq<Record>, name: string, value: string): (r: seq<Record>)
    ensures r == Filter(s, ExactPasses(name, value))
  {
    StageOrSkip(s, value != "", FieldEquals(name, value), ExactPasses(name, value));
    if value != "" then Filter(s, FieldEquals(name, value)) else s
  }

  /** A record passes the env stage: no env given, or a truthy entry for it. */
  function EnvPasses(env: string): Record -> bool
  {
    x => env == "" || HasEnv(x, env)
  }

  /** `if (env) { prices = prices.filter(p => p.prices && p.prices[env]) }`. */
  function EnvStage(s: seq<Record>, env: string): (r: seq<Record>)
    ensures r == Filter(s, EnvPasses(env))
  {
    StageOrSkip(s, env != "", EnvFilter(env), EnvPasses(env));
    if env != "" then Filter(s, EnvFilter(env)) else s
  }

  /** Whether the services handler keeps a record, all three filters at once. */
  predicate ServiceSelected(q: ServiceQuery, x: Record)
  {
    && (QueryText(q.search) == "" || SearchHit(x, ServiceSearchFields, ToLower(QueryText(q.search))) == Some(true))
    && (QueryText(q.categoria) == "" || FieldOf(x, "categoria") == Text(QueryText(q.categoria)))
    && (QueryText(q.segmento) == "" || FieldOf(x, "segmento") == Text(QueryText(q.segmento)))
  }

  function ServiceFilter(q: ServiceQuery): Record -> bool
  {
    x => ServiceSelected(q, x)
  }

  /** Some record makes the services search raise. */
  predicate ServiceSearchRaises(q: ServiceQuery, docs: seq<Doc>)
  {
    QueryText(q.search) != "" &&
    exists i :: 0 <= i < |docs| && SearchHit(Snapshot(docs[i]), ServiceSearchFields, ToLower(QueryText(q.search))).None?
  }

  /** `GET /services`. */
  function ListServices(docs: seq<Doc>, q: ServiceQuery): (r: Result<PageResponse<Record>, ApiError>)
    requires QueryInt(q.page, DefaultPage) >= 1 && QueryInt(q.limit, DefaultLimit) >= 1
    ensures r.Failure? <==> ServiceSearchRaises(q, docs)
    ensures r.Failure? ==> r.error == ApiError(500, "Failed to get services")
    ensures r.Success? ==> r.value.pagination.page == QueryInt(q.page, DefaultPage)
    ensures r.Success? ==> r.value.pagination.limit == QueryInt(q.limit, DefaultLimit)
  {
    var page := QueryInt(q.page, DefaultPage);
    var limit := QueryInt(q.limit, DefaultLimit);
    var services := Records(docs);
    match SearchStage(services, ServiceSearchFields, QueryText(q.search))
    case None => Failure(ApiError(500, "Failed to get services"))
    case Some(s1) =>
      var s2 := ExactStage(s1, "categoria", QueryText(q.categoria));
      var s3 := ExactStage(s2, "segmento", QueryText(q.segmento));
      Success(Paginate(s3, page, limit))
  }

  /**
   * The staged filters of `GET /services` select exactly the records that
   * satisfy all of them together, in their original order.
   */
  lemma {:induction false} ListServicesSelects(docs: seq<Doc>, q: ServiceQuery)
    requires QueryInt(q.page, DefaultPage) >= 1 && QueryInt(q.limit, DefaultLimit) >= 1
    requires !ServiceSearchRaises(q, docs)
    ensures ListServices(docs, q) ==
      Success(Paginate(Filter(Records(docs), ServiceFilter(q)), QueryInt(q.page, DefaultPage), QueryInt(q.limit, DefaultLimit)))
  {
    var services := Records(docs);
    var s1 := SearchStage(services, ServiceSearchFields, QueryText(q.search));
    assert s1.Some?;
    var s3 := ExactStage(ExactStage(s1.value, "categoria", QueryText(q.categoria)), "segmento", QueryText(q.segmento));
    assert ListServices(docs, q) == Success(Paginate(s3, QueryInt(q.page, DefaultPage), QueryInt(q.limit, DefaultLimit)));
    ServiceStagesCompose(services, q);
  }

  lemma ServiceStagesCompose(services: seq<Record>, q: ServiceQuery)
    ensures var s1 := Filter(services, SearchPasses(ServiceSearchFields, QueryText(q.search)));
      ExactStage(ExactStage(s1, "categoria", QueryText(q.categoria)), "segmento", QueryText(q.segmento))
      == Filter(services, ServiceFilter(q))
  {
    var ps := SearchPasses(ServiceSearchFields, QueryText(q.search));
    var pc := ExactPasses("categoria", QueryText(q.categoria));
    var pg := ExactPasses("segmento", QueryText(q.segmento));
    FilterConjunction(services, ps, pc);
    FilterConjunction(services, Both(ps, pc), pg);
    FilterPointwise(services, Both(Both(ps, pc), pg), ServiceFilter(q));
  }

  /** Whether the prices handler keeps a record. */
  predicate PriceSelected(q: PriceQuery, x: Record)
  {
    && (QueryText(q.search) == "" || SearchHit(x, PriceSearchFields, ToLower(QueryText(q.search))) == Some(true))
    && (QueryText(q.env) == "" || HasEnv(x, QueryText(q.env)))
  }

  function PriceFilter(q: PriceQuery): Record -> bool
  {
    x => PriceSelected(q, x)
  }

  predicate PriceSearchRaises(q: PriceQuery, docs: seq<Doc>)
  {
    QueryText(q.search) != "" &&
    exists i :: 0 <= i < |docs| && SearchHit(Snapshot(docs[i]), PriceSearchFields, ToLower(QueryText(q.search))).None?
  }

  /** `GET /prices`. */
  function ListPrices(docs: seq<Doc>, q: PriceQuery): (r: Result<PageResponse<Record>, ApiError>)
    requires QueryInt(q.page, DefaultPage) >= 1 && QueryInt(q.limit, DefaultLimit) >= 1
    ensures r.Failure? <==> PriceSearchRaises(q, docs)
    ensures r.Failure? ==> r.error == ApiError(500, "Failed to get prices")
    ensures r.Success? ==> r.value.pagination.page == QueryInt(q.page, DefaultPage)
    ensures r.Success? ==> r.value.pagination.limit == QueryInt(q.limit, DefaultLimit)
  {
    var page := QueryInt(q.page, DefaultPage);
    var limit := QueryInt(q.limit, DefaultLimit);
    var prices := Records(docs);
    match SearchStage(prices, PriceSearchFields, QueryText(q.search))
    case None => Failure(ApiError(500, "Failed to get prices"))
    case Some(s1) =>
      Success(Paginate(EnvStage(s1, QueryText(q.env)), page, limit))
  }

  /** The search and the env filter of `GET /prices` select the records satisfying both. */
  lemma {:induction false} ListPricesSelects(docs: seq<Doc>, q: PriceQuery)
    requires QueryInt(q.page, DefaultPage) >= 1 && QueryInt(q.limit, DefaultLimit) >= 1
    requires !PriceSearchRaises(q, docs)
    ensures ListPrices(docs, q) ==
      Success(Paginate(Filter(Records(docs), PriceFilter(q)), QueryInt(q.page, DefaultPage), QueryInt(q.limit, DefaultLimit)))
  {
    var prices := Records(docs);
    var ps := SearchPasses(PriceSearchFields, QueryText(q.search));
    var pe := EnvPasses(QueryText(q.env));
    var s1 := SearchStage(prices, PriceSearchFields, QueryText(q.search));
    assert s1.Some? && s1.value == Filter(prices, ps);
    var s2 := EnvStage(s1.value, QueryText(q.env));
    assert ListPrices(docs, q) == Success(Paginate(s2, QueryInt(q.page, DefaultPage), QueryInt(q.limit, DefaultLimit)));
    FilterConjunction(prices, ps, pe);
    FilterPointwise(prices, Both(ps, pe), PriceFilter(q));
  }
}
