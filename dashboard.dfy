/**
 * The dashboard's bookkeeping around the server's list responses: the
 * "showing X-Y of Z" arithmetic, the per-page selector, the pagination state
 * a response overwrites, the confirm dialog's callback slot and the distinct
 * values offered in the category and segment filters.
 */
module Dashboard {
  import opened Wrappers
  import opened ParseInt
  import opened Seqs
  import opened Api
  import opened Resolver

  /** `PAGINATION_CONFIG.limitOptions`. */
  const LimitOptions: seq<nat> := [10, 15, 25, 50, 100]
  /** The `limit` both pagination states start with. */
  const InitialLimit := 15

  // ------------------------------------------------------ pagination info

  /**
   * `startItem`/`endItem` of `renderServicesPagination` and
   * `renderPricesPagination`; `None` when nothing is rendered (`total === 0`).
   */
  function PaginationLabel(page: int, limit: int, total: int): (r: Option<(int, int)>)
    ensures r.None? <==> total == 0
    ensures r.Some? ==> r.value.1 <= total
    ensures r.Some? && page >= 1 && limit >= 0 ==> r.value.0 >= 1
  {
    if total == 0 then None
    else Some(((page - 1) * limit + 1, Min(page * limit, total)))
  }

  /**
   * For the page the server returns, the label names exactly the 1-based
   * positions of its records; past the last page it names an empty range.
   */
  lemma {:induction false} LabelShowsPage<T>(filtered: seq<T>, page: int, limit: int)
    requires page >= 1 && limit >= 1
    ensures var resp := Paginate(filtered, page, limit);
      |resp.data| > 0 ==>
        PaginationLabel(page, limit, |filtered|) == Some(((page - 1) * limit + 1, (page - 1) * limit + |resp.data|))
    ensures var resp := Paginate(filtered, page, limit);
      |filtered| > 0 && |resp.data| == 0 ==>
        PaginationLabel(page, limit, |filtered|).value.0 > PaginationLabel(page, limit, |filtered|).value.1
  {
    var resp := Paginate(filtered, page, limit);
    var offset := (page - 1) * limit;
    assert page * limit == offset + limit;
    if offset < |filtered| {
      assert |resp.data| == Min(limit, |filtered| - offset);
    }
  }

  /** Every option of the per-page selector reads back as itself through `parseInt`. */
  lemma LimitOptionsReadBack()
    ensures forall i :: 0 <= i < |LimitOptions| ==> ParseInt.ParseInt(Decimal(LimitOptions[i])) == Some(LimitOptions[i] as int)
  {
    forall i | 0 <= i < |LimitOptions|
      ensures ParseInt.ParseInt(Decimal(LimitOptions[i])) == Some(LimitOptions[i] as int)
    {
      ParseDecimal(LimitOptions[i], []);
      assert Decimal(LimitOptions[i]) + [] == Decimal(LimitOptions[i]);
    }
  }

  // ---------------------------------------------------- pagination state

  /** What `fetchAPI('/services?...')` resolved to. */
  datatype Response<R> =
    | Paged(data: seq<R>, pagination: PageInfo)   // `response.data && response.pagination`
    | Listing(list: seq<R>)                       // a bare array
    | NotAList                                    // anything else

  /** `state.services` with `state.servicesPagination` (and the prices twins). */
  class ResourceView<R> {
    var items: seq<R>
    var page: int
    var limit: int
    var total: int
    var totalPages: int
    var hasNext: bool
    var hasPrev: bool

    constructor ()
      ensures items == [] && page == 1 && limit == InitialLimit && total == 0 && totalPages == 0
      ensures !hasNext && !hasPrev
    {
      items := [];
      page, limit, total, totalPages := 1, InitialLimit, 0, 0;
      hasNext, hasPrev := false, false;
    }

    /**
     * `changeServicesLimit(newLimit)`: store the parsed limit and reload page
     * 1. The page shown stays until the reload's response arrives.
     */
    method ChangeLimit(newLimit: string) returns (reloadPage: int)
      requires ParseInt.ParseInt(newLimit).Some?
      modifies this
      ensures reloadPage == 1
      ensures limit == ParseInt.ParseInt(newLimit).value
      ensures items == old(items) && page == old(page) && total == old(total) && totalPages == old(totalPages)
      ensures hasNext == old(hasNext) && hasPrev == old(hasPrev)
    {
      limit := ParseInt.ParseInt(newLimit).value;
      reloadPage := 1;
    }

    /** The branch of `loadServices` that stores a response. */
    method ApplyResponse(resp: Response<R>)
      modifies this
      ensures resp.Paged? ==> items == resp.data && page == resp.pagination.page && limit == resp.pagination.limit
      ensures resp.Paged? ==> total == resp.pagination.total && totalPages == resp.pagination.totalPages
      ensures resp.Paged? ==> hasNext == resp.pagination.hasNext && hasPrev == resp.pagination.hasPrev
      ensures resp.Listing? ==> items == resp.list && total == |resp.list| && totalPages == 1
      ensures resp.NotAList? ==> items == [] && total == 0 && totalPages == 1
      ensures !resp.Paged? ==> page == old(page) && limit == old(limit) && hasNext == old(hasNext) && hasPrev == old(hasPrev)
    {
      match resp
      case Paged(data, info) =>
        items := data;
        page, limit, total, totalPages := info.page, info.limit, info.total, info.totalPages;
        hasNext, hasPrev := info.hasNext, info.hasPrev;
      case Listing(list) =>
        items := list;
        total := |list|;
        totalPages := 1;
      case NotAList =>
        items := [];
        total := 0;
        totalPages := 1;
    }
  }

  // -------------------------------------------------------- confirm dialog

  /** The modal and the single `confirmCallback` slot behind it. */
  class ConfirmDialog<C> {
    var pending: Option<C>
    var visible: bool

    constructor ()
      ensures pending.None? && !visible
    {
      pending := None;
      visible := false;
    }

    /** `showConfirm(message, callback)`: a later call replaces an earlier callback. */
    method Show(callback: C)
      modifies this
      ensures pending == Some(callback) && visible
    {
      visible := true;
      pending := Some(callback);
    }

    /** The OK button: returns the callback to run, if any, and empties the slot. */
    method Confirm() returns (run: Option<C>)
      modifies this
      ensures run == old(pending)
      ensures pending.None? && !visible
    {
      visible := false;
      run := pending;
      pending := None;
    }

    /** The cancel button: empties the slot without running it. */
    method Cancel()
      modifies this
      ensures pending.None? && !visible
    {
      visible := false;
      pending := None;
    }
  }

  // -------------------------------------------------------- filter options

  /** The reference: keep `s[i]` exactly when it does not occur in `s[..i]`. */
  function FirstOccurrences(s: seq<Field>): (r: seq<Field>)
    ensures forall x :: x in r <==> x in s
    ensures Distinct(r)
  {
    if s == [] then []
    else
      var init := FirstOccurrences(s[..|s| - 1]);
      assert s == s[..|s| - 1] + [s[|s| - 1]];
      if s[|s| - 1] in s[..|s| - 1] then init else init + [s[|s| - 1]]
  }

  /** `[...new Set(s)]`: add each value in turn unless already present. */
  function SetInsertionOrder(acc: seq<Field>, s: seq<Field>): seq<Field>
    decreases |s|
  {
    if s == [] then acc
    else SetInsertionOrder(if s[0] in acc then acc else acc + [s[0]], s[1..])
  }

  lemma FirstOccurrencesSnoc(p: seq<Field>, x: Field)
    ensures FirstOccurrences(p + [x]) == if x in FirstOccurrences(p) then FirstOccurrences(p) else FirstOccurrences(p) + [x]
  {
    var q := p + [x];
    assert q[..|q| - 1] == p && q[|q| - 1] == x;
  }

  lemma ConcatShift(p: seq<Field>, s: seq<Field>)
    requires s != []
    ensures (p + [s[0]]) + s[1..] == p + s
  {
    assert s == [s[0]] + s[1..];
  }

  lemma InsertionStep(p: seq<Field>, s: seq<Field>)
    requires s != []
    ensures SetInsertionOrder(FirstOccurrences(p), s) == SetInsertionOrder(FirstOccurrences(p + [s[0]]), s[1..])
  {
    FirstOccurrencesSnoc(p, s[0]);
  }

  /** Building the `Set` in insertion order yields the first occurrences. */
  lemma {:induction false} SetInsertionOrderIsFirstOccurrences(p: seq<Field>, s: seq<Field>)
    ensures SetInsertionOrder(FirstOccurrences(p), s) == FirstOccurrences(p + s)
    decreases |s|
  {
    if s == [] {
      assert p + s == p;
    } else {
      var p' := p + [s[0]];
      InsertionStep(p, s);
      SetInsertionOrderIsFirstOccurrences(p', s[1..]);
      ConcatShift(p, s);
    }
  }

  function FieldValues(records: seq<Record>, name: string): (r: seq<Field>)
    ensures |r| == |records|
    ensures forall i :: 0 <= i < |records| ==> r[i] == FieldOf(records[i], name)
  {
    seq(|records|, i requires 0 <= i < |records| => FieldOf(records[i], name))
  }

  /**
   * `[...new Set(allServices.map(s => s[name]).filter(Boolean))]`: the
   * truthy values of one field, each once, in order of first appearance.
   */
  function FilterOptions(records: seq<Record>, name: string): (r: seq<Field>)
    ensures r == FirstOccurrences(Filter(FieldValues(records, name), Truthy))
    ensures Distinct(r)
  {
    var values := Filter(FieldValues(records, name), Truthy);
    SetInsertionOrderIsFirstOccurrences([], values);
    assert [] + values == values;
    SetInsertionOrder([], values)
  }

  /** The options are exactly the truthy values the field takes in some record. */
  lemma FilterOptionsMembers(records: seq<Record>, name: string)
    ensures forall x :: x in FilterOptions(records, name) <==>
      Truthy(x) && exists i :: 0 <= i < |records| && FieldOf(records[i], name) == x
  {
    var values := FieldValues(records, name);
    forall x ensures x in FilterOptions(records, name) <==> x in Filter(values, Truthy) {
    }
    forall x ensures x in Filter(values, Truthy) <==> Truthy(x) && exists i :: 0 <= i < |records| && FieldOf(records[i], name) == x
    {
      if x in Filter(values, Truthy) {
        var k :| 0 <= k < |Filter(values, Truthy)| && Filter(values, Truthy)[k] == x;
        var i :| 0 <= i < |values| && values[i] == x;
      }
      if Truthy(x) && exists i :: 0 <= i < |records| && FieldOf(records[i], name) == x {
        var i :| 0 <= i < |records| && FieldOf(records[i], name) == x;
        assert values[i] == x;
      }
    }
  }
}
