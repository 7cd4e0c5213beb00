/** `hubstaffRequestAllItems`: requests pages 1, 2, ... of one endpoint and concatenates the
    records extracted from each, stopping by the `meta.pagination` rule when the response
    carries one and by the short-page rule otherwise. The server is a finite sequence of page
    responses; a page past its end is answered with an empty array. */
module Paginator {
  import opened JsNumbers
  import opened JsValues
  import opened Responses

  /** The response to the request for `page` (pages are numbered from 1). */
  function PageResponse(pages: seq<Value>, page: int): Value {
    if 1 <= page <= |pages| then pages[page - 1] else Arr([])
  }

  /** `qsBase.per_page ? Number(qsBase.per_page) : 100`. */
  function PerPage(qsBase: seq<(string, Value)>): Num {
    var v := Lookup(qsBase, "per_page");
    if Truthy(v) then ToNumber(v) else Fin(100.0)
  }

  /** The query of one request: `{ ...qsBase, page, per_page }`. */
  function PageQuery(qsBase: seq<(string, Value)>, page: int, perPage: Num): seq<(string, Value)> {
    SetField(SetField(qsBase, "page", Number(Fin(page as real))), "per_page", Number(perPage))
  }

  /** `resp && resp.meta && resp.meta.pagination`. */
  predicate HasPagination(resp: Value) {
    Truthy(resp) && Truthy(Get(resp, "meta")) && Truthy(Get(Get(resp, "meta"), "pagination"))
  }

  /** `total_pages || Math.ceil((total || 0) / (per_page || perPage))` of a pagination record. */
  function TotalPages(pagination: Value, perPage: Num): Value {
    var explicit := Get(pagination, "total_pages");
    if Truthy(explicit) then explicit
    else
      var total := ToNumber(Or(Get(pagination, "total"), Number(Fin(0.0))));
      var size := ToNumber(Or(Get(pagination, "per_page"), Number(perPage)));
      Number(Ceil(Div(total, size)))
  }

  /** The metadata rule: stop once `page >= totalPages`. */
  predicate LastByMeta(resp: Value, page: int, perPage: Num) {
    GreaterEq(Fin(page as real), ToNumber(TotalPages(Get(Get(resp, "meta"), "pagination"), perPage)))
  }

  /** The records extracted from pages `lo` to `hi - 1`, in page order. */
  function Gathered(pages: seq<Value>, lo: int, hi: int): seq<Value>
    decreases hi - lo
  {
    if hi <= lo then [] else ExtractData(PageResponse(pages, lo)) + Gathered(pages, lo + 1, hi)
  }

  /** The queries for `n` consecutive pages starting at `page`. */
  function Queries(qsBase: seq<(string, Value)>, page: int, n: nat, perPage: Num): (qs: seq<seq<(string, Value)>>)
    ensures |qs| == n
    decreases n
  {
    if n == 0 then [] else [PageQuery(qsBase, page, perPage)] + Queries(qsBase, page + 1, n - 1, perPage)
  }

  /** The `i`-th of those queries is the one for page `page + i`. */
  lemma {:induction false} QueriesAt(qsBase: seq<(string, Value)>, page: int, n: nat, perPage: Num, i: nat)
    requires i < n
    ensures Queries(qsBase, page, n, perPage)[i] == PageQuery(qsBase, page + i, perPage)
    decreases i
  {
    var qs := Queries(qsBase, page, n, perPage);
    assert qs == [PageQuery(qsBase, page, perPage)] + Queries(qsBase, page + 1, n - 1, perPage);
    if i > 0 {
      QueriesAt(qsBase, page + 1, n - 1, perPage, i - 1);
      assert qs[i] == Queries(qsBase, page + 1, n - 1, perPage)[i - 1];
    }
  }

  /** What the loop body makes of one response: the records it appends and whether it asks
      for the next page. With `meta.pagination` it appends and stops once `page >= totalPages`;
      without, an empty page stops at once and a page shorter than `per_page` stops after
      being appended. */
  function Decide(resp: Value, page: int, perPage: Num): (seq<Value>, bool) {
    var items := ExtractData(resp);
    if HasPagination(resp) then (items, !LastByMeta(resp, page, perPage))
    else if |items| == 0 then ([], false)
    else (items, !Less(Fin(|items| as real), perPage))
  }

  /** The records collected and the queries sent. */
  datatype Fetch = Fetch(items: seq<Value>, sent: seq<seq<(string, Value)>>)

  /** A rule for reading one response: the records it yields and whether to ask for the
      next page. */
  type Decider = (Value, int) -> (seq<Value>, bool)

  /** The node's rule, for a fixed page size. */
  function Rule(perPage: Num): Decider {
    (resp, page) => Decide(resp, page, perPage)
  }

  /** The rule stops at the empty answer to the first page past the server's last one. */
  predicate StopsPastLast(pages: seq<Value>, decide: Decider) {
    !decide(PageResponse(pages, |pages| + 1), |pages| + 1).1
  }

  /** The records a rule yields for pages `lo` to `hi - 1`, in page order. */
  function Collected(pages: seq<Value>, decide: Decider, lo: int, hi: int): seq<Value>
    decreases hi - lo
  {
    if hi <= lo then [] else decide(PageResponse(pages, lo), lo).0 + Collected(pages, decide, lo + 1, hi)
  }

  /** The pagination loop from `page` on: request the page, keep what the rule yields, and go
      on to the next page while the rule asks for more. */
  function FetchFrom(qsBase: seq<(string, Value)>, pages: seq<Value>, perPage: Num, decide: Decider, page: int): Fetch
    requires 1 <= page <= |pages| + 1 && StopsPastLast(pages, decide)
    decreases |pages| + 1 - page
  {
    var step := decide(PageResponse(pages, page), page);
    if !step.1 then Fetch(step.0, [PageQuery(qsBase, page, perPage)])
    else
      assert page <= |pages|;
      var rest := FetchFrom(qsBase, pages, perPage, decide, page + 1);
      Fetch(step.0 + rest.items, [PageQuery(qsBase, page, perPage)] + rest.sent)
  }

  /** `hubstaffRequestAllItems` against the server `pages`. */
  function Paginate(qsBase: seq<(string, Value)>, pages: seq<Value>): Fetch {
    var perPage := PerPage(qsBase);
    assert StopsPastLast(pages, Rule(perPage)) by {
      assert Decide(Arr([]), |pages| + 1, perPage).1 == false;
    }
    FetchFrom(qsBase, pages, perPage, Rule(perPage), 1)
  }

  /** What the loop does from `page` on, whatever the rule: it sends consecutive pages
      starting at `page`, each query being the base query with that page and the fixed page
      size; it collects exactly what the rule yields for the pages it requested, in order;
      and it requests at most one page past the last one the server has. */
  lemma {:induction false} FetchFromShape(qsBase: seq<(string, Value)>, pages: seq<Value>, perPage: Num,
                                          decide: Decider, page: int)
    requires 1 <= page <= |pages| + 1 && StopsPastLast(pages, decide)
    ensures var r := FetchFrom(qsBase, pages, perPage, decide, page);
            && 1 <= |r.sent| && page + |r.sent| <= |pages| + 2
            && r.sent == Queries(qsBase, page, |r.sent|, perPage)
            && r.items == Collected(pages, decide, page, page + |r.sent|)
    decreases |pages| + 1 - page
  {
    var r := FetchFrom(qsBase, pages, perPage, decide, page);
    var step := decide(PageResponse(pages, page), page);
    var q := PageQuery(qsBase, page, perPage);
    if !step.1 {
      assert r == Fetch(step.0, [q]);
      assert Queries(qsBase, page, 1, perPage) == [q] + Queries(qsBase, page + 1, 0, perPage);
      assert Collected(pages, decide, page, page + 1) == step.0 + Collected(pages, decide, page + 1, page + 1);
    } else {
      var rest := FetchFrom(qsBase, pages, perPage, decide, page + 1);
      assert r == Fetch(step.0 + rest.items, [q] + rest.sent);
      FetchFromShape(qsBase, pages, perPage, decide, page + 1);
      var n := |rest.sent|;
      assert Queries(qsBase, page, 1 + n, perPage) == [q] + Queries(qsBase, page + 1, n, perPage);
      assert Collected(pages, decide, page, page + 1 + n) == step.0 + Collected(pages, decide, page + 1, page + 1 + n);
    }
  }

  /** Every rule of the node yields the page's extracted records, whichever way it decides. */
  lemma {:induction false} DecideKeepsExtracted(resp: Value, page: int, perPage: Num)
    ensures Decide(resp, page, perPage).0 == ExtractData(resp)
  {
  }

  /** With the node's rule, what is collected is what the extractor reads from each page. */
  lemma {:induction false} CollectedIsGathered(pages: seq<Value>, perPage: Num, lo: int, hi: int)
    ensures Collected(pages, Rule(perPage), lo, hi) == Gathered(pages, lo, hi)
    decreases hi - lo
  {
    if lo < hi {
      DecideKeepsExtracted(PageResponse(pages, lo), lo, perPage);
      CollectedIsGathered(pages, perPage, lo + 1, hi);
    }
  }

  /** The paginator's result: consecutive queries from page 1, at most one past the server's
      last page, and the extracted records of exactly the pages requested, in order. */
  lemma {:induction false} PaginateShape(qsBase: seq<(string, Value)>, pages: seq<Value>)
    ensures var r := Paginate(qsBase, pages);
            && 1 <= |r.sent| <= |pages| + 1
            && r.sent == Queries(qsBase, 1, |r.sent|, PerPage(qsBase))
            && r.items == Gathered(pages, 1, 1 + |r.sent|)
  {
    var perPage := PerPage(qsBase);
    assert Decide(Arr([]), |pages| + 1, perPage).1 == false;
    FetchFromShape(qsBase, pages, perPage, Rule(perPage), 1);
    CollectedIsGathered(pages, perPage, 1, 1 + |Paginate(qsBase, pages).sent|);
  }

  lemma {:induction false} AppendAssoc<T>(a: seq<T>, b: seq<T>, c: seq<T>)
    ensures a + (b + c) == (a + b) + c
  {
  }

  /** One turn of the loop: the page's records and query come first, then, if the rule asks
      for more, everything from the next page on. */
  lemma {:induction false} FetchStep(qsBase: seq<(string, Value)>, pages: seq<Value>, perPage: Num, decide: Decider, page: int)
    requires 1 <= page <= |pages| + 1 && StopsPastLast(pages, decide)
    ensures decide(PageResponse(pages, page), page).1 ==>
              page + 1 <= |pages| + 1 &&
              FetchFrom(qsBase, pages, perPage, decide, page) ==
                Fetch(decide(PageResponse(pages, page), page).0 + FetchFrom(qsBase, pages, perPage, decide, page + 1).items,
                      [PageQuery(qsBase, page, perPage)] + FetchFrom(qsBase, pages, perPage, decide, page + 1).sent)
    ensures !decide(PageResponse(pages, page), page).1 ==>
              FetchFrom(qsBase, pages, perPage, decide, page) ==
                Fetch(decide(PageResponse(pages, page), page).0, [PageQuery(qsBase, page, perPage)])
  {
  }

  /** The paginator as the node runs it: a `while (true)` loop over `page`. */
  method FetchAllItems(qsBase: seq<(string, Value)>, pages: seq<Value>)
    returns (allItems: seq<Value>, sent: seq<seq<(string, Value)>>)
    ensures Fetch(allItems, sent) == Paginate(qsBase, pages)
  {
    allItems, sent := [], [];
    var page := 1;
    var perPage := PerPage(qsBase);
    ghost var rule := Rule(perPage);
    assert Decide(Arr([]), |pages| + 1, perPage).1 == false;
    while true
      invariant 1 <= page <= |pages| + 1 && StopsPastLast(pages, rule)
      invariant Paginate(qsBase, pages) ==
                Fetch(allItems + FetchFrom(qsBase, pages, perPage, rule, page).items,
                      sent + FetchFrom(qsBase, pages, perPage, rule, page).sent)
      decreases |pages| + 1 - page
    {
      var resp := PageResponse(pages, page);
      FetchStep(qsBase, pages, perPage, rule, page);
      ghost var step := Decide(resp, page, perPage);
      assert rule(resp, page) == step;
      ghost var allBefore, sentBefore := allItems, sent;
      sent := sent + [PageQuery(qsBase, page, perPage)];
      var items := ExtractData(resp);
      if HasPagination(resp) {
        allItems := allItems + items;
        if LastByMeta(resp, page, perPage) {
          return;
        }
      } else {
        if |items| == 0 {
          return;
        }
        allItems := allItems + items;
        if Less(Fin(|items| as real), perPage) {
          return;
        }
      }
      assert step == (items, true);
      ghost var next := FetchFrom(qsBase, pages, perPage, rule, page + 1);
      AppendAssoc(allBefore, items, next.items);
      AppendAssoc(sentBefore, [PageQuery(qsBase, page, perPage)], next.sent);
      page := page + 1;
    }
  }

  // ---------------------------------------------------------------------------
  // Properties of the paginator

  /** Every request carries the page number and the page size; the base query's other keys
      are sent unchanged. */
  lemma {:induction false} PageQueryCarries(qsBase: seq<(string, Value)>, page: int, perPage: Num)
    ensures Lookup(PageQuery(qsBase, page, perPage), "page") == Number(Fin(page as real))
    ensures Lookup(PageQuery(qsBase, page, perPage), "per_page") == Number(perPage)
    ensures forall k :: k != "page" && k != "per_page" ==> Lookup(PageQuery(qsBase, page, perPage), k) == Lookup(qsBase, k)
  {
    var withPage := SetField(qsBase, "page", Number(Fin(page as real)));
    assert "page" != "per_page" by { assert |"page"| != |"per_page"|; }
    SetFieldBinds(qsBase, "page", Number(Fin(page as real)));
    SetFieldBinds(withPage, "per_page", Number(perPage));
    SetFieldOthers(withPage, "per_page", Number(perPage), "page");
    forall k | k != "page" && k != "per_page"
      ensures Lookup(PageQuery(qsBase, page, perPage), k) == Lookup(qsBase, k)
    {
      SetFieldOthers(withPage, "per_page", Number(perPage), k);
      SetFieldOthers(qsBase, "page", Number(Fin(page as real)), k);
    }
  }

  /** Without `per_page` in the base query the page size is 100. */
  lemma {:induction false} DefaultPageSize(qsBase: seq<(string, Value)>)
    requires !HasKey(qsBase, "per_page")
    ensures PerPage(qsBase) == Fin(100.0)
  {
  }

  /** A reported `total_pages` of `last` stops the fetch exactly from page `last` on. */
  lemma {:induction false} LastByTotalPages(resp: Value, page: int, perPage: Num, last: nat)
    requires 1 <= last
    requires Get(Get(Get(resp, "meta"), "pagination"), "total_pages") == Number(Fin(last as real))
    ensures LastByMeta(resp, page, perPage) <==> page >= last
  {
    assert TotalPages(Get(Get(resp, "meta"), "pagination"), perPage) == Number(Fin(last as real));
  }

  /** Without `total_pages`, the page count is `ceil(total / size)`, `total` defaulting to 0
      and `size` being the record's `per_page` or else the request's page size; the metadata
      rule then stops exactly once `page * size >= total`. */
  lemma {:induction false} LastByTotal(resp: Value, page: int, perPage: real, total: real, size: real)
    requires size > 0.0
    requires var pg := Get(Get(resp, "meta"), "pagination");
             && !Truthy(Get(pg, "total_pages"))
             && (Get(pg, "total") == Number(Fin(total)) || (!Truthy(Get(pg, "total")) && total == 0.0))
             && (Get(pg, "per_page") == Number(Fin(size)) || (!Truthy(Get(pg, "per_page")) && size == perPage))
    ensures LastByMeta(resp, page, Fin(perPage)) <==> page as real * size >= total
  {
    PagesFromTotal(Get(Get(resp, "meta"), "pagination"), perPage, total, size);
    CeilAtMost(total / size, page);
    WholePagesCover(page, total, size);
  }

  /** The fallback page count of a record without `total_pages`. */
  lemma {:induction false} PagesFromTotal(pg: Value, perPage: real, total: real, size: real)
    requires size > 0.0
    requires !Truthy(Get(pg, "total_pages"))
    requires Get(pg, "total") == Number(Fin(total)) || (!Truthy(Get(pg, "total")) && total == 0.0)
    requires Get(pg, "per_page") == Number(Fin(size)) || (!Truthy(Get(pg, "per_page")) && size == perPage)
    ensures TotalPages(pg, Fin(perPage)) == Number(Fin(CeilReal(total / size) as real))
  {
  }

  /** `page` pages of `size` records cover `total` exactly when `page >= total / size`. */
  lemma {:induction false} WholePagesCover(page: int, total: real, size: real)
    requires size > 0.0
    ensures (page as real >= total / size) <==> (page as real * size >= total)
  {
    assert total / size * size == total;
    if page as real >= total / size {
      assert page as real * size >= total / size * size;
    } else {
      assert page as real * size < total / size * size;
    }
  }

  /** An integer is at least `ceil(x)` exactly when it is at least `x`. */
  lemma {:induction false} CeilAtMost(x: real, n: int)
    ensures (n as real >= CeilReal(x) as real) <==> (n as real >= x)
  {
    var c := CeilReal(x);
    if n as real >= x {
      assert n > c - 1;
    }
  }

  /** Pages that carry `meta.pagination` ask for more exactly while the metadata rule does not
      stop them. */
  lemma {:induction false} MetaDecisions(pages: seq<Value>, perPage: Num, page: nat, last: nat)
    requires forall p :: page <= p <= last ==> HasPagination(PageResponse(pages, p))
    requires forall p :: page <= p < last ==> !LastByMeta(PageResponse(pages, p), p, perPage)
    requires LastByMeta(PageResponse(pages, last), last, perPage)
    ensures forall p :: page <= p < last ==> Rule(perPage)(PageResponse(pages, p), p).1
    ensures page <= last ==> !Rule(perPage)(PageResponse(pages, last), last).1
  {
    forall p | page <= p < last
      ensures Rule(perPage)(PageResponse(pages, p), p).1
    {
      assert HasPagination(PageResponse(pages, p));
    }
    if page <= last {
      assert HasPagination(PageResponse(pages, last));
    }
  }

  /** Whatever the rule, when it asks for more on every page from `page` to `last - 1` and
      stops on `last`, the loop sends exactly the pages `page..last` and collects what the rule
      yields for them. */
  lemma {:induction false} StopsAt(qsBase: seq<(string, Value)>, pages: seq<Value>, perPage: Num,
                                   decide: Decider, page: int, last: int)
    requires 1 <= page <= last <= |pages| + 1 && StopsPastLast(pages, decide)
    requires forall p :: page <= p < last ==> decide(PageResponse(pages, p), p).1
    requires !decide(PageResponse(pages, last), last).1
    ensures |FetchFrom(qsBase, pages, perPage, decide, page).sent| == last - page + 1
    decreases last - page
  {
    FetchStep(qsBase, pages, perPage, decide, page);
    if page < last {
      StopsAt(qsBase, pages, perPage, decide, page + 1, last);
    }
  }

  /** With the node's rule asking for more on every page from `page` to `last - 1` and
      stopping on `last`, exactly the pages `page..last` are requested and all their
      extracted records are returned, in order. */
  lemma {:induction false} RuleStopsAt(qsBase: seq<(string, Value)>, pages: seq<Value>, perPage: Num, page: nat, last: nat)
    requires 1 <= page <= last <= |pages| && StopsPastLast(pages, Rule(perPage))
    requires forall p :: page <= p < last ==> Rule(perPage)(PageResponse(pages, p), p).1
    requires !Rule(perPage)(PageResponse(pages, last), last).1
    ensures |FetchFrom(qsBase, pages, perPage, Rule(perPage), page).sent| == last - page + 1
    ensures FetchFrom(qsBase, pages, perPage, Rule(perPage), page).items == Gathered(pages, page, last + 1)
  {
    StopsAt(qsBase, pages, perPage, Rule(perPage), page, last);
    CollectsUpTo(qsBase, pages, perPage, Rule(perPage), page, last);
    CollectedIsGathered(pages, perPage, page, last + 1);
  }

  /** When every response from `page` to `last` carries `meta.pagination`, and `last` is the
      first of them with `page >= totalPages`, the paginator requests exactly the pages
      `page..last` and returns all their records. */
  lemma {:induction false} MetadataPath(qsBase: seq<(string, Value)>, pages: seq<Value>, perPage: Num, page: nat, last: nat)
    requires 1 <= page <= last <= |pages| && StopsPastLast(pages, Rule(perPage))
    requires forall p :: page <= p <= last ==> HasPagination(PageResponse(pages, p))
    requires forall p :: page <= p < last ==> !LastByMeta(PageResponse(pages, p), p, perPage)
    requires LastByMeta(PageResponse(pages, last), last, perPage)
    ensures |FetchFrom(qsBase, pages, perPage, Rule(perPage), page).sent| == last - page + 1
    ensures FetchFrom(qsBase, pages, perPage, Rule(perPage), page).items == Gathered(pages, page, last + 1)
  {
    MetaDecisions(pages, perPage, page, last);
    RuleStopsAt(qsBase, pages, perPage, page, last);
  }

  /** Pages without metadata ask for more exactly when they are not short. */
  lemma {:induction false} ShortDecisions(pages: seq<Value>, perPage: Num, page: nat, last: nat)
    requires forall p :: page <= p <= last ==>
               !HasPagination(PageResponse(pages, p)) && |ExtractData(PageResponse(pages, p))| > 0
    ensures forall p :: page <= p <= last ==>
              Rule(perPage)(PageResponse(pages, p), p).1 == !Less(Fin(|ExtractData(PageResponse(pages, p))| as real), perPage)
  {
    forall p | page <= p <= last
      ensures Rule(perPage)(PageResponse(pages, p), p).1 == !Less(Fin(|ExtractData(PageResponse(pages, p))| as real), perPage)
    {
    }
  }

  /** Without pagination metadata, full pages continue and the first short, non-empty page is
      the last one requested; all records up to and including it are returned. */
  lemma {:induction false} ShortPagePath(qsBase: seq<(string, Value)>, pages: seq<Value>, perPage: Num, page: nat, last: nat)
    requires 1 <= page <= last <= |pages| && StopsPastLast(pages, Rule(perPage))
    requires forall p :: page <= p <= last ==>
               !HasPagination(PageResponse(pages, p)) && |ExtractData(PageResponse(pages, p))| > 0
    requires forall p :: page <= p < last ==> !Less(Fin(|ExtractData(PageResponse(pages, p))| as real), perPage)
    requires Less(Fin(|ExtractData(PageResponse(pages, last))| as real), perPage)
    ensures |FetchFrom(qsBase, pages, perPage, Rule(perPage), page).sent| == last - page + 1
    ensures FetchFrom(qsBase, pages, perPage, Rule(perPage), page).items == Gathered(pages, page, last + 1)
  {
    ShortDecisions(pages, perPage, page, last);
    RuleStopsAt(qsBase, pages, perPage, page, last);
  }

  /** Whatever the rule, once the requests from `page` are known to reach `last`, the
      records are what the rule yields for the pages `page..last`. */
  lemma {:induction false} CollectsUpTo(qsBase: seq<(string, Value)>, pages: seq<Value>, perPage: Num,
                                        decide: Decider, page: int, last: int)
    requires 1 <= page <= |pages| + 1 && StopsPastLast(pages, decide)
    requires |FetchFrom(qsBase, pages, perPage, decide, page).sent| == last - page + 1
    ensures FetchFrom(qsBase, pages, perPage, decide, page).items == Collected(pages, decide, page, last + 1)
  {
    FetchFromShape(qsBase, pages, perPage, decide, page);
  }

  /** A page without pagination metadata and without records ends the fetch and adds nothing. */
  lemma {:induction false} EmptyPageStops(qsBase: seq<(string, Value)>, pages: seq<Value>, perPage: Num, page: nat)
    requires 1 <= page <= |pages| + 1 && StopsPastLast(pages, Rule(perPage))
    requires !HasPagination(PageResponse(pages, page)) && ExtractData(PageResponse(pages, page)) == []
    ensures FetchFrom(qsBase, pages, perPage, Rule(perPage), page) == Fetch([], [PageQuery(qsBase, page, perPage)])
  {
    assert Rule(perPage)(PageResponse(pages, page), page) == ([], false);
  }

  /** Worked example: pages of 100, 100 and 37 records with the default page size take three
      requests and return all 237 records. */
  lemma {:induction false} ThreePagesExample(qsBase: seq<(string, Value)>)
    requires !HasKey(qsBase, "per_page")
    ensures var r := Paginate(qsBase, [Arr(seq(100, _ => Null)), Arr(seq(100, _ => Null)), Arr(seq(37, _ => Null))]);
            |r.sent| == 3 && |r.items| == 237
  {
    var pages := [Arr(seq(100, _ => Null)), Arr(seq(100, _ => Null)), Arr(seq(37, _ => Null))];
    DefaultPageSize(qsBase);
    assert Decide(Arr([]), |pages| + 1, Fin(100.0)).1 == false;
    ShortPagePath(qsBase, pages, Fin(100.0), 1, 3);
    assert |Gathered(pages, 1, 4)| == 237 by {
      assert PageResponse(pages, 1) == pages[0] && PageResponse(pages, 2) == pages[1] && PageResponse(pages, 3) == pages[2];
    }
  }
}
