/** The client's page iterators against servers that cap the page size. The list does not change meanwhile. */
module Paging {
  import opened Wrappers

  const DEFAULT_SIZE := 20
  const MAX_SIZE := 100

  // ----- The servers -----

  /** The size a server works with. */
  function Effective(size: int): (eff: nat)
    ensures 1 <= eff <= 100
    ensures 1 <= size <= 100 ==> eff == size
  {
    if size <= 0 then DEFAULT_SIZE else if size > MAX_SIZE then MAX_SIZE else size
  }

  function Min(a: nat, b: nat): nat {
    if a <= b then a else b
  }

  /** `LIMIT` and `OFFSET`. */
  function Limited<T>(list: seq<T>, limit: nat, offset: nat): seq<T> {
    list[Min(offset, |list|)..Min(offset + limit, |list|)]
  }

  /** The page a server answers with. */
  function Page<T>(list: seq<T>, page: int, size: int): seq<T> {
    Limited(list, Effective(size), (if page < 0 then 0 else page) * Effective(size))
  }

  /** Whether the list goes on after that page. */
  predicate More<T>(list: seq<T>, page: int, size: int) {
    |list| > ((if page < 0 then 0 else page) + 1) * Effective(size)
  }

  method ListPipelineRuns<T>(list: seq<T>, page: int, size: int) returns (runs: seq<T>, totalCount: nat)
    ensures runs == Page(list, page, size) && totalCount == |list|
  {
    var p, s := page, size;
    if s <= 0 {
      s := 20;
    }
    if s > 100 {
      s := 100;
    }
    if p < 0 {
      p := 0;
    }
    runs, totalCount := Limited(list, s, p * s), |list|;
  }

  /** Page parameters out of the query: defaults for what is missing or out of range, and the cap on the size. */
  method PageParams(pageValue: Option<int>, sizeValue: Option<int>) returns (page: nat, size: nat)
    ensures page == if pageValue.Some? && pageValue.value >= 0 then pageValue.value else 0
    ensures size == Effective(if sizeValue.Some? then sizeValue.value else 0)
    ensures size ==
      if sizeValue == None || sizeValue.value <= 0 then 20
      else if sizeValue.value > 100 then 100
      else sizeValue.value
  {
    page, size := 0, 20;
    if pageValue.Some? && pageValue.value >= 0 {
      page := pageValue.value;
    }
    if sizeValue.Some? && sizeValue.value > 0 {
      size := sizeValue.value;
    }
    if size > 100 {
      size := 100;
    }
  }

  /** One row more than asked for tells whether there are more. */
  method FindByStatusPaged<T>(list: seq<T>, page: nat, size: nat) returns (tasks: seq<T>, hasMore: bool)
    ensures tasks == Limited(list, size, page * size)
    ensures hasMore <==> |list| > (page + 1) * size
  {
    tasks := Limited(list, size + 1, page * size);
    assert (page + 1) * size == page * size + size;
    if |tasks| > size {
      return tasks[..size], true;
    }
    return tasks, false;
  }

  // ----- The iterators -----

  /** The pages numbered `first` onwards. */
  function Pages<T>(list: seq<T>, first: int, size: int, n: nat): (pages: seq<seq<T>>)
    ensures |pages| == n
    ensures forall i :: 0 <= i < n ==> pages[i] == Page(list, first + i, size)
  {
    seq(n, i requires 0 <= i < n => Page(list, first + i, size))
  }

  /** Where an iterator driven by the total stops. */
  predicate TotalStops<T>(list: seq<T>, page: int, size: int) {
    Page(list, page, size) == [] || |list| <= (page + 1) * size
  }

  /** The pages yielded when no request fails: consecutive, up to the first stop or the limit. */
  ghost predicate TotalRun<T>(list: seq<T>, first: int, size: int, maxPages: int, pages: seq<seq<T>>) {
    && pages == Pages(list, first, size, |pages|)
    && |pages| <= (if maxPages < 0 then 0 else maxPages)
    && (forall q :: first <= q < first + |pages| - 1 ==> !TotalStops(list, q, size))
    && (|pages| < maxPages ==> |pages| > 0 && TotalStops(list, first + |pages| - 1, size))
  }

  method IterPipelineRuns<T>(list: seq<T>, first: int, size: int, maxPages: int, failing: set<nat>)
    returns (pages: seq<seq<T>>, requests: nat)
    ensures failing == {} ==> TotalRun(list, first, size, maxPages, pages) && requests == |pages|
    ensures maxPages <= 0 ==> pages == [] && requests == 0
    ensures pages == Pages(list, first, size, |pages|)
    ensures requests == |pages| || (requests == |pages| + 1 && |pages| in failing)
  {
    var page, i := first, 0;
    pages, requests := [], 0;
    while i < maxPages
      invariant 0 <= i && page == first + i && requests == i == |pages| && (i <= maxPages || i == 0)
      invariant pages == Pages(list, first, size, i)
      invariant forall q :: first <= q < page ==> !TotalStops(list, q, size)
    {
      requests := requests + 1;
      if i in failing {
        return;
      }
      var runs, totalCount := ListPipelineRuns(list, page, size);
      pages := pages + [runs];
      assert pages == Pages(list, first, size, i + 1);
      if |runs| == 0 {
        return;
      }
      if totalCount <= (page + 1) * size {
        return;
      }
      page := page + 1;
      i := i + 1;
    }
  }

  /** The pages yielded by the iterator that follows `hasMore`, when no request fails. */
  ghost predicate MoreRun<T>(list: seq<T>, first: int, size: int, maxPages: int, pages: seq<seq<T>>) {
    && pages == Pages(list, first, size, |pages|)
    && |pages| <= (if maxPages < 0 then 0 else maxPages)
    && (forall q :: first <= q < first + |pages| - 1 ==> More(list, q, size))
    && (|pages| < maxPages ==> |pages| > 0 && !More(list, first + |pages| - 1, size))
  }

  method IterFrontendReviews<T>(list: seq<T>, first: int, size: int, maxPages: int, failing: set<nat>)
    returns (pages: seq<seq<T>>, requests: nat)
    ensures failing == {} ==> MoreRun(list, first, size, maxPages, pages) && requests == |pages|
    ensures maxPages <= 0 ==> pages == [] && requests == 0
    ensures pages == Pages(list, first, size, |pages|)
    ensures requests == |pages| || (requests == |pages| + 1 && |pages| in failing)
  {
    var page, i := first, 0;
    pages, requests := [], 0;
    while i < maxPages
      invariant 0 <= i && page == first + i && requests == i == |pages| && (i <= maxPages || i == 0)
      invariant pages == Pages(list, first, size, i)
      invariant forall q :: first <= q < page ==> More(list, q, size)
    {
      requests := requests + 1;
      if i in failing {
        return;
      }
      var p, s := PageParams(Some(page), Some(size));
      var tasks, hasMore := FindByStatusPaged(list, p, s);
      pages := pages + [tasks];
      assert pages == Pages(list, first, size, i + 1);
      if !hasMore {
        return;
      }
      MorePageIsFull(list, page, size);
      if |tasks| == 0 {
        return;
      }
      page := page + 1;
      i := i + 1;
    }
  }

  lemma MorePageIsFull<T>(list: seq<T>, page: int, size: int)
    requires More(list, page, size)
    ensures |Page(list, page, size)| == Effective(size)
  {
    var p := if page < 0 then 0 else page;
    assert (p + 1) * Effective(size) == p * Effective(size) + Effective(size);
  }

  // ----- What is yielded -----

  function Flatten<T>(pages: seq<seq<T>>): seq<T> {
    if pages == [] then [] else Flatten(pages[..|pages| - 1]) + pages[|pages| - 1]
  }

  /** Consecutive pages are a stretch of the list, in order, each item once. */
  lemma {:induction false} PagesAreStretch<T>(list: seq<T>, first: nat, size: int, n: nat)
    ensures var eff := Effective(size);
      Flatten(Pages(list, first, size, n)) == list[Min(first * eff, |list|)..Min((first + n) * eff, |list|)]
    decreases n
  {
    if n > 0 {
      var eff, pages := Effective(size), Pages(list, first, size, n);
      PagesAreStretch(list, first, size, n - 1);
      assert pages[..n - 1] == Pages(list, first, size, n - 1);
      NextPage(first, n, eff);
      Longer(list, first * eff, (first + n - 1) * eff, eff);
      hide Limited, Effective;
      assert pages[n - 1] == Page(list, first + n - 1, size) == Limited(list, eff, (first + n - 1) * eff);
    }
  }

  lemma Longer<T>(list: seq<T>, a: nat, b: nat, eff: nat)
    requires a <= b
    ensures list[Min(a, |list|)..Min(b, |list|)] + Limited(list, eff, b) == list[Min(a, |list|)..Min(b + eff, |list|)]
  {
  }

  lemma NextPage(first: nat, n: nat, eff: nat)
    requires n > 0
    ensures (first + n - 1) * eff + eff == (first + n) * eff && first * eff <= (first + n - 1) * eff
  {
    assert (first + n - 1) * eff == first * eff + (n - 1) * eff;
  }

  /** From page 0: a prefix of the list, and all of it exactly when the pages hold that much. */
  lemma PagesArePrefix<T>(list: seq<T>, size: int, n: nat)
    ensures var yielded := Flatten(Pages(list, 0, size, n));
      && yielded <= list && |yielded| == Min(n * Effective(size), |list|)
      && (yielded == list <==> |list| <= n * Effective(size))
  {
    PagesAreStretch(list, 0, size, n);
    var yielded, taken := Flatten(Pages(list, 0, size, n)), n * Effective(size);
    hide Flatten, Pages, Effective;
    assert taken >= 0 && yielded == list[Min(0, |list|)..Min(taken, |list|)];
  }

  /** The least number of pages of `size` that hold `total` items, but at least one. */
  function PageCount(total: nat, size: nat): (n: nat)
    requires size > 0
    ensures n >= 1
  {
    if total == 0 then 1 else (total - 1) / size + 1
  }

  lemma PageCountIs(total: nat, size: nat, n: nat)
    requires size > 0 && n >= 1 && total <= n * size && (n == 1 || total > (n - 1) * size)
    ensures n == PageCount(total, size)
  {
    if total > 0 {
      CountBounds(total, size);
      var k := PageCount(total, size);
      hide PageCount;
      if k < n {
        Times(k, n - 1, size);
      } else if k > n {
        Times(n, k - 1, size);
      }
    }
  }

  lemma Times(a: nat, b: nat, c: nat)
    requires a <= b
    ensures a * c <= b * c
  {
    assert b * c == a * c + (b - a) * c;
  }

  /** How many pages the iterator driven by the total asks for, from page 0. */
  function TotalRequests(total: nat, size: int): nat {
    if size > 0 then PageCount(total, size) else PageCount(total, DEFAULT_SIZE) + if total == 0 then 0 else 1
  }

  /** A page is empty when the list ends before it. */
  lemma EmptyPage<T>(list: seq<T>, page: nat, size: int, before: nat)
    requires before == page * Effective(size)
    ensures Page(list, page, size) == [] <==> |list| <= before
  {
    hide Effective;
  }

  lemma NextProduct(page: nat, size: int)
    ensures (page + 1) * size == page * size + size
  {
  }

  lemma CappedProduct(page: nat, size: nat)
    requires size > 0
    ensures page * Effective(size) <= page * size
  {
    Times(Effective(size), size, page);
  }

  lemma NotPositive(page: nat, size: int)
    requires size <= 0
    ensures (page + 1) * size <= 0
  {
    Times(0, page + 1, -size);
    assert (page + 1) * -size == -((page + 1) * size);
  }

  /** The products given: `before` items of capped pages, and the client's own reckoning after two pages. */
  lemma StopsAt<T>(list: seq<T>, page: nat, size: int, before: nat, was: int, now: int)
    requires before == page * Effective(size) && was == page * size && now == (page + 1) * size
    ensures TotalStops(list, page, size) <==> |list| <= before || |list| <= now
    ensures page > 0 && !TotalStops(list, page - 1, size) ==> |list| > was
  {
    EmptyPage(list, page, size, before);
    hide Page, Effective;
  }

  /** Stopping for an empty page comes no earlier than stopping for the total. */
  lemma TotalStopsIff<T>(list: seq<T>, page: nat, size: int)
    ensures size > 0 && (page == 0 || !TotalStops(list, page - 1, size)) ==>
      (TotalStops(list, page, size) <==> |list| <= (page + 1) * size)
    ensures size <= 0 ==> (TotalStops(list, page, size) <==> |list| <= page * DEFAULT_SIZE)
  {
    var before, was, now := page * Effective(size), page * size, (page + 1) * size;
    StopsAt(list, page, size, before, was, now);
    NextProduct(page, size);
    if size <= 0 {
      NotPositive(page, size);
      assert Effective(size) == DEFAULT_SIZE;
    } else {
      CappedProduct(page, size);
    }
    hide *;
  }

  /** How many pages are yielded, from page 0. */
  lemma TotalRunLength<T>(list: seq<T>, size: int, maxPages: nat, pages: seq<seq<T>>)
    requires TotalRun(list, 0, size, maxPages, pages)
    ensures |pages| == Min(maxPages, TotalRequests(|list|, size))
  {
    var n := |pages|;
    var unit := if size > 0 then size else DEFAULT_SIZE;
    var extra := if size > 0 then 0 else 1;
    hide TotalStops;
    if n > 1 {
      assert !TotalStops(list, n - 2, size);
      if n > 2 {
        assert !TotalStops(list, n - 3, size);
      }
      TotalStopsIff(list, n - 2, size);
    }
    if n > 0 {
      TotalStopsIff(list, n - 1, size);
    }
    LengthFromStops(|list|, unit, extra, n, maxPages, n > 0 && TotalStops(list, n - 1, size));
  }

  /** The arithmetic: the first page at which at most `total` items are left behind. */
  lemma LengthFromStops(total: nat, unit: nat, extra: nat, n: nat, maxPages: nat, stops: bool)
    requires unit > 0 && extra <= 1 && n <= maxPages && (n < maxPages ==> n > 0 && stops)
    requires n > 1 ==> total > (n - 1 - extra) * unit
    requires n > 0 ==> (stops <==> total <= (n - extra) * unit)
    ensures n == Min(maxPages, PageCount(total, unit) + if total == 0 then 0 else extra)
  {
    var k := PageCount(total, unit) + if total == 0 then 0 else extra;
    CountBounds(total, unit);
    if n > k {
      if total > 0 {
        Times(k - extra, n - 1 - extra, unit);
      }
    } else if n < maxPages && n < k {
      assert total > 0 && n >= extra;
      Times(n - extra, PageCount(total, unit) - 1, unit);
    }
  }

  lemma CountBounds(total: nat, unit: nat)
    requires unit > 0
    ensures total <= PageCount(total, unit) * unit
    ensures total > 0 ==> total > (PageCount(total, unit) - 1) * unit
  {
    if total > 0 {
      var q, r := (total - 1) / unit, (total - 1) % unit;
      assert total - 1 == q * unit + r;
      assert (q + 1) * unit == q * unit + unit;
    }
  }

  /**
   From page 0, an iterator driven by the total yields a prefix of the list; all of it exactly when its pages,
   which the server caps, are enough to hold it.
   */
  lemma TotalRunYields<T>(list: seq<T>, size: int, maxPages: nat, pages: seq<seq<T>>)
    requires TotalRun(list, 0, size, maxPages, pages)
    ensures Flatten(pages) <= list
    ensures Flatten(pages) == list
            <==> |list| <= Min(maxPages, TotalRequests(|list|, size)) * Effective(size)
  {
    TotalRunLength(list, size, maxPages, pages);
    PagesArePrefix(list, size, |pages|);
    assert pages == Pages(list, 0, size, |pages|);
    hide *;
  }

  /** Within the cap, and with enough pages allowed, every item comes once, in order, in the fewest requests. */
  lemma TotalRunComplete<T>(list: seq<T>, size: int, maxPages: nat, pages: seq<seq<T>>)
    requires TotalRun(list, 0, size, maxPages, pages)
    requires 1 <= size <= MAX_SIZE && maxPages >= PageCount(|list|, size)
    ensures Flatten(pages) == list && |pages| == PageCount(|list|, size)
  {
    TotalRunLength(list, size, maxPages, pages);
    TotalRunYields(list, size, maxPages, pages);
    CountBounds(|list|, size);
    hide TotalRun, Flatten, PageCount;
  }

  /** Above the cap the total misleads the client: with sizes over 100 it can stop with items missing. */
  lemma CapTruncates<T>(list: seq<T>, size: int, maxPages: nat, pages: seq<seq<T>>)
    requires TotalRun(list, 0, size, maxPages, pages)
    requires size > MAX_SIZE && MAX_SIZE < |list| <= size
    ensures |Flatten(pages)| <= MAX_SIZE < |list|
  {
    TotalRunLength(list, size, maxPages, pages);
    PageCountIs(|list|, size, 1);
    PagesArePrefix(list, size, |pages|);
    assert pages == Pages(list, 0, size, |pages|);
    hide TotalRun, Flatten, PageCount, Pages;
    Times(|pages|, 1, Effective(size));
  }

  /**
   From page 0, the iterator that follows `hasMore` yields, for any size, a prefix of the list in the fewest
   pages of the capped size; all of it exactly when `maxPages` such pages are enough.
   */
  lemma MoreRunYields<T>(list: seq<T>, size: int, maxPages: nat, pages: seq<seq<T>>)
    requires MoreRun(list, 0, size, maxPages, pages)
    ensures |pages| == Min(maxPages, PageCount(|list|, Effective(size)))
    ensures Flatten(pages) <= list
    ensures Flatten(pages) == list <==> |list| <= maxPages * Effective(size)
  {
    MoreRunLength(list, size, maxPages, pages);
    PagesArePrefix(list, size, |pages|);
    Enough(|list|, Effective(size), maxPages);
    assert pages == Pages(list, 0, size, |pages|);
    hide *;
  }

  lemma MoreRunLength<T>(list: seq<T>, size: int, maxPages: nat, pages: seq<seq<T>>)
    requires MoreRun(list, 0, size, maxPages, pages)
    ensures |pages| == Min(maxPages, PageCount(|list|, Effective(size)))
  {
    var n, eff := |pages|, Effective(size);
    hide Effective;
    if n > 1 {
      assert More(list, n - 2, size);
    }
    LengthFromStops(|list|, eff, 0, n, maxPages, n > 0 && !More(list, n - 1, size));
  }

  lemma Enough(total: nat, unit: nat, maxPages: nat)
    requires unit > 0
    ensures total <= Min(maxPages, PageCount(total, unit)) * unit <==> total <= maxPages * unit
  {
    CountBounds(total, unit);
    if maxPages > PageCount(total, unit) {
      Times(PageCount(total, unit), maxPages, unit);
    }
  }
}
