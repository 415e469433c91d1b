/** Client-side pagination (src/lib/hooks/use-pagination.ts): two state cells,
    the current page (1-based) and the page size, and `paginate`, which cuts
    the page out of a list with JavaScript's `Array.prototype.slice`. */
module Pagination {
  import opened Basics

  const DefaultPage: int := 1
  const DefaultPageSize: int := 10

  /** Where `slice` starts or stops for an index: a negative index counts
      from the end, and both are clamped to [0, n]. */
  function SliceIndex(k: int, n: nat): (i: nat)
    ensures i <= n
    ensures k >= 0 ==> i == if k < n then k else n
    ensures k < 0 ==> i == if n + k > 0 then n + k else 0
  {
    if k < 0 then (if n + k > 0 then n + k else 0)
    else if k < n then k else n
  }

  /** `items.slice(start, end)`. */
  function JsSlice<T>(items: seq<T>, start: int, end: int): (r: seq<T>)
    ensures |r| <= |items|
  {
    var from, to := SliceIndex(start, |items|), SliceIndex(end, |items|);
    if from < to then items[from..to] else []
  }

  /** `paginate(items)` with the cells at `page` and `size`. */
  function PageOf<T>(items: seq<T>, page: int, size: int): (r: seq<T>)
    ensures |r| <= |items|
    ensures size == 0 ==> r == []
  {
    var start := (page - 1) * size;
    JsSlice(items, start, start + size)
  }

  /** The two state cells of the hook. */
  class Paginator {
    var page: int
    var pageSize: int

    /** Options left out fall back to page 1 and 10 items per page. */
    constructor (initialPage: Option<int>, initialPageSize: Option<int>)
      ensures page == if initialPage.Some? then initialPage.value else DefaultPage
      ensures pageSize == if initialPageSize.Some? then initialPageSize.value else DefaultPageSize
    {
      page := if initialPage.Some? then initialPage.value else DefaultPage;
      pageSize := if initialPageSize.Some? then initialPageSize.value else DefaultPageSize;
    }

    /** `setPage`: stores the page as given. */
    method SetPage(p: int)
      modifies this
      ensures page == p && pageSize == old(pageSize)
    {
      page := p;
    }

    /** `setPageSize`: stores the size as given; the page is kept. */
    method SetPageSize(s: int)
      modifies this
      ensures pageSize == s && page == old(page)
    {
      pageSize := s;
    }

    /** `paginate`: the current page of `items`. The input is not touched. */
    function Paginate<T>(items: seq<T>): (r: seq<T>)
      reads this
      ensures r == PageOf(items, page, pageSize)
      ensures page >= 1 && pageSize >= 0 ==> |r| <= pageSize
    {
      PageLength(items, page, pageSize);
      PageOf(items, page, pageSize)
    }
  }

  // ---------------------------------------------------------------------
  // Lemmas

  /** A window of `size` items from a non-negative `start`, cut off at the
      end of the list. */
  lemma Window<T>(items: seq<T>, start: int, size: int)
    requires start >= 0 && size >= 0
    ensures var n := |items|;
      var from, to := if start < n then start else n, if start + size < n then start + size else n;
      from <= to && JsSlice(items, start, start + size) == items[from..to]
  {
  }

  /** The start of the next page is one page further on; a step of the
      proofs of `ConsecutivePages`, `PageLength`, `NonPositivePages` and
      `PagesPrefix`. */
  lemma NextStart(page: int, size: int)
    ensures (page - 1) * size + size == page * size
  {
  }

  /** Two consecutive pages laid end to end are the two-page window that
      starts where the first of them starts. */
  lemma ConsecutivePages<T>(items: seq<T>, page: int, size: int)
    requires page >= 1 && size >= 0
    ensures PageOf(items, page, size) + PageOf(items, page + 1, size) == JsSlice(items, (page - 1) * size, (page + 1) * size)
  {
    var n, start := |items|, (page - 1) * size;
    NextStart(page, size);
    NextStart(page + 1, size);
    PageWindow(items, page, size);
    PageWindow(items, page + 1, size);
    MulMonotone(size, 0, page - 1);
    Window(items, start, size + size);
    var a := if start < n then start else n;
    var b := if start + size < n then start + size else n;
    var c := if start + size + size < n then start + size + size else n;
    assert items[a..b] + items[b..c] == items[a..c];
  }

  /** For page >= 1 and a non-negative size, the page is the window
      [(page-1)*size, page*size) of the list, cut off at its end. */
  lemma PageWindow<T>(items: seq<T>, page: int, size: int)
    requires page >= 1 && size >= 0
    ensures var n, start := |items|, (page - 1) * size;
      var from, to := if start < n then start else n, if start + size < n then start + size else n;
      PageOf(items, page, size) == items[from..to]
  {
    MulMonotone(size, 0, page - 1);
    Window(items, (page - 1) * size, size);
  }

  /** A page never holds more than the page size, and holds exactly that
      many when the list reaches the end of the page. */
  lemma PageLength<T>(items: seq<T>, page: int, size: int)
    ensures page >= 1 && size >= 0 ==> |PageOf(items, page, size)| <= size
    ensures page >= 1 && size >= 0 && page * size <= |items| ==> |PageOf(items, page, size)| == size
  {
    if page >= 1 && size >= 0 {
      var start := (page - 1) * size;
      PageWindow(items, page, size);
      NextStart(page, size);
      WindowLength(|items|, start, size);
    }
  }

  /** How long a window cut off at n is. */
  lemma WindowLength(n: nat, start: int, size: int)
    requires size >= 0
    ensures var from, to := if start < n then start else n, if start + size < n then start + size else n;
      to - from <= size && (0 <= start && start + size <= n ==> to - from == size)
  {
  }

  /** A page that starts at or beyond the end of the list is empty. */
  lemma PastTheEnd<T>(items: seq<T>, page: int, size: int)
    requires page >= 1 && size >= 0
    requires (page - 1) * size >= |items|
    ensures PageOf(items, page, size) == []
  {
    PageWindow(items, page, size);
  }

  /** Page 0 is always empty; a negative page counts back from the end of
      the list and returns a window of its tail. */
  lemma NonPositivePages<T>(items: seq<T>, page: int, size: int)
    requires page <= 0 && size >= 0
    ensures page == 0 ==> PageOf(items, page, size) == []
    ensures var n, end := |items|, page * size;
      page < 0 && size > 0 ==>
        (end + n > 0 ==> PageOf(items, page, size) == items[SliceIndex(end - size, n)..n + end]) &&
        (end + n <= 0 ==> PageOf(items, page, size) == [])
  {
    var start := (page - 1) * size;
    NextStart(page, size);
    MulMonotone(size, page, 0);
  }

  /** A negative page size is not rejected: page 1 with size -1 asks for
      `slice(0, -1)`, which is the whole list but its last item. */
  lemma NegativeSizeDropsLast()
    ensures PageOf([10, 20, 30], 1, -1) == [10, 20]
  {
    assert [10, 20, 30][0..2] == [10, 20];
  }

  /** Pages 1..k laid end to end. */
  function Pages<T>(items: seq<T>, size: int, k: nat): seq<T>
  {
    if k == 0 then [] else Pages(items, size, k - 1) + PageOf(items, k, size)
  }

  /** The first k pages are the first k*size items (or all of them). */
  lemma {:induction false} PagesPrefix<T>(items: seq<T>, size: int, k: nat)
    requires size > 0
    ensures Pages(items, size, k) == items[..if k * size < |items| then k * size else |items|]
  {
    if k > 0 {
      var n := |items|;
      var lo := (k - 1) * size;
      var hi := k * size;
      NextStart(k, size);
      PagesPrefix(items, size, k - 1);
      PageWindow(items, k, size);
      var a := if lo < n then lo else n;
      var b := if hi < n then hi else n;
      MulMonotone(size, 0, k - 1);
      PrefixThenSlice(items, a, b);
    }
  }

  /** A prefix followed by the slice after it is the longer prefix; a step
      of the proof of `PagesPrefix`. */
  lemma PrefixThenSlice<T>(items: seq<T>, a: int, b: int)
    requires 0 <= a <= b <= |items|
    ensures items[..a] + items[a..b] == items[..b]
  {
  }

  /** Whole-number division brackets its dividend; `PagesCoverList` uses it
      to show that ceil(n / size) pages reach the end of the list. */
  lemma DivBracket(x: int, d: int)
    requires d > 0
    ensures d * (x / d) <= x < d * (x / d) + d
  {
  }

  /** With a positive page size, pages 1 to ceil(n / size) together give the
      whole list back, in order. */
  lemma PagesCoverList<T>(items: seq<T>, size: int)
    requires size > 0
    ensures Pages(items, size, (|items| + size - 1) / size) == items
  {
    var n := |items|;
    var k := (n + size - 1) / size;
    DivBracket(n + size - 1, size);
    assert k * size >= n;
    PagesPrefix(items, size, k);
  }
}
