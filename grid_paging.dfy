/**
 * Client-side paging of the grid view: the ordered item list built from the
 * host's record snapshot, the page count, the page-clamp effect, the page
 * window and the paging footer's buttons and page-size dropdown.
 *
 * The view's two React state cells (`currentPage`, `pageSize`) are the
 * `Pager` record; every handler replaces it with a new value, as `setState`
 * does.
 */
module GridPaging {
  import opened DataSetApi

  /** The rows-per-page dropdown offers exactly these sizes. */
  const PageSizeOptions: seq<int> := [10, 25, 50, 100]
  const InitialPageSize: int := 10

  function Min(a: int, b: int): int { if a <= b then a else b }
  function Max(a: int, b: int): int { if a >= b then a else b }

  // ---------------------------------------------------------------------------
  // Items

  /**
   * The grid's item list: one entry per id of the sorted id list, in that
   * order, holding the record stored under that id (`None` where the record
   * map has no such id, as JavaScript's `records[id]` yields `undefined`).
   */
  function Items(sortedRecordIds: seq<string>, records: map<string, EntityRecord>): (items: seq<Option<EntityRecord>>)
    ensures |items| == |sortedRecordIds|
    ensures forall i :: 0 <= i < |items| ==> items[i] == Lookup(records, sortedRecordIds[i])
  {
    if sortedRecordIds == [] then []
    else [Lookup(records, sortedRecordIds[0])] + Items(sortedRecordIds[1..], records)
  }

  /** When every id is a key of the record map, every item is that id's record. */
  lemma ItemsOfConsistentSnapshot(sortedRecordIds: seq<string>, records: map<string, EntityRecord>)
    requires forall id :: id in sortedRecordIds ==> id in records
    ensures forall i :: 0 <= i < |sortedRecordIds| ==>
      Items(sortedRecordIds, records)[i] == Some(records[sortedRecordIds[i]])
  {
  }

  // ---------------------------------------------------------------------------
  // Page count

  /**
   * `Math.ceil(n / pageSize)`: the least number of pages of `pageSize` rows
   * that holds `n` rows; no pages at all for an empty list.
   */
  function TotalPages(n: nat, pageSize: int): (pages: nat)
    requires pageSize > 0
    ensures pages == 0 <==> n == 0
    ensures pages > 0 ==> (pages - 1) * pageSize < n <= pages * pageSize
  {
    var q := (n + pageSize - 1) / pageSize;
    var r := (n + pageSize - 1) % pageSize;
    assert n + pageSize - 1 == q * pageSize + r && 0 <= r < pageSize;
    assert (q - 1) * pageSize == q * pageSize - pageSize;
    q
  }

  // ---------------------------------------------------------------------------
  // JavaScript's Array.prototype.slice

  /** Index normalisation of `slice`: a negative index counts from the end; then clamp to [0, len]. */
  function SliceIndex(k: int, len: nat): (r: nat)
    ensures r <= len
    ensures 0 <= k <= len ==> r == k
    ensures k < 0 <= len + k ==> r == len + k
    ensures len + k <= 0 ==> r == 0
    ensures len <= k ==> r == len
  {
    if k < 0 then Max(len + k, 0) else Min(k, len)
  }

  /** `xs.slice(start, end)`. */
  function Slice<T>(xs: seq<T>, start: int, end: int): (r: seq<T>)
    ensures |r| <= |xs|
    ensures 0 <= start <= end ==> r == xs[Min(start, |xs|)..Min(end, |xs|)]
    ensures 0 <= end <= start ==> r == []
  {
    var from, to := SliceIndex(start, |xs|), SliceIndex(end, |xs|);
    if from <= to then xs[from..to] else []
  }

  // ---------------------------------------------------------------------------
  // Pager state

  /** The view's `currentPage` and `pageSize` state cells. */
  datatype Pager = Pager(currentPage: int, pageSize: int)

  /** `useState(1)` and `useState(10)`. */
  const InitialPager: Pager := Pager(1, InitialPageSize)

  /**
   * What every reachable pager satisfies: a size the dropdown offers, and a
   * page that is never negative (it can be 0, see `Clamp`).
   */
  predicate ValidPager(s: Pager)
  {
    s.pageSize in PageSizeOptions && s.currentPage >= 0
  }

  /** A page that actually exists for `n` items. */
  predicate OnExistingPage(s: Pager, n: nat)
    requires s.pageSize > 0
  {
    1 <= s.currentPage <= TotalPages(n, s.pageSize)
  }

  lemma MulMonotone(a: int, b: int, s: int)
    requires a <= b && s >= 0
    ensures a * s <= b * s
  {
    assert b * s - a * s == (b - a) * s;
  }

  /**
   * `items.slice((currentPage - 1) * pageSize, currentPage * pageSize)`.
   * On a page numbered 1 or more, this is the contiguous run of items from
   * `(page - 1) * pageSize` up to `page * pageSize`, cut at the end of the
   * list.
   */
  function PageWindow<T>(items: seq<T>, s: Pager): (window: seq<T>)
    requires s.pageSize > 0
    ensures s.currentPage >= 1 ==>
      Min((s.currentPage - 1) * s.pageSize, |items|) <= Min(s.currentPage * s.pageSize, |items|)
    ensures s.currentPage >= 1 ==>
      window == items[Min((s.currentPage - 1) * s.pageSize, |items|) .. Min(s.currentPage * s.pageSize, |items|)]
  {
    var a, b := (s.currentPage - 1) * s.pageSize, s.currentPage * s.pageSize;
    assert b == a + s.pageSize;
    if s.currentPage >= 1 then
      MulMonotone(0, s.currentPage - 1, s.pageSize);
      assert 0 <= a <= b;
      assert Slice(items, a, b) == items[Min(a, |items|)..Min(b, |items|)];
      Slice(items, a, b)
    else
      Slice(items, a, b)
  }

  /** Whatever the page, even 0 or a negative one, the window never exceeds the page size. */
  lemma WindowAtMostPageSize<T>(items: seq<T>, s: Pager)
    requires s.pageSize > 0
    ensures |PageWindow(items, s)| <= s.pageSize
  {
    var a, b := (s.currentPage - 1) * s.pageSize, s.currentPage * s.pageSize;
    assert b == a + s.pageSize;
    if s.currentPage >= 1 {
    } else {
      MulMonotone(s.currentPage, 0, s.pageSize);
      assert b <= 0;
    }
  }

  /** Page 0, which the clamp produces for an empty list, shows no rows, whatever the items. */
  lemma WindowOfPageZero<T>(items: seq<T>, size: int)
    requires size > 0
    ensures PageWindow(items, Pager(0, size)) == []
  {
    assert (0 - 1) * size == -size;
  }

  /**
   * Every page that exists shows at least one row, its first row being the
   * item at `(page - 1) * pageSize`, and the window is exactly
   * `items[(page - 1) * pageSize .. min(page * pageSize, n)]`.
   */
  lemma WindowOfExistingPage<T>(items: seq<T>, s: Pager)
    requires s.pageSize > 0 && OnExistingPage(s, |items|)
    ensures (s.currentPage - 1) * s.pageSize < |items|
    ensures PageWindow(items, s) == items[(s.currentPage - 1) * s.pageSize .. Min(s.currentPage * s.pageSize, |items|)]
    ensures 0 < |PageWindow(items, s)| <= s.pageSize
    ensures PageWindow(items, s)[0] == items[(s.currentPage - 1) * s.pageSize]
  {
    var t := TotalPages(|items|, s.pageSize);
    var a, b := (s.currentPage - 1) * s.pageSize, s.currentPage * s.pageSize;
    MulMonotone(s.currentPage - 1, t - 1, s.pageSize);
    assert a < |items| && b == a + s.pageSize;
    assert PageWindow(items, s) == items[a..Min(b, |items|)];
    WindowAtMostPageSize(items, s);
  }

  /** A page past the last shows no rows: this is what the clamp effect repairs. */
  lemma WindowPastLastPage<T>(items: seq<T>, s: Pager)
    requires s.pageSize > 0 && s.currentPage > TotalPages(|items|, s.pageSize)
    ensures PageWindow(items, s) == []
  {
    var t := TotalPages(|items|, s.pageSize);
    MulMonotone(t, s.currentPage - 1, s.pageSize);
    assert |items| <= t * s.pageSize;
  }

  /** Pages 1 to k, read one after another. */
  function PagesUpTo<T>(items: seq<T>, size: int, k: nat): seq<T>
    requires size > 0
  {
    if k == 0 then [] else PagesUpTo(items, size, k - 1) + PageWindow(items, Pager(k, size))
  }

  /** Appending page k to the first k - 1 pages extends the prefix by that page. */
  lemma PrefixThenWindow<T>(items: seq<T>, size: int, k: int)
    requires size > 0 && k >= 1
    ensures items[..Min((k - 1) * size, |items|)] + PageWindow(items, Pager(k, size)) ==
      items[..Min(k * size, |items|)]
  {
    var a, b := Min((k - 1) * size, |items|), Min(k * size, |items|);
    assert a <= b && PageWindow(items, Pager(k, size)) == items[a..b];
    assert items[..a] + items[a..b] == items[..b];
  }

  lemma {:induction false} PagesUpToIsPrefix<T>(items: seq<T>, size: int, k: nat)
    requires size > 0
    ensures PagesUpTo(items, size, k) == items[..Min(k * size, |items|)]
  {
    if k > 0 {
      PagesUpToIsPrefix(items, size, k - 1);
      PrefixThenWindow(items, size, k);
    }
  }

  /** The pages 1 to totalPages, read in order, are the whole item list: no row is lost or repeated. */
  lemma PagesCoverItems<T>(items: seq<T>, size: int)
    requires size > 0
    ensures PagesUpTo(items, size, TotalPages(|items|, size)) == items
  {
    var t := TotalPages(|items|, size);
    PagesUpToIsPrefix(items, size, t);
    assert Min(t * size, |items|) == |items|;
  }

  // ---------------------------------------------------------------------------
  // The clamp effect

  /**
   * The effect run after the items or the page size change: a page past the
   * last is lowered to the last page. Nothing else is done, so an empty list
   * sets the page to 0, and a page of 0 or less is left as it is.
   */
  function Clamp(s: Pager, n: nat): (r: Pager)
    requires s.pageSize > 0
    ensures r.pageSize == s.pageSize
    ensures r.currentPage == Min(s.currentPage, TotalPages(n, s.pageSize))
    ensures s.currentPage <= TotalPages(n, s.pageSize) ==> r == s
  {
    var totalPages := TotalPages(n, s.pageSize);
    if s.currentPage > totalPages then s.(currentPage := totalPages) else s
  }

  /** From a page of 1 or more, the clamp lands on an existing page or, for no items, on page 0. */
  lemma ClampFromPositivePage(s: Pager, n: nat)
    requires s.pageSize > 0 && s.currentPage >= 1
    ensures n > 0 ==> OnExistingPage(Clamp(s, n), n)
    ensures n == 0 ==> Clamp(s, n).currentPage == 0
  {
  }

  /** Example: 12 items at 10 per page make 2 pages, and page 3 is clamped to page 2. */
  lemma ClampExample()
    ensures TotalPages(12, 10) == 2
    ensures Clamp(Pager(3, 10), 12) == Pager(2, 10)
  {
  }

  /**
   * As written, the clamp never raises the page: once an empty list has set
   * it to 0, items that arrive later leave it at 0 and the grid shows no row
   * although there are rows to show.
   */
  lemma ClampLeavesPageZero<T>(items: seq<T>)
    requires |items| > 0
    ensures Clamp(InitialPager, 0).currentPage == 0
    ensures Clamp(Clamp(InitialPager, 0), |items|).currentPage == 0
    ensures PageWindow(items, Clamp(Clamp(InitialPager, 0), |items|)) == []
  {
    WindowOfPageZero(items, InitialPageSize);
  }

  /**
   * The clamp as intended: the page is kept within 1 and the last page (page 1
   * when there are no items).
   */
  function ClampToRange(s: Pager, n: nat): (r: Pager)
    requires s.pageSize > 0
    ensures r.pageSize == s.pageSize
    ensures 1 <= r.currentPage <= Max(1, TotalPages(n, s.pageSize))
    ensures 1 <= s.currentPage <= Max(1, TotalPages(n, s.pageSize)) ==> r == s
  {
    var last := Max(1, TotalPages(n, s.pageSize));
    if s.currentPage > last then s.(currentPage := last)
    else if s.currentPage < 1 then s.(currentPage := 1)
    else s
  }

  /** With the intended clamp, any non-empty list shows rows after the effect, whatever the page was. */
  lemma ClampToRangeShowsRows<T>(items: seq<T>, s: Pager)
    requires s.pageSize > 0 && |items| > 0
    ensures OnExistingPage(ClampToRange(s, |items|), |items|)
    ensures |PageWindow(items, ClampToRange(s, |items|))| > 0
  {
    WindowOfExistingPage(items, ClampToRange(s, |items|));
  }

  // ---------------------------------------------------------------------------
  // Footer buttons and the page-size dropdown

  /** "First": go to page 1. */
  function FirstPage(s: Pager): (r: Pager)
    ensures r.currentPage == 1 && r.pageSize == s.pageSize
  {
    s.(currentPage := 1)
  }

  /** "Previous": one page back, never below page 1. */
  function PreviousPage(s: Pager): (r: Pager)
    ensures r.pageSize == s.pageSize
    ensures r.currentPage >= 1
    ensures s.currentPage > 1 ==> r.currentPage == s.currentPage - 1
    ensures s.currentPage <= 1 ==> r.currentPage == 1
  {
    s.(currentPage := Max(1, s.currentPage - 1))
  }

  /** "Next": one page on, never past the last page. */
  function NextPage(s: Pager, n: nat): (r: Pager)
    requires s.pageSize > 0
    ensures r.pageSize == s.pageSize
    ensures r.currentPage <= TotalPages(n, s.pageSize)
    ensures s.currentPage < TotalPages(n, s.pageSize) ==> r.currentPage == s.currentPage + 1
    ensures s.currentPage >= TotalPages(n, s.pageSize) ==> r.currentPage == TotalPages(n, s.pageSize)
  {
    s.(currentPage := Min(TotalPages(n, s.pageSize), s.currentPage + 1))
  }

  /** "Last": go to the last page (page 0 when there are no items). */
  function LastPage(s: Pager, n: nat): (r: Pager)
    requires s.pageSize > 0
    ensures r.pageSize == s.pageSize
    ensures r.currentPage == TotalPages(n, s.pageSize)
  {
    s.(currentPage := TotalPages(n, s.pageSize))
  }

  /**
   * "First" and "Previous" are disabled on page 1, which is exactly when
   * pressing either would change nothing.
   */
  predicate BackButtonsDisabled(s: Pager)
    ensures BackButtonsDisabled(s) <==> FirstPage(s) == s
    ensures BackButtonsDisabled(s) <==> PreviousPage(s) == s
  {
    s.currentPage == 1
  }

  /**
   * "Next" and "Last" are disabled on the last page, which is exactly when
   * pressing either would change nothing.
   */
  predicate ForwardButtonsDisabled(s: Pager, n: nat)
    requires s.pageSize > 0
    ensures ForwardButtonsDisabled(s, n) <==> NextPage(s, n) == s
    ensures ForwardButtonsDisabled(s, n) <==> LastPage(s, n) == s
  {
    s.currentPage == TotalPages(n, s.pageSize)
  }

  /** Choosing a size from the dropdown stores it and goes back to page 1. */
  function ChangePageSize(s: Pager, size: int): (r: Pager)
    requires size in PageSizeOptions
    ensures ValidPager(r) && r.currentPage == 1 && r.pageSize == size
  {
    Pager(1, size)
  }

  /** After a page-size change the window is the first `size` items. */
  lemma PageSizeChangeShowsFirstRows<T>(items: seq<T>, s: Pager, size: int)
    requires size in PageSizeOptions
    ensures PageWindow(items, ChangePageSize(s, size)) == items[..Min(size, |items|)]
  {
  }

  /** From an existing page every button leads to an existing page. */
  lemma NavigationStaysOnExistingPages(s: Pager, n: nat)
    requires s.pageSize > 0 && OnExistingPage(s, n)
    ensures OnExistingPage(FirstPage(s), n)
    ensures OnExistingPage(PreviousPage(s), n)
    ensures OnExistingPage(NextPage(s, n), n)
    ensures OnExistingPage(LastPage(s, n), n)
  {
  }

  /**
   * Page 0 with items, at any dropdown size, is not a dead end: all four
   * footer buttons are enabled and each leads to an existing page ("First",
   * "Previous" and "Next" to page 1), and a page-size change followed by the
   * clamp leads to page 1 too.
   */
  lemma PageZeroRecovery(n: nat, current: int, size: int)
    requires n > 0 && current in PageSizeOptions && size in PageSizeOptions
    ensures var s := Pager(0, current);
      && !BackButtonsDisabled(s) && !ForwardButtonsDisabled(s, n)
      && FirstPage(s).currentPage == 1 && OnExistingPage(FirstPage(s), n)
      && PreviousPage(s).currentPage == 1 && OnExistingPage(PreviousPage(s), n)
      && NextPage(s, n).currentPage == 1 && OnExistingPage(NextPage(s, n), n)
      && OnExistingPage(LastPage(s, n), n)
      && Clamp(ChangePageSize(s, size), n).currentPage == 1
  {
  }

  /** Every handler and the clamp effect keep the pager valid, starting from the initial one. */
  lemma TransitionsKeepPagerValid(s: Pager, n: nat, size: int)
    requires ValidPager(s) && size in PageSizeOptions
    ensures ValidPager(InitialPager)
    ensures ValidPager(FirstPage(s)) && ValidPager(PreviousPage(s))
    ensures ValidPager(NextPage(s, n)) && ValidPager(LastPage(s, n))
    ensures ValidPager(Clamp(s, n)) && ValidPager(ChangePageSize(s, size))
  {
  }
}
