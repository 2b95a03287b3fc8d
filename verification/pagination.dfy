/**
 * The client-side pager of hooks/use-pagination.ts: a current page and a
 * page size over a list whose length `totalItems` the caller supplies on
 * every render.
 */
module Pagination {
  import C = Constants

  function Max(a: int, b: int): int { if a < b then b else a }
  function Min(a: int, b: int): int { if a < b then a else b }

  /** `Math.ceil(totalItems / pageSize)`. */
  function TotalPages(totalItems: nat, pageSize: int): (r: nat)
    requires pageSize > 0
    ensures totalItems <= r * pageSize
    ensures r > 0 ==> (r - 1) * pageSize < totalItems
    ensures r == 0 <==> totalItems == 0
  {
    var r := (totalItems + pageSize - 1) / pageSize;
    assert r * pageSize <= totalItems + pageSize - 1 < r * pageSize + pageSize;
    r
  }

  datatype Pager = Pager(currentPage: int, pageSize: int)

  /** The state on mount: `initialPage` defaults to 1, `initialPageSize` to the default page size. */
  function Init(initialPage: int := 1, initialPageSize: int := C.DefaultPageSize): (r: Pager)
    ensures r.currentPage == initialPage && r.pageSize == initialPageSize
  {
    Pager(initialPage, initialPageSize)
  }

  /** The page lies in `[1, totalPages]`, or is 1 when there are no pages. */
  predicate InRange(p: Pager, totalItems: nat)
    requires p.pageSize > 0
  {
    1 <= p.currentPage <= Max(1, TotalPages(totalItems, p.pageSize))
  }

  /** `goToPage(n)`: clamps `n` into the available pages. */
  function GoToPage(p: Pager, totalItems: nat, n: int): (r: Pager)
    requires p.pageSize > 0
    ensures r.pageSize == p.pageSize
    ensures var tp := TotalPages(totalItems, p.pageSize);
      && (tp >= 1 ==> 1 <= r.currentPage <= tp)
      && (tp == 0 ==> r.currentPage == 1)
      && (1 <= n <= tp ==> r.currentPage == n)
      && (n < 1 ==> r.currentPage == 1)
      && (tp >= 1 && n > tp ==> r.currentPage == tp)
  {
    p.(currentPage := Max(1, Min(n, TotalPages(totalItems, p.pageSize))))
  }

  /** `goToNextPage`: moves forward only while a next page exists. */
  function GoToNextPage(p: Pager, totalItems: nat): (r: Pager)
    requires p.pageSize > 0
    ensures r.pageSize == p.pageSize
    ensures p.currentPage < TotalPages(totalItems, p.pageSize) ==> r.currentPage == p.currentPage + 1
    ensures p.currentPage >= TotalPages(totalItems, p.pageSize) ==> r == p
  {
    if p.currentPage < TotalPages(totalItems, p.pageSize) then p.(currentPage := p.currentPage + 1) else p
  }

  /** `goToPreviousPage`: moves back only from a page after the first. */
  function GoToPreviousPage(p: Pager): (r: Pager)
    ensures r.pageSize == p.pageSize
    ensures p.currentPage > 1 ==> r.currentPage == p.currentPage - 1
    ensures p.currentPage <= 1 ==> r == p
    ensures p.currentPage >= 1 ==> r.currentPage >= 1
  {
    if p.currentPage > 1 then p.(currentPage := p.currentPage - 1) else p
  }

  /** `changePageSize(s)`: adopts the new size and always returns to the first page. */
  function ChangePageSize(p: Pager, newPageSize: int): (r: Pager)
    ensures r.pageSize == newPageSize && r.currentPage == 1
  {
    Pager(1, newPageSize)
  }

  /** The raw `setCurrentPage` the hook also returns: no clamping at all. */
  function SetCurrentPage(p: Pager, n: int): (r: Pager)
    ensures r.currentPage == n && r.pageSize == p.pageSize
  {
    p.(currentPage := n)
  }

  /** Every navigation operation except the raw setter keeps the page in range. */
  lemma NavigationKeepsRange(p: Pager, totalItems: nat, n: int, newPageSize: int)
    requires p.pageSize > 0 && newPageSize > 0
    requires InRange(p, totalItems)
    ensures InRange(GoToPage(p, totalItems, n), totalItems)
    ensures InRange(GoToNextPage(p, totalItems), totalItems)
    ensures InRange(GoToPreviousPage(p), totalItems)
    ensures InRange(ChangePageSize(p, newPageSize), totalItems)
  {
  }

  /** The raw setter can leave the range, on both sides. */
  lemma SetCurrentPageEscapes()
    ensures var p := Pager(1, 10);
      InRange(p, 25) && !InRange(SetCurrentPage(p, 0), 25) && !InRange(SetCurrentPage(p, 4), 25)
  {
  }

  /** The object the hook returns besides its actions. */
  datatype Info = Info(
    currentPage: int,
    totalPages: nat,
    pageSize: int,
    totalItems: nat,
    startIndex: int,
    endIndex: int,
    hasNextPage: bool,
    hasPreviousPage: bool)

  /** `paginationInfo`: the 1-based window `[startIndex, endIndex]` and the navigation flags. */
  function InfoOf(p: Pager, totalItems: nat): (r: Info)
    requires p.pageSize > 0
    ensures r.totalPages == TotalPages(totalItems, p.pageSize)
    ensures r.hasNextPage <==> p.currentPage < r.totalPages
    ensures r.hasPreviousPage <==> p.currentPage > 1
    ensures r.startIndex == (p.currentPage - 1) * p.pageSize + 1
    ensures r.endIndex <= totalItems
    ensures r.endIndex - r.startIndex + 1 <= p.pageSize
    ensures r.endIndex == totalItems || r.endIndex - r.startIndex + 1 == p.pageSize
  {
    var start := (p.currentPage - 1) * p.pageSize;
    Info(p.currentPage, TotalPages(totalItems, p.pageSize), p.pageSize, totalItems,
         start + 1, Min(start + p.pageSize, totalItems),
         p.currentPage < TotalPages(totalItems, p.pageSize), p.currentPage > 1)
  }

  /**
   * On a non-empty list and a page in range the window is non-empty and lies
   * inside the list; it is full except on the last page.
   */
  lemma WindowInsideList(p: Pager, totalItems: nat)
    requires p.pageSize > 0 && totalItems > 0 && InRange(p, totalItems)
    ensures var i := InfoOf(p, totalItems);
      && 1 <= i.startIndex <= i.endIndex <= totalItems
      && (p.currentPage < i.totalPages ==> i.endIndex - i.startIndex + 1 == p.pageSize)
  {
    var tp := TotalPages(totalItems, p.pageSize);
    var k := p.currentPage - 1;
    assert 0 <= k < tp;
    assert k * p.pageSize <= (tp - 1) * p.pageSize by {
      assert k <= tp - 1;
    }
    if p.currentPage < tp {
      assert (k + 1) * p.pageSize <= (tp - 1) * p.pageSize by {
        assert k + 1 <= tp - 1;
      }
    }
  }

  /** The windows of consecutive pages are adjacent: they tile the list. */
  lemma WindowsAdjacent(p: Pager, totalItems: nat)
    requires p.pageSize > 0 && totalItems > 0 && InRange(p, totalItems)
    requires p.currentPage < TotalPages(totalItems, p.pageSize)
    ensures InfoOf(p, totalItems).endIndex + 1 == InfoOf(GoToNextPage(p, totalItems), totalItems).startIndex
  {
    WindowInsideList(p, totalItems);
    assert p.currentPage * p.pageSize == (p.currentPage - 1) * p.pageSize + p.pageSize;
  }

  /** The last page's window ends at the last item, so the windows of pages `1..totalPages` tile the list. */
  lemma LastWindowEndsAtTotal(p: Pager, totalItems: nat)
    requires p.pageSize > 0 && totalItems > 0
    requires p.currentPage == TotalPages(totalItems, p.pageSize)
    ensures InfoOf(p, totalItems).endIndex == totalItems
    ensures InfoOf(p, totalItems).startIndex <= totalItems
  {
    var tp := TotalPages(totalItems, p.pageSize);
    assert (tp - 1) * p.pageSize + p.pageSize == tp * p.pageSize;
  }
}
