/** The page window of `usePagination` and the pagination bookkeeping of the
    products table (`Table.tsx`). Pages are 1-based; the table's page index
    is 0-based. */
module Pagination {
  import opened Wrappers

  /** The table's pagination state. */
  datatype Paging = Paging(pageIndex: int, pageSize: int)

  /** The page size a session starts with. */
  const DefaultPageSize: int := 25

  function Min(a: int, b: int): int { if a <= b then a else b }
  function Max(a: int, b: int): int { if a >= b then a else b }

  /** The ascending run lo, lo+1, ..., hi (empty when hi < lo), as built by
      `Array.from({ length: hi - lo + 1 }, ...)`, whose length clamps at 0. */
  function Range(lo: int, hi: int): (r: seq<int>)
    ensures |r| == Max(0, hi - lo + 1)
    ensures forall i :: 0 <= i < |r| ==> r[i] == lo + i
  {
    if hi < lo then [] else seq(hi - lo + 1, i requires 0 <= i < hi - lo + 1 => lo + i)
  }

  /** `currentPage - 1 > itemsToDisplay / 2`, the division being exact. */
  predicate ShowLeftEllipsis(currentPage: int, itemsToDisplay: int) {
    2 * (currentPage - 1) > itemsToDisplay
  }

  /** `totalPages - currentPage + 1 > itemsToDisplay / 2`, the division being exact. */
  predicate ShowRightEllipsis(currentPage: int, totalPages: int, itemsToDisplay: int) {
    2 * (totalPages - currentPage + 1) > itemsToDisplay
  }

  /** A window of pages, first and last inclusive. */
  datatype Window = Window(start: int, end: int)

  /** The window centred on the current page and clamped to the page range,
      before room is made for the ellipses. It is only computed when the pages
      do not all fit. A window touching page 1 ends at `itemsToDisplay`; one
      touching the last page starts `itemsToDisplay - 1` pages before it. */
  function CenteredWindow(currentPage: int, totalPages: int, itemsToDisplay: int): (w: Window)
    requires totalPages > itemsToDisplay
    ensures 1 <= w.start && w.end <= totalPages
    ensures w.start == 1 ==> w.end == itemsToDisplay
    ensures w.end == totalPages ==> w.start == totalPages - itemsToDisplay + 1
  {
    var half := itemsToDisplay / 2;
    var start0 := Max(1, currentPage - half);
    var end0 := Min(totalPages, currentPage + half);
    var end1 := if start0 == 1 then itemsToDisplay else end0;
    var start1 := if end1 == totalPages then totalPages - itemsToDisplay + 1 else start0;
    Window(start1, end1)
  }

  /** The result of `usePagination`. */
  datatype PageList = PageList(pages: seq<int>, showLeftEllipsis: bool, showRightEllipsis: bool)

  /** `usePagination`: all pages when they fit, otherwise the centred window
      with one page given up on each side that shows an ellipsis. */
  function UsePagination(currentPage: int, totalPages: int, itemsToDisplay: int): (r: PageList)
    ensures r.showLeftEllipsis <==> 2 * (currentPage - 1) > itemsToDisplay
    ensures r.showRightEllipsis <==> 2 * (totalPages - currentPage + 1) > itemsToDisplay
    ensures totalPages <= itemsToDisplay ==> r.pages == Range(1, totalPages)
    ensures totalPages > itemsToDisplay ==>
      var w := CenteredWindow(currentPage, totalPages, itemsToDisplay);
      r.pages == Range(if r.showLeftEllipsis then w.start + 1 else w.start,
                       if r.showRightEllipsis then w.end - 1 else w.end)
    ensures forall i :: 0 <= i < |r.pages| ==> r.pages[i] == r.pages[0] + i
    ensures forall i :: 0 <= i < |r.pages| ==> 1 <= r.pages[i] <= totalPages
    ensures |r.pages| <= Max(0, itemsToDisplay)
  {
    var left := ShowLeftEllipsis(currentPage, itemsToDisplay);
    var right := ShowRightEllipsis(currentPage, totalPages, itemsToDisplay);
    if totalPages <= itemsToDisplay then
      PageList(Range(1, totalPages), left, right)
    else
      var w := CenteredWindow(currentPage, totalPages, itemsToDisplay);
      var start := if left then w.start + 1 else w.start;
      var end := if right then w.end - 1 else w.end;
      PageList(Range(start, end), left, right)
  }

  /** The page number shown for a page index. */
  function ShownPage(p: Paging): int {
    p.pageIndex + 1
  }

  /** `onPageChange`: select 1-based `page`; the page size is kept. */
  function OnPageChange(p: Paging, page: int): (r: Paging)
    ensures ShownPage(r) == page
    ensures r.pageSize == p.pageSize
  {
    p.(pageIndex := page - 1)
  }

  /** Selecting the page that is already shown changes nothing. */
  lemma PageChangeRoundTrip(p: Paging)
    ensures OnPageChange(p, ShownPage(p)) == p
  {
  }

  /** `onPageSizeChange`: a new page size, back on the first page. */
  function OnPageSizeChange(p: Paging, size: int): (r: Paging)
    ensures r.pageSize == size && r.pageIndex == 0
  {
    Paging(0, size)
  }

  /** The "rows a-b of n" footer under the table. */
  datatype Footer = Footer(currentPage: int, pageSize: int, rowStart: int, rowEnd: int, totalItems: nat)

  /** The footer of the products table, omitted when there are no products or
      no row passes the filters. `rowEnd` never exceeds the filtered count,
      and on a page that holds rows the labels count exactly those rows. */
  function TableFooter(productCount: nat, filteredCount: nat, p: Paging): (r: Option<Footer>)
    ensures r.None? <==> productCount == 0 || filteredCount == 0
    ensures r.Some? ==> r.value.currentPage == p.pageIndex + 1 && r.value.totalItems == filteredCount
    ensures r.Some? ==> r.value.pageSize == p.pageSize
    ensures r.Some? ==> r.value.rowStart == p.pageIndex * p.pageSize + 1
    ensures r.Some? ==> r.value.rowEnd == Min((p.pageIndex + 1) * p.pageSize, filteredCount)
    ensures r.Some? ==> r.value.rowEnd <= r.value.totalItems
    ensures r.Some? && p.pageSize >= 1 && 0 <= p.pageIndex * p.pageSize < filteredCount ==>
      r.value.rowStart <= r.value.rowEnd
      && r.value.rowEnd - r.value.rowStart + 1 == |PageSlice(Range(1, filteredCount), p)|
  {
    if productCount == 0 || filteredCount == 0 then None
    else
      var lo := p.pageIndex * p.pageSize;
      assert (p.pageIndex + 1) * p.pageSize == lo + p.pageSize;
      Some(Footer(p.pageIndex + 1, p.pageSize, lo + 1,
                  Min((p.pageIndex + 1) * p.pageSize, filteredCount), filteredCount))
  }

  /** The rows of the current page, as the table engine slices them
      (`rows.slice(pageIndex * pageSize, (pageIndex + 1) * pageSize)`). */
  function PageSlice<T>(rows: seq<T>, p: Paging): (r: seq<T>)
    requires p.pageSize >= 1 && 0 <= p.pageIndex * p.pageSize <= |rows|
    ensures |r| == Min(p.pageSize, |rows| - p.pageIndex * p.pageSize)
  {
    var lo := p.pageIndex * p.pageSize;
    rows[lo .. Min(lo + p.pageSize, |rows|)]
  }
}
