/** The page arithmetic of the paginated todo listing: the page size, the
    number of pages, the clamped page and the offset of its first item. */
module Pagination {
  import opened JsValues

  /** Page size used when `perpage` is absent, not a number, or 0. */
  const DefaultPageSize: int := 10

  /** An optional query parameter that is absent or parsed to a value >= 0. */
  predicate NonNegative(o: Option<int>)
  {
    o.None? || o.value >= 0
  }

  /** `parseInt(perpage) || 10`; None stands for NaN. Any parsed value other
      than 0 is kept, negative ones included. */
  function PageSize(perpage: Option<int>): (size: int)
    ensures size != 0
    ensures perpage.Some? && perpage.value != 0 ==> size == perpage.value
    ensures perpage.None? || perpage.value == 0 ==> size == DefaultPageSize
    ensures NonNegative(perpage) ==> size > 0
  {
    match perpage
    case None => DefaultPageSize
    case Some(n) => if n == 0 then DefaultPageSize else n
  }

  /** Helper fact about Euclidean division by a positive divisor. */
  lemma CeilDivPositive(n: int, d: int)
    requires d > 0
    ensures ((n + d - 1) / d) * d >= n
    ensures ((n + d - 1) / d - 1) * d < n
  {
    var m := n + d - 1;
    var q, r := m / d, m % d;
    assert m == q * d + r;
    assert (q - 1) * d == q * d - d;
  }

  /** `Math.ceil(n / d)`, computed exactly: the least integer q with q >= n / d. */
  function CeilDiv(n: int, d: int): (q: int)
    requires d != 0
    ensures d > 0 ==> q * d >= n && (q - 1) * d < n
    ensures d < 0 ==> q * d <= n && (q - 1) * d > n
  {
    if d > 0 then
      CeilDivPositive(n, d);
      (n + d - 1) / d
    else
      CeilDivPositive(-n, -d);
      assert ((-n + -d - 1) / -d) * -d == -(((-n + -d - 1) / -d) * d);
      assert ((-n + -d - 1) / -d - 1) * -d == -(((-n + -d - 1) / -d - 1) * d);
      (-n + -d - 1) / -d
  }

  /** `Math.min(parseInt(page), totalPages) || 1`; None stands for NaN, and a
      minimum of 0 is falsy. */
  function EffectivePage(requested: Option<int>, pages: int): (page: int)
    ensures page != 0
    ensures requested.None? ==> page == 1
    ensures requested.Some? && 1 <= requested.value <= pages ==> page == requested.value
    ensures requested.Some? && requested.value > pages >= 1 ==> page == pages
    ensures pages == 0 && NonNegative(requested) ==> page == 1
    ensures requested == Some(0) && pages >= 0 ==> page == 1
    ensures pages >= 1 && NonNegative(requested) ==> 1 <= page <= pages
  {
    match requested
    case None => 1
    case Some(p) =>
      var m := if p < pages then p else pages;
      if m == 0 then 1 else m
  }

  /** The four numbers the listing computes before it queries the store. */
  datatype Window = Window(pageSize: int, pages: int, page: int, start: int)

  function Paginate(count: nat, perpage: Option<int>, requested: Option<int>): Window
  {
    var size := PageSize(perpage);
    var pages := CeilDiv(count, size);
    var page := EffectivePage(requested, pages);
    Window(size, pages, page, (page - 1) * size)
  }

  lemma MulMonotone(a: int, b: int, c: int)
    requires a <= b && c >= 0
    ensures a * c <= b * c
  {
    assert b * c - a * c == (b - a) * c;
  }

  /** The number of pages is the exact ceiling of count / pageSize: the pages
      hold every item, the last page is not empty, and there are no pages
      exactly when there are no items. */
  lemma PagesAreCeiling(count: nat, perpage: Option<int>, requested: Option<int>)
    requires NonNegative(perpage)
    ensures var w := Paginate(count, perpage, requested);
      && w.pageSize > 0
      && w.pages >= 0
      && w.pages * w.pageSize >= count
      && (w.pages - 1) * w.pageSize < count
      && (w.pages == 0 <==> count == 0)
  {
    var w := Paginate(count, perpage, requested);
    if w.pages < 0 {
      MulMonotone(w.pages, -1, w.pageSize);
    }
  }

  /** With no items the listing shows page 1 from offset 0. */
  lemma EmptyCollectionWindow(perpage: Option<int>, requested: Option<int>)
    requires NonNegative(perpage) && NonNegative(requested)
    ensures var w := Paginate(0, perpage, requested);
      w.pages == 0 && w.page == 1 && w.start == 0
  {
    PagesAreCeiling(0, perpage, requested);
  }

  /** With at least one item and non-negative parameters, the effective page
      is a real page and its first offset falls inside the collection. */
  lemma WindowInRange(count: nat, perpage: Option<int>, requested: Option<int>)
    requires count > 0
    requires NonNegative(perpage) && NonNegative(requested)
    ensures var w := Paginate(count, perpage, requested);
      1 <= w.page <= w.pages && 0 <= w.start < count
  {
    var w := Paginate(count, perpage, requested);
    PagesAreCeiling(count, perpage, requested);
    MulMonotone(w.page - 1, w.pages - 1, w.pageSize);
    MulMonotone(0, w.page - 1, w.pageSize);
  }

  /** A page past the end is clamped to the last page. */
  lemma PastEndClamps(count: nat, perpage: Option<int>, p: int)
    requires count > 0 && NonNegative(perpage)
    requires p > Paginate(count, perpage, Some(p)).pages
    ensures var w := Paginate(count, perpage, Some(p));
      w.page == w.pages && w.start == (w.pages - 1) * w.pageSize
  {
    PagesAreCeiling(count, perpage, Some(p));
  }
}
