/** The page selector under a listing: which page numbers it shows, where it
    puts an ellipsis instead of a run of pages, and when its previous and
    next arrows are disabled. At most five pages are listed in full;
    beyond that the first and last page are always shown, with a window near
    the current page. */
module PaginationView {
  import opened Base

  datatype PageItem = Num(n: int) | Ellipsis

  const MaxVisible := 5

  /** `1, 2, ..., total` (empty when `total < 1`). */
  function Run(total: int): (items: seq<PageItem>)
    ensures |items| == Max(0, total)
    ensures forall k :: 0 <= k < |items| ==> items[k] == Num(k + 1)
  {
    seq(Max(0, total), k requires 0 <= k < Max(0, total) => Num(k + 1))
  }

  /** The numbers shown rise strictly from left to right. */
  ghost predicate Increasing(items: seq<PageItem>) {
    forall i, j :: 0 <= i < j < |items| && items[i].Num? && items[j].Num? ==> items[i].n < items[j].n
  }

  /** Every shown number names a real page. */
  ghost predicate InRange(items: seq<PageItem>, total: int) {
    forall k :: 0 <= k < |items| && items[k].Num? ==> 1 <= items[k].n <= total
  }

  /** Every ellipsis stands between two shown pages and stands for at least
      one page that is not shown. */
  ghost predicate EllipsesHidePages(items: seq<PageItem>) {
    forall k :: 0 <= k < |items| && items[k] == Ellipsis ==>
      0 < k < |items| - 1 && items[k - 1].Num? && items[k + 1].Num?
      && items[k + 1].n - items[k - 1].n >= 2
  }

  /** Two numbers side by side are consecutive pages, so every gap between
      shown pages is marked by an ellipsis. */
  ghost predicate GapsMarked(items: seq<PageItem>) {
    forall k :: 0 <= k < |items| - 1 && items[k].Num? && items[k + 1].Num? ==> items[k + 1].n == items[k].n + 1
  }

  /** `getVisiblePages`: at most seven entries, the shown numbers rising
      and within range, the first and last pages at the ends once there are
      pages, and an ellipsis exactly where pages are skipped. */
  function VisiblePages(current: int, total: int): (items: seq<PageItem>)
    ensures |items| <= 7
    ensures total <= MaxVisible ==> Ellipsis !in items
    ensures total >= 1 ==> |items| >= 1 && items[0] == Num(1) && items[|items| - 1] == Num(total)
    ensures Increasing(items) && InRange(items, total)
    ensures EllipsesHidePages(items) && GapsMarked(items)
  {
    if total <= MaxVisible then Run(total)
    else if current <= 3 then
      StartLayoutShape(total);
      [Num(1), Num(2), Num(3), Ellipsis, Num(total)]
    else if current >= total - 2 then
      EndLayoutShape(total);
      [Num(1), Ellipsis, Num(total - 2), Num(total - 1), Num(total)]
    else
      MiddleLayoutShape(current, total);
      [Num(1), Ellipsis, Num(current - 1), Num(current), Num(current + 1), Ellipsis, Num(total)]
  }

  /** The layout near the first page. */
  lemma StartLayoutShape(total: int)
    requires total > MaxVisible
    ensures var items := [Num(1), Num(2), Num(3), Ellipsis, Num(total)];
      Increasing(items) && InRange(items, total) && EllipsesHidePages(items) && GapsMarked(items)
  {
    var items := [Num(1), Num(2), Num(3), Ellipsis, Num(total)];
    assert items[0] == Num(1) && items[1] == Num(2) && items[2] == Num(3) && items[3] == Ellipsis && items[4] == Num(total);
    assert GapsMarked(items);
    assert EllipsesHidePages(items);
    assert InRange(items, total);
  }

  /** The layout near the last page. */
  lemma EndLayoutShape(total: int)
    requires total > MaxVisible
    ensures var items := [Num(1), Ellipsis, Num(total - 2), Num(total - 1), Num(total)];
      Increasing(items) && InRange(items, total) && EllipsesHidePages(items) && GapsMarked(items)
  {
    var items := [Num(1), Ellipsis, Num(total - 2), Num(total - 1), Num(total)];
    assert items[0] == Num(1) && items[1] == Ellipsis && items[2] == Num(total - 2) && items[3] == Num(total - 1) && items[4] == Num(total);
    assert GapsMarked(items);
    assert EllipsesHidePages(items);
    assert InRange(items, total);
  }

  /** The layout around a current page away from both ends. */
  lemma MiddleLayoutShape(current: int, total: int)
    requires total > MaxVisible && 3 < current < total - 2
    ensures var items := [Num(1), Ellipsis, Num(current - 1), Num(current), Num(current + 1), Ellipsis, Num(total)];
      Increasing(items) && InRange(items, total) && EllipsesHidePages(items) && GapsMarked(items)
  {
    var items := [Num(1), Ellipsis, Num(current - 1), Num(current), Num(current + 1), Ellipsis, Num(total)];
    assert items[0] == Num(1) && items[1] == Ellipsis && items[2] == Num(current - 1) && items[3] == Num(current) && items[4] == Num(current + 1) && items[5] == Ellipsis && items[6] == Num(total);
    assert GapsMarked(items);
    assert EllipsesHidePages(items);
    assert InRange(items, total);
  }

  /** The current page is always offered when it is a real page. */
  lemma ShowsCurrentPage(current: int, total: int)
    requires 1 <= current <= total
    ensures Num(current) in VisiblePages(current, total)
  {
    var items := VisiblePages(current, total);
    if total <= MaxVisible {
      assert items[current - 1] == Num(current);
    } else if current <= 3 {
      assert items[current - 1] == Num(current);
    } else if current >= total - 2 {
      assert items[current - total + 4] == Num(current);
    } else {
      assert items[3] == Num(current);
    }
  }

  /** With five pages or fewer every page is listed; with more, exactly the
      first, the last, and the pages next to the current one or the
      nearer end. */
  lemma WhichPagesShown(current: int, total: int, p: int)
    requires 1 <= p <= total
    ensures Num(p) in VisiblePages(current, total) <==>
      || total <= MaxVisible
      || p == 1 || p == total
      || (current <= 3 && p <= 3)
      || (3 < current && current >= total - 2 && p >= total - 2)
      || (3 < current < total - 2 && current - 1 <= p <= current + 1)
  {
    var items := VisiblePages(current, total);
    if total <= MaxVisible {
      assert items[p - 1] == Num(p);
    }
  }

  /** The arrows as written: previous is disabled on page 1, next on the
      page equal to the page count. */
  predicate PrevDisabled(current: int) {
    current == 1
  }

  predicate NextDisabled(current: int, total: int) {
    current == total
  }

  /** As written, an empty listing (no pages at all) leaves next enabled on
      page 1, so it leads to page 2 of nothing. */
  lemma NextEnabledWithNoPages()
    ensures var current, total := 1, 0;
      !NextDisabled(current, total) && current + 1 > total
  {
  }

  /** The evidently intended rule: next is disabled once no page lies
      beyond the current one. */
  predicate NextDisabledIntended(current: int, total: int) {
    current >= total
  }

  /** With the intended rule, an enabled next arrow always leads to a real
      page, and the rule agrees with the written one on every real page. */
  lemma NextIntendedLeadsToRealPage(current: int, total: int)
    requires current >= 1
    ensures !NextDisabledIntended(current, total) ==> 1 <= current + 1 <= total
    ensures current <= total ==> (NextDisabledIntended(current, total) <==> NextDisabled(current, total))
  {
  }
}
