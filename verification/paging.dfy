/** The pagination arithmetic shared by the question and notification
    listings: `skip = (page - 1) * limit`, `pages = ceil(total / limit)`,
    `hasNext = page < pages`, `hasPrev = page > 1`, and the window of at most
    `limit` records that `.skip(skip).limit(limit)` selects. Query strings are
    taken as already parsed, with `page >= 1` and `limit >= 1`. */
module Paging {
  import opened Base
  import opened Sorting

  function Skip(page: int, limit: int): (s: nat)
    requires page >= 1 && limit >= 1
    ensures s == (page - 1) * limit
  {
    (page - 1) * limit
  }

  /** `Math.ceil(total / limit)`: the fewest pages of `limit` that hold
      `total` records. */
  function PageCount(total: nat, limit: int): (n: nat)
    requires limit >= 1
    ensures n * limit >= total
    ensures n == 0 || (n - 1) * limit < total
  {
    var n := (total + limit - 1) / limit;
    assert n * limit <= total + limit - 1 < n * limit + limit;
    n
  }

  datatype PageInfo = PageInfo(current: int, pages: nat, total: nat, hasNext: bool, hasPrev: bool)

  function Paginate(page: int, limit: int, total: nat): (p: PageInfo)
    requires page >= 1 && limit >= 1
    ensures p.current == page && p.total == total
  {
    var pages := PageCount(total, limit);
    PageInfo(page, pages, total, page < pages, page > 1)
  }

  lemma MulMono(a: int, b: int, c: int)
    requires a <= b && c >= 0
    ensures a * c <= b * c
  {
  }

  /** There is a next page exactly when records remain beyond this page,
      and a previous one exactly when this page skips some. */
  lemma HasNextIffMoreRecords(page: int, limit: int, total: nat)
    requires page >= 1 && limit >= 1
    ensures Paginate(page, limit, total).hasNext <==> Skip(page, limit) + limit < total
    ensures Paginate(page, limit, total).hasPrev <==> Skip(page, limit) > 0
  {
    var n := PageCount(total, limit);
    assert Skip(page, limit) + limit == page * limit;
    if page < n {
      MulMono(page, n - 1, limit);
    } else {
      MulMono(n, page, limit);
    }
    if page > 1 {
      MulMono(1, page - 1, limit);
    }
  }

  /** `.skip(skip).limit(limit)` on an ordered result. */
  function Window<T>(xs: seq<T>, skip: nat, limit: nat): (r: seq<T>)
    ensures |r| == Min(limit, Max(0, |xs| - skip))
    ensures forall k :: 0 <= k < |r| ==> r[k] == xs[skip + k]
  {
    if skip >= |xs| then []
    else if skip + limit >= |xs| then xs[skip..]
    else xs[skip..skip + limit]
  }

  /** Every record sits on exactly one page, and that page is within
      `1..pages`. */
  lemma EveryRecordOnOnePage(limit: int, total: nat, idx: nat)
    requires limit >= 1 && idx < total
    ensures var page := idx / limit + 1;
      && 1 <= page <= PageCount(total, limit)
      && Skip(page, limit) <= idx < Skip(page, limit) + limit
    ensures forall page :: 1 <= page && Skip(page, limit) <= idx < Skip(page, limit) + limit ==> page == idx / limit + 1
  {
    var page := idx / limit + 1;
    var n := PageCount(total, limit);
    assert (page - 1) * limit <= idx < (page - 1) * limit + limit;
    if page > n {
      MulMono(n, page - 1, limit);
    }
    forall p | 1 <= p && Skip(p, limit) <= idx < Skip(p, limit) + limit
      ensures p == page
    {
      if p < page {
        MulMono(p, page - 1, limit);
      } else if p > page {
        MulMono(page, p - 1, limit);
      }
    }
  }

  /** The page on which the record at position `idx` is listed. */
  function PageOf(idx: nat, limit: int): (page: int)
    requires limit >= 1
    ensures page >= 1
  {
    idx / limit + 1
  }

  /** The record at position `idx` is in the window of its page, at offset
      `idx - skip`. */
  lemma WindowOfPageHolds<T>(xs: seq<T>, limit: int, idx: nat)
    requires limit >= 1 && idx < |xs|
    ensures var page := PageOf(idx, limit);
      var w := Window(xs, Skip(page, limit), limit);
      && page <= PageCount(|xs|, limit)
      && 0 <= idx - Skip(page, limit) < |w|
      && w[idx - Skip(page, limit)] == xs[idx]
  {
    EveryRecordOnOnePage(limit, |xs|, idx);
  }

  /** A window of an ordering of `xs` keeps the order and holds only
      records of `xs`. */
  lemma WindowOfSorted<T>(xs: seq<T>, sorted: seq<T>, key: T -> int, skip: nat, limit: nat)
    requires SortedDesc(sorted, key) && multiset(sorted) == multiset(xs)
    ensures SortedDesc(Window(sorted, skip, limit), key)
    ensures forall k :: 0 <= k < |Window(sorted, skip, limit)| ==> Window(sorted, skip, limit)[k] in xs
  {
    var w := Window(sorted, skip, limit);
    forall i, j | 0 <= i < j < |w| ensures key(w[i]) >= key(w[j]) {
      assert w[i] == sorted[skip + i] && w[j] == sorted[skip + j];
    }
    forall k | 0 <= k < |w| ensures w[k] in xs {
      assert w[k] == sorted[skip + k];
      assert w[k] in multiset(sorted);
    }
  }
}
