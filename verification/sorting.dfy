/** The `.sort({field: -1})` step of the listing queries: records ordered by
    an integer key, largest first. Ascending order is descending order on the
    negated key. The database does not promise an order among equal keys, so
    neither does the sort's contract: only that the result is ordered and
    holds the same records. When no two records share a key that already
    fixes the order. */
module Sorting {

  ghost predicate SortedDesc<T>(xs: seq<T>, key: T -> int) {
    forall i, j :: 0 <= i < j < |xs| ==> key(xs[i]) >= key(xs[j])
  }

  function Insert<T>(x: T, xs: seq<T>, key: T -> int): (r: seq<T>)
    requires SortedDesc(xs, key)
    ensures SortedDesc(r, key)
    ensures multiset(r) == multiset(xs) + multiset{x}
    ensures |r| == |xs| + 1
    ensures forall k :: 0 <= k < |r| ==> r[k] == x || r[k] in xs
    ensures r[0] == x || r[0] == xs[0]
  {
    if xs == [] || key(x) >= key(xs[0]) then [x] + xs
    else
      var rest := Insert(x, xs[1..], key);
      InsertBehind(x, xs, key, rest);
      [xs[0]] + rest
  }

  /** Putting the first record back in front of the insertion into the rest. */
  lemma InsertBehind<T>(x: T, xs: seq<T>, key: T -> int, rest: seq<T>)
    requires xs != [] && key(x) < key(xs[0]) && SortedDesc(xs, key)
    requires SortedDesc(rest, key) && |rest| == |xs|
    requires multiset(rest) == multiset(xs[1..]) + multiset{x}
    requires forall k :: 0 <= k < |rest| ==> rest[k] == x || rest[k] in xs[1..]
    requires rest[0] == x || rest[0] == xs[1]
    ensures var r := [xs[0]] + rest;
      && SortedDesc(r, key) && multiset(r) == multiset(xs) + multiset{x}
      && forall k :: 0 <= k < |r| ==> r[k] == x || r[k] in xs
  {
    var r := [xs[0]] + rest;
    assert xs == [xs[0]] + xs[1..];
    forall i, j | 0 <= i < j < |r| ensures key(r[i]) >= key(r[j]) {
      if i == 0 {
        assert key(rest[0]) <= key(xs[0]);
        assert key(rest[0]) >= key(rest[j - 1]);
      } else {
        assert r[i] == rest[i - 1] && r[j] == rest[j - 1];
      }
    }
  }

  function SortDesc<T>(xs: seq<T>, key: T -> int): (r: seq<T>)
    ensures SortedDesc(r, key)
    ensures multiset(r) == multiset(xs)
    ensures |r| == |xs|
  {
    if xs == [] then []
    else
      assert xs == [xs[0]] + xs[1..];
      Insert(xs[0], SortDesc(xs[1..], key), key)
  }

  /** No two records share a key, and no record occurs twice. */
  ghost predicate DistinctKeys<T>(m: multiset<T>, key: T -> int) {
    forall x, y :: x in m && y in m && key(x) == key(y) ==> x == y && m[x] == 1
  }

  /** With distinct keys there is only one largest-first order: any ordered
      arrangement of the records is the one `SortDesc` builds, so every
      query returns the same sequence. */
  lemma SortDescIsTheOnlyOrder<T>(xs: seq<T>, b: seq<T>, key: T -> int)
    requires DistinctKeys(multiset(xs), key)
    requires SortedDesc(b, key) && multiset(b) == multiset(xs)
    ensures b == SortDesc(xs, key)
  {
    var a := SortDesc(xs, key);
    DistinctKeysStrict(a, key);
    StrictUnique(a, b, key);
  }

  /** Keys strictly decreasing from left to right. */
  ghost predicate StrictlyDesc<T>(xs: seq<T>, key: T -> int) {
    forall i, j :: 0 <= i < j < |xs| ==> key(xs[i]) > key(xs[j])
  }

  /** An ordered arrangement of records with distinct keys is strictly
      ordered. */
  lemma DistinctKeysStrict<T>(a: seq<T>, key: T -> int)
    requires SortedDesc(a, key) && DistinctKeys(multiset(a), key)
    ensures StrictlyDesc(a, key)
  {
    forall i, j | 0 <= i < j < |a| ensures key(a[i]) > key(a[j]) {
      if key(a[i]) == key(a[j]) {
        assert a[i] in multiset(a) && a[j] in multiset(a);
        TwiceCounted(a, i, j);
      }
    }
  }

  /** A record at two positions occurs at least twice. */
  lemma TwiceCounted<T>(a: seq<T>, i: nat, j: nat)
    requires i < j < |a| && a[i] == a[j]
    ensures multiset(a)[a[i]] >= 2
  {
    assert a == a[..j] + a[j..];
    assert a[..j][i] == a[i] && a[j..][0] == a[j];
    assert a[i] in multiset(a[..j]) && a[j] in multiset(a[j..]);
  }

  lemma {:induction false} StrictUnique<T>(a: seq<T>, b: seq<T>, key: T -> int)
    requires StrictlyDesc(a, key) && SortedDesc(b, key) && multiset(a) == multiset(b)
    ensures a == b
    decreases |a|
  {
    if a == [] {
      assert |b| == |multiset(b)| == 0;
    } else {
      HeadsAgree(a, b, key);
      DropHead(a);
      DropHead(b);
      StrictTail(a, key);
      SortedTail(b, key);
      StrictUnique(a[1..], b[1..], key);
      assert a == [a[0]] + a[1..] && b == [b[0]] + b[1..];
    }
  }

  /** Both arrangements begin with the record of the largest key. */
  lemma HeadsAgree<T>(a: seq<T>, b: seq<T>, key: T -> int)
    requires a != [] && StrictlyDesc(a, key) && SortedDesc(b, key) && multiset(a) == multiset(b)
    ensures b != [] && a[0] == b[0]
  {
    assert a[0] in multiset(b);
    var j :| 0 <= j < |b| && b[j] == a[0];
    assert b[0] in multiset(a);
    var i :| 0 <= i < |a| && a[i] == b[0];
    assert key(b[0]) >= key(b[j]);
  }

  lemma DropHead<T>(a: seq<T>)
    requires a != []
    ensures multiset(a[1..]) == multiset(a) - multiset{a[0]}
  {
    assert a == [a[0]] + a[1..];
  }

  lemma StrictTail<T>(a: seq<T>, key: T -> int)
    requires a != [] && StrictlyDesc(a, key)
    ensures StrictlyDesc(a[1..], key)
  {
    forall i, j | 0 <= i < j < |a| - 1 ensures key(a[1..][i]) > key(a[1..][j]) {
      assert a[1..][i] == a[i + 1] && a[1..][j] == a[j + 1];
    }
  }

  lemma SortedTail<T>(a: seq<T>, key: T -> int)
    requires a != [] && SortedDesc(a, key)
    ensures SortedDesc(a[1..], key)
  {
    forall i, j | 0 <= i < j < |a| - 1 ensures key(a[1..][i]) >= key(a[1..][j]) {
      assert a[1..][i] == a[i + 1] && a[1..][j] == a[j + 1];
    }
  }

  /** The records of `xs` that satisfy `p`; `FilterMultiplicity` shows it
      keeps every occurrence of each of them and `FilterAppend` that it
      keeps their order. */
  function Filter<T>(xs: seq<T>, p: T -> bool): (r: seq<T>)
    ensures |r| <= |xs|
    ensures forall k :: 0 <= k < |r| ==> p(r[k]) && r[k] in xs
  {
    if xs == [] then []
    else
      var rest := Filter(xs[1..], p);
      assert xs == [xs[0]] + xs[1..];
      if p(xs[0]) then [xs[0]] + rest else rest
  }

  /** Each satisfying record occurs in the result as often as in the
      input; every other record does not occur at all. */
  lemma {:induction false} FilterMultiplicity<T>(xs: seq<T>, p: T -> bool)
    ensures forall y :: multiset(Filter(xs, p))[y] == if p(y) then multiset(xs)[y] else 0
  {
    if xs != [] {
      FilterMultiplicity(xs[1..], p);
      FilterFirst(xs, p);
      assert xs == [xs[0]] + xs[1..];
    }
  }

  /** Filtering a concatenation filters each part in turn, so the records
      kept from earlier in the input come earlier in the result. */
  lemma {:induction false} FilterAppend<T>(xs: seq<T>, ys: seq<T>, p: T -> bool)
    ensures Filter(xs + ys, p) == Filter(xs, p) + Filter(ys, p)
  {
    if xs == [] {
      assert xs + ys == ys;
    } else {
      TailOfAppend(xs, ys);
      FilterAppend(xs[1..], ys, p);
      FilterFirst(xs + ys, p);
      FilterFirst(xs, p);
      var head := if p(xs[0]) then [xs[0]] else [];
      Regroup(head, Filter(xs[1..], p), Filter(ys, p));
    }
  }

  /** One step of the filter: the first record, kept or dropped, then the
      rest filtered. */
  lemma FilterFirst<T>(xs: seq<T>, p: T -> bool)
    requires xs != []
    ensures Filter(xs, p) == (if p(xs[0]) then [xs[0]] else []) + Filter(xs[1..], p)
  {
  }

  lemma TailOfAppend<T>(xs: seq<T>, ys: seq<T>)
    requires xs != []
    ensures (xs + ys)[0] == xs[0] && (xs + ys)[1..] == xs[1..] + ys
  {
  }

  lemma Regroup<T>(a: seq<T>, b: seq<T>, c: seq<T>)
    ensures a + (b + c) == (a + b) + c
  {
  }
}
