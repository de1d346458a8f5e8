/** Small shared vocabulary: optional values, results, identifiers. */
module Base {

  /** Every stored record is addressed by a numeric identity (a document id). */
  type Id = nat

  datatype Option<+T> = None | Some(value: T) {
    function GetOr(default: T): T {
      match this
      case Some(v) => v
      case None => default
    }
  }

  /** The outcome of an operation that may be refused with a message. */
  datatype Result<+T> = Ok(value: T) | Err(msg: string)

  /** JavaScript truthiness of an optional string field of a request body:
      a missing field and the empty string are both falsy. */
  predicate Truthy(field: Option<string>) {
    field.Some? && field.value != ""
  }

  function Min(a: int, b: int): int { if a <= b then a else b }

  function Max(a: int, b: int): int { if a >= b then a else b }

  /** Number of occurrences of `x` in `s`. */
  function Count<T(==)>(s: seq<T>, x: T): nat {
    if s == [] then 0
    else (if s[0] == x then 1 else 0) + Count(s[1..], x)
  }

  lemma CountFirst<T>(s: seq<T>, x: T)
    requires s != []
    ensures Count(s, x) == (if s[0] == x then 1 else 0) + Count(s[1..], x)
  {
  }

  lemma {:induction false} CountZeroIffAbsent<T>(s: seq<T>, x: T)
    ensures Count(s, x) == 0 <==> x !in s
  {
    if s != [] {
      CountZeroIffAbsent(s[1..], x);
      assert s == [s[0]] + s[1..];
    }
  }

  lemma {:induction false} CountAppend<T>(a: seq<T>, b: seq<T>, x: T)
    ensures Count(a + b, x) == Count(a, x) + Count(b, x)
  {
    if a == [] {
      assert a + b == b;
    } else {
      assert (a + b)[0] == a[0];
      assert (a + b)[1..] == a[1..] + b;
      CountAppend(a[1..], b, x);
    }
  }

  /** `findOne`/`findById` over an in-memory collection: the position of the
      first record satisfying `p`, if there is one. */
  function FindFirst<T>(xs: seq<T>, p: T -> bool): (r: Option<nat>)
    ensures r.Some? ==> r.value < |xs| && p(xs[r.value]) && forall k :: 0 <= k < r.value ==> !p(xs[k])
    ensures r.None? ==> forall k :: 0 <= k < |xs| ==> !p(xs[k])
  {
    if xs == [] then None
    else if p(xs[0]) then Some(0)
    else match FindFirst(xs[1..], p)
      case None => None
      case Some(i) => Some(i + 1)
  }
}
