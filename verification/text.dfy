/** The string primitives the validators and routes lean on, with the
    semantics of the JavaScript built-ins they stand for: `trim`, the regular
    expression class `\s`, `split`, ASCII `toLowerCase`, and deleting every
    character of a class (`replace(/[...]/g, "")`). */
module Text {
  import opened Base

  /** ECMAScript WhiteSpace and LineTerminator code points: exactly the
      characters `String.prototype.trim` removes and `\s` matches. They are
      U+0009 to U+000D, U+0020, U+00A0, U+1680, U+2000 to U+200A, U+2028,
      U+2029, U+202F, U+205F, U+3000 and U+FEFF. */
  predicate IsSpace(c: char) {
    || '\U{9}' <= c <= '\U{D}'
    || c == '\U{20}' || c == '\U{A0}' || c == '\U{1680}'
    || '\U{2000}' <= c <= '\U{200A}'
    || c == '\U{2028}' || c == '\U{2029}' || c == '\U{202F}' || c == '\U{205F}'
    || c == '\U{3000}' || c == '\U{FEFF}'
  }

  predicate AllSpace(s: string) {
    forall k :: 0 <= k < |s| ==> IsSpace(s[k])
  }

  /** Neither end of `s` is a space character. */
  predicate NoEdgeSpace(s: string) {
    s == [] || (!IsSpace(s[0]) && !IsSpace(s[|s| - 1]))
  }

  /** The end of the run of space characters that starts at `i`. */
  function LeadFrom(s: string, i: nat): (n: nat)
    requires i <= |s|
    ensures i <= n <= |s|
    ensures forall k :: i <= k < n ==> IsSpace(s[k])
    ensures n < |s| ==> !IsSpace(s[n])
    decreases |s| - i
  {
    if i < |s| && IsSpace(s[i]) then LeadFrom(s, i + 1) else i
  }

  /** The start of the run of space characters that ends just before `j`,
      going no further back than `lo`. */
  function TrailTo(s: string, lo: nat, j: nat): (n: nat)
    requires lo <= j <= |s|
    ensures lo <= n <= j
    ensures forall k :: n <= k < j ==> IsSpace(s[k])
    ensures lo < n ==> !IsSpace(s[n - 1])
  {
    if lo < j && IsSpace(s[j - 1]) then TrailTo(s, lo, j - 1) else j
  }

  /** `s.trim()`: the middle of `s` once the leading run and the trailing run
      of space characters are cut off. The run cut at the front ends at
      `LeadFrom(s, 0)`. */
  function Trim(s: string): (r: string)
    ensures var i := LeadFrom(s, 0);
      && i + |r| <= |s|
      && (forall k :: 0 <= k < |r| ==> r[k] == s[i + k])
      && (forall k :: 0 <= k < i ==> IsSpace(s[k]))
      && (forall k :: i + |r| <= k < |s| ==> IsSpace(s[k]))
    ensures NoEdgeSpace(r)
  {
    var i := LeadFrom(s, 0);
    s[i..TrailTo(s, i, |s|)]
  }

  /** Trimming is idempotent and it empties exactly the all-space strings. */
  lemma TrimIdempotent(s: string)
    ensures Trim(Trim(s)) == Trim(s)
  {
    TrimNoEdgeSpace(Trim(s));
  }

  lemma TrimEmptyIffAllSpace(s: string)
    ensures Trim(s) == [] <==> AllSpace(s)
  {
    if !AllSpace(s) {
      var k :| 0 <= k < |s| && !IsSpace(s[k]);
      assert LeadFrom(s, 0) <= k < TrailTo(s, LeadFrom(s, 0), |s|);
    }
  }

  /** Trimming only removes characters. */
  lemma TrimKeepsChars(s: string)
    ensures forall c :: c in Trim(s) ==> c in s
  {
    var i := LeadFrom(s, 0);
    var r := Trim(s);
    forall c | c in r ensures c in s {
      var k :| 0 <= k < |r| && r[k] == c;
      assert s[i + k] == c;
    }
  }

  /** A string with no space character at either end trims to itself. */
  lemma TrimNoEdgeSpace(s: string)
    requires NoEdgeSpace(s)
    ensures Trim(s) == s
  {
    assert LeadFrom(s, 0) == 0;
    assert TrailTo(s, 0, |s|) == |s|;
  }

  /** ASCII `toLowerCase` on one character. */
  function LowerChar(c: char): char {
    if 'A' <= c <= 'Z' then (c as int + 32) as char else c
  }

  function ToLower(s: string): (r: string)
    ensures |r| == |s|
    ensures forall k :: 0 <= k < |s| ==> r[k] == LowerChar(s[k])
  {
    seq(|s|, k requires 0 <= k < |s| => LowerChar(s[k]))
  }

  lemma ToLowerIdempotent(s: string)
    ensures ToLower(ToLower(s)) == ToLower(s)
  {
  }

  /** Lower-casing leaves space characters alone, so it commutes with trim;
      the order `toLowerCase().trim()` versus the schema's trim-then-lowercase
      does not matter. */
  lemma LowerCharSpace(c: char)
    ensures IsSpace(LowerChar(c)) == IsSpace(c)
    ensures IsSpace(c) ==> LowerChar(c) == c
  {
  }

  /** Lower-casing keeps every run of space characters where it was. */
  lemma {:induction false} LeadFromLower(s: string, i: nat)
    requires i <= |s|
    ensures LeadFrom(ToLower(s), i) == LeadFrom(s, i)
    decreases |s| - i
  {
    if i < |s| {
      LowerCharSpace(s[i]);
      if IsSpace(s[i]) {
        LeadFromLower(s, i + 1);
      }
    }
  }

  lemma {:induction false} TrailToLower(s: string, lo: nat, j: nat)
    requires lo <= j <= |s|
    ensures TrailTo(ToLower(s), lo, j) == TrailTo(s, lo, j)
  {
    if lo < j {
      LowerCharSpace(s[j - 1]);
      if IsSpace(s[j - 1]) {
        TrailToLower(s, lo, j - 1);
      }
    }
  }

  lemma TrimLowerCommute(s: string)
    ensures Trim(ToLower(s)) == ToLower(Trim(s))
  {
    LeadFromLower(s, 0);
    var i := LeadFrom(s, 0);
    TrailToLower(s, i, |s|);
    LowerSlice(s, i, TrailTo(s, i, |s|));
  }

  /** Lower-casing commutes with taking a slice. */
  lemma LowerSlice(s: string, i: nat, j: nat)
    requires i <= j <= |s|
    ensures ToLower(s)[i..j] == ToLower(s[i..j])
  {
    forall k | 0 <= k < j - i ensures ToLower(s)[i..j][k] == ToLower(s[i..j])[k] {
      assert ToLower(s)[i..j][k] == ToLower(s)[i + k];
    }
  }

  /** `s.split(sep)` for a one-character separator: always at least one part,
      one more part than there are separators, and no part holds a separator. */
  function Split(s: string, sep: char): (parts: seq<string>)
    ensures |parts| == Count(s, sep) + 1
    ensures forall p :: p in parts ==> sep !in p
    ensures forall p, c :: p in parts && c in p ==> c in s
  {
    if s == [] then [[]]
    else
      var rest := Split(s[1..], sep);
      if s[0] == sep then [[]] + rest
      else [[s[0]] + rest[0]] + rest[1..]
  }

  /** `parts.join(sep)`. */
  function Join(parts: seq<string>, sep: char): string {
    if |parts| == 0 then []
    else if |parts| == 1 then parts[0]
    else parts[0] + [sep] + Join(parts[1..], sep)
  }

  /** Splitting loses nothing: joining the parts back gives the input. */
  lemma {:induction false} JoinSplit(s: string, sep: char)
    ensures Join(Split(s, sep), sep) == s
  {
    if s != [] {
      var rest := Split(s[1..], sep);
      JoinSplit(s[1..], sep);
      if s[0] == sep {
        assert ([[]] + rest)[1..] == rest;
      } else {
        var parts := [[s[0]] + rest[0]] + rest[1..];
        if |rest| > 1 {
          assert parts[1..] == rest[1..];
        }
      }
    }
  }

  /** A string without the separator splits into itself alone. */
  lemma {:induction false} SplitWithoutSep(s: string, sep: char)
    requires sep !in s
    ensures Split(s, sep) == [s]
  {
    if s != [] {
      assert sep !in s[1..];
      SplitWithoutSep(s[1..], sep);
      assert s[0] != sep;
      assert [s[0]] + s[1..] == s;
    }
  }

  /** A separator after a separator-free prefix ends the first part there. */
  lemma {:induction false} SplitAtFirstSep(a: string, b: string, sep: char)
    requires sep !in a
    ensures Split(a + [sep] + b, sep) == [a] + Split(b, sep)
    decreases |a|
  {
    var s := a + [sep] + b;
    if a == [] {
      assert s[0] == sep && s[1..] == b;
    } else {
      assert s[0] == a[0] && a[0] != sep;
      assert s[1..] == a[1..] + [sep] + b;
      assert sep !in a[1..];
      SplitAtFirstSep(a[1..], b, sep);
      assert [a[0]] + a[1..] == a;
    }
  }

  /** Joining separator-free parts and splitting again gives the parts back. */
  lemma {:induction false} SplitJoin(parts: seq<string>, sep: char)
    requires |parts| >= 1
    requires forall k :: 0 <= k < |parts| ==> sep !in parts[k]
    ensures Split(Join(parts, sep), sep) == parts
  {
    if |parts| == 1 {
      SplitWithoutSep(parts[0], sep);
    } else {
      SplitJoin(parts[1..], sep);
      assert parts[0] + [sep] + Join(parts[1..], sep) == Join(parts, sep);
      SplitAtFirstSep(parts[0], Join(parts[1..], sep), sep);
      assert [parts[0]] + parts[1..] == parts;
    }
  }

  /** `s.replace(/[chars]/g, "")`: every character of the class is deleted and
      every other character keeps all of its occurrences. */
  function RemoveAll(s: string, chars: set<char>): (r: string)
    ensures |r| <= |s|
    ensures forall c :: c in r ==> c in s && c !in chars
    ensures forall c :: c !in chars ==> Count(r, c) == Count(s, c)
  {
    if s == [] then []
    else if s[0] in chars then RemoveAll(s[1..], chars)
    else [s[0]] + RemoveAll(s[1..], chars)
  }

  /** Removing from a concatenation removes from each part in turn, so the
      kept characters keep their order. */
  lemma {:induction false} RemoveAllAppend(a: string, b: string, chars: set<char>)
    ensures RemoveAll(a + b, chars) == RemoveAll(a, chars) + RemoveAll(b, chars)
  {
    if a == [] {
      assert a + b == b;
    } else {
      assert (a + b)[0] == a[0];
      assert (a + b)[1..] == a[1..] + b;
      RemoveAllAppend(a[1..], b, chars);
    }
  }

  /** A string holding none of the characters is left as it is. */
  lemma {:induction false} RemoveAllAbsent(s: string, chars: set<char>)
    requires forall k :: 0 <= k < |s| ==> s[k] !in chars
    ensures RemoveAll(s, chars) == s
  {
    if s != [] {
      RemoveAllAbsent(s[1..], chars);
      assert [s[0]] + s[1..] == s;
    }
  }
}
