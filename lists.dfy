/** The array operations the site's list queries are built from:
    `filter`, `find`, `[...new Set(xs)]` (first-occurrence de-duplication)
    and the default `sort()` of an array of strings. */
module Lists {
  import opened Text

  /** `xs.filter(keep)` */
  function Filter<T>(xs: seq<T>, keep: T -> bool): (r: seq<T>)
    ensures |r| <= |xs|
    ensures forall i :: 0 <= i < |r| ==> keep(r[i])
  {
    if xs == [] then [] else (if keep(xs[0]) then [xs[0]] else []) + Filter(xs[1..], keep)
  }

  /** `a` is `b` with some elements left out, the rest in their order. */
  predicate Subsequence<T(==)>(a: seq<T>, b: seq<T>)
    decreases |b|
  {
    a == [] || (b != [] && ((a[0] == b[0] && Subsequence(a[1..], b[1..])) || Subsequence(a, b[1..])))
  }

  /** A filter returns a subsequence of its input. */
  lemma {:induction false} FilterSubsequence<T>(xs: seq<T>, keep: T -> bool)
    ensures Subsequence(Filter(xs, keep), xs)
  {
    if xs != [] {
      FilterSubsequence(xs[1..], keep);
      var r := Filter(xs, keep);
      if keep(xs[0]) {
        assert r[0] == xs[0] && r[1..] == Filter(xs[1..], keep);
      } else {
        assert r == Filter(xs[1..], keep);
      }
    }
  }

  /** Filtering keeps exactly the kept elements. */
  lemma {:induction false} FilterMembers<T>(xs: seq<T>, keep: T -> bool)
    ensures forall x :: x in Filter(xs, keep) <==> x in xs && keep(x)
  {
    if xs != [] {
      FilterMembers(xs[1..], keep);
      assert xs == [xs[0]] + xs[1..];
    }
  }

  /** Filtering commutes with concatenation: the filter keeps the order of the
      input. */
  lemma {:induction false} FilterConcat<T>(a: seq<T>, b: seq<T>, keep: T -> bool)
    ensures Filter(a + b, keep) == Filter(a, keep) + Filter(b, keep)
  {
    if a == [] {
      assert a + b == b;
    } else {
      assert (a + b)[1..] == a[1..] + b;
      FilterConcat(a[1..], b, keep);
    }
  }

  /** A filter that keeps every element returns its input. */
  lemma {:induction false} FilterKeepsAll<T>(xs: seq<T>, keep: T -> bool)
    requires forall i :: 0 <= i < |xs| ==> keep(xs[i])
    ensures Filter(xs, keep) == xs
  {
    if xs != [] {
      FilterKeepsAll(xs[1..], keep);
    }
  }

  /** Filters with conditions that agree everywhere agree. */
  lemma {:induction false} FilterAgrees<T>(xs: seq<T>, p: T -> bool, q: T -> bool)
    requires forall x :: p(x) == q(x)
    ensures Filter(xs, p) == Filter(xs, q)
  {
    if xs != [] {
      FilterAgrees(xs[1..], p, q);
    }
  }

  /** Filtering with the conjunction of two conditions is filtering twice. */
  lemma {:induction false} FilterFilter<T>(xs: seq<T>, p: T -> bool, q: T -> bool, both: T -> bool)
    requires forall x :: both(x) == (p(x) && q(x))
    ensures Filter(Filter(xs, p), q) == Filter(xs, both)
  {
    if xs != [] {
      FilterFilter(xs[1..], p, q, both);
      var fp := Filter(xs, p);
      if p(xs[0]) {
        assert fp == [xs[0]] + Filter(xs[1..], p);
        assert fp[0] == xs[0] && fp[1..] == Filter(xs[1..], p);
        assert Filter(fp, q) == (if q(xs[0]) then [xs[0]] else []) + Filter(Filter(xs[1..], p), q);
      } else {
        assert fp == [] + Filter(xs[1..], p) == Filter(xs[1..], p);
      }
      assert Filter(xs, both) == (if both(xs[0]) then [xs[0]] else []) + Filter(xs[1..], both);
    }
  }

  /** The index `xs.findIndex(found)` returns, with `None` for -1. */
  function FindIndex<T>(xs: seq<T>, found: T -> bool): (r: Option<nat>)
    ensures r.Some? ==> r.value < |xs| && found(xs[r.value])
    ensures forall j :: 0 <= j < |xs| && (r.None? || j < r.value) ==> !found(xs[j])
  {
    if xs == [] then None
    else if found(xs[0]) then Some(0)
    else match FindIndex(xs[1..], found)
      case None => None
      case Some(i) => Some(i + 1)
  }

  /** `xs.find(found)`, with `None` for `undefined`. */
  function Find<T>(xs: seq<T>, found: T -> bool): (r: Option<T>)
    ensures r.None? <==> forall j :: 0 <= j < |xs| ==> !found(xs[j])
    ensures r.Some? ==> exists i :: 0 <= i < |xs| && xs[i] == r.value && found(r.value)
                          && forall j :: 0 <= j < i ==> !found(xs[j])
  {
    match FindIndex(xs, found)
    case None => None
    case Some(i) => Some(xs[i])
  }

  /** The first index of an element. */
  function FirstIndex<T(==)>(xs: seq<T>, x: T): (i: nat)
    requires x in xs
    ensures i < |xs| && xs[i] == x && forall j :: 0 <= j < i ==> xs[j] != x
  {
    if xs[0] == x then 0 else 1 + FirstIndex(xs[1..], x)
  }

  predicate NoDuplicates<T(==)>(xs: seq<T>) {
    forall i, j :: 0 <= i < j < |xs| ==> xs[i] != xs[j]
  }

  /** `[...new Set(xs)]`: a `Set` remembers insertion order, so each element
      is kept at its first occurrence; built here by adding the elements of
      `xs` one at a time, as the `Set` constructor does. */
  function Distinct<T(==)>(xs: seq<T>): (r: seq<T>)
    ensures NoDuplicates(r)
    ensures forall i :: 0 <= i < |r| ==> r[i] in xs
    ensures forall i :: 0 <= i < |xs| ==> xs[i] in r
    ensures forall i, j :: 0 <= i < j < |r| ==> FirstIndex(xs, r[i]) < FirstIndex(xs, r[j])
  {
    if xs == [] then []
    else
      var front := xs[..|xs| - 1];
      var last := xs[|xs| - 1];
      var d := Distinct(front);
      assert xs == front + [last];
      FirstIndexInFront(front, last);
      if last in d then d else d + [last]
  }

  /** Elements of the front keep their first index when an element is appended. */
  lemma FirstIndexInFront<T>(front: seq<T>, last: T)
    ensures forall y :: y in front ==> FirstIndex(front + [last], y) == FirstIndex(front, y)
    ensures last !in front ==> FirstIndex(front + [last], last) == |front|
  {
    forall y | y in front
      ensures FirstIndex(front + [last], y) == FirstIndex(front, y)
    {
      var i := FirstIndex(front, y);
      var k := FirstIndex(front + [last], y);
      assert (front + [last])[i] == y;
      assert k <= i;
      assert front[k] == (front + [last])[k];
    }
  }

  /** Strict lexicographic order of strings by character code, the order of
      the default `Array.prototype.sort`. */
  predicate LexLess(a: string, b: string) {
    if |a| == 0 then |b| > 0
    else if |b| == 0 then false
    else if a[0] != b[0] then a[0] < b[0]
    else LexLess(a[1..], b[1..])
  }

  lemma {:induction false} LexLessIrreflexive(a: string)
    ensures !LexLess(a, a)
  {
    if |a| > 0 {
      LexLessIrreflexive(a[1..]);
    }
  }

  lemma {:induction false} LexLessTransitive(a: string, b: string, c: string)
    requires LexLess(a, b) && LexLess(b, c)
    ensures LexLess(a, c)
  {
    if |a| > 0 && a[0] == b[0] && b[0] == c[0] {
      LexLessTransitive(a[1..], b[1..], c[1..]);
    }
  }

  lemma {:induction false} LexLessTotal(a: string, b: string)
    requires a != b
    ensures LexLess(a, b) || LexLess(b, a)
  {
    if |a| > 0 && |b| > 0 && a[0] == b[0] {
      assert a == [a[0]] + a[1..] && b == [b[0]] + b[1..];
      LexLessTotal(a[1..], b[1..]);
    }
  }

  predicate SortedStrings(xs: seq<string>) {
    forall i, j :: 0 <= i < j < |xs| ==> !LexLess(xs[j], xs[i])
  }

  /** Inserts `x` before the first element that is not smaller. */
  function Insert(x: string, xs: seq<string>): (r: seq<string>)
    requires SortedStrings(xs)
    ensures SortedStrings(r)
    ensures multiset(r) == multiset(xs) + multiset{x}
  {
    if xs == [] then [x]
    else if !LexLess(xs[0], x) then
      InsertHead(x, xs);
      [x] + xs
    else
      var rest := Insert(x, xs[1..]);
      assert xs == [xs[0]] + xs[1..];
      InsertBehind(xs[0], x, xs[1..], rest);
      [xs[0]] + rest
  }

  lemma InsertHead(x: string, xs: seq<string>)
    requires SortedStrings(xs) && xs != [] && !LexLess(xs[0], x)
    ensures SortedStrings([x] + xs)
  {
    var r := [x] + xs;
    forall i, j | 0 <= i < j < |r| ensures !LexLess(r[j], r[i]) {
      if i == 0 {
        if LexLess(r[j], x) {
          if j > 1 {
            assert !LexLess(xs[j - 1], xs[0]);
            if xs[j - 1] == xs[0] {
            } else {
              LexLessTotal(xs[j - 1], xs[0]);
              LexLessTransitive(xs[0], xs[j - 1], x);
            }
          }
        }
      }
    }
  }

  lemma InsertBehind(h: string, x: string, tail: seq<string>, rest: seq<string>)
    requires SortedStrings([h] + tail) && LexLess(h, x)
    requires SortedStrings(rest) && multiset(rest) == multiset(tail) + multiset{x}
    ensures SortedStrings([h] + rest)
  {
    var r := [h] + rest;
    forall i, j | 0 <= i < j < |r| ensures !LexLess(r[j], r[i]) {
      if i == 0 {
        var y := rest[j - 1];
        assert y in multiset(rest);
        if y == x {
          LexLessIrreflexive(h);
          if LexLess(x, h) { LexLessTransitive(h, x, h); }
        } else {
          assert y in multiset(tail);
          assert y in tail;
          var k :| 0 <= k < |tail| && tail[k] == y;
          assert ([h] + tail)[k + 1] == y && ([h] + tail)[0] == h;
          assert !LexLess(y, h);
          assert r[j] == y && r[0] == h;
        }
      }
    }
  }

  /** `xs.sort()` on strings: sorted and a permutation of the input. */
  function Sort(xs: seq<string>): (r: seq<string>)
    ensures SortedStrings(r)
    ensures multiset(r) == multiset(xs)
  {
    if xs == [] then []
    else
      assert xs == [xs[0]] + xs[1..];
      Insert(xs[0], Sort(xs[1..]))
  }

  /** Sorting a list without duplicates gives a strictly increasing list. */
  lemma SortDistinctStrict(xs: seq<string>)
    requires NoDuplicates(xs)
    ensures forall i, j :: 0 <= i < j < |Sort(xs)| ==> LexLess(Sort(xs)[i], Sort(xs)[j])
  {
    var r := Sort(xs);
    forall i, j | 0 <= i < j < |r| ensures LexLess(r[i], r[j]) {
      if r[i] == r[j] {
        MultisetTwice(r, i, j);
        assert multiset(xs)[r[i]] >= 2;
        CountAtMostOne(xs, r[i]);
      } else {
        LexLessTotal(r[i], r[j]);
      }
    }
  }

  lemma MultisetTwice(r: seq<string>, i: nat, j: nat)
    requires i < j < |r| && r[i] == r[j]
    ensures multiset(r)[r[i]] >= 2
  {
    assert r == r[..i] + [r[i]] + r[i + 1..j] + [r[j]] + r[j + 1..];
  }

  lemma {:induction false} CountAtMostOne<T>(xs: seq<T>, x: T)
    requires NoDuplicates(xs)
    ensures multiset(xs)[x] <= 1
  {
    if xs != [] {
      assert xs == [xs[0]] + xs[1..];
      CountAtMostOne(xs[1..], x);
      if xs[0] == x {
        assert x !in xs[1..];
      }
    }
  }

  /** `xs.flatMap(f)` for a function returning a list. */
  function FlatMap<T, U>(xs: seq<T>, f: T -> seq<U>): (r: seq<U>)
    ensures forall i, k :: 0 <= i < |xs| && 0 <= k < |f(xs[i])| ==> f(xs[i])[k] in r
  {
    if xs == [] then []
    else
      var rest := FlatMap(xs[1..], f);
      assert forall i :: 1 <= i < |xs| ==> xs[i] == xs[1..][i - 1];
      f(xs[0]) + rest
  }

  lemma {:induction false} FlatMapMembers<T, U>(xs: seq<T>, f: T -> seq<U>, u: U)
    requires u in FlatMap(xs, f)
    ensures exists i :: 0 <= i < |xs| && u in f(xs[i])
  {
    if u !in f(xs[0]) {
      FlatMapMembers(xs[1..], f, u);
      var i :| 0 <= i < |xs[1..]| && u in f(xs[1..][i]);
      assert xs[1..][i] == xs[i + 1];
    }
  }

  /** `xs.map(f)` */
  function Map<T, U>(xs: seq<T>, f: T -> U): (r: seq<U>)
    ensures |r| == |xs| && forall i :: 0 <= i < |xs| ==> r[i] == f(xs[i])
  {
    seq(|xs|, i requires 0 <= i < |xs| => f(xs[i]))
  }
}
