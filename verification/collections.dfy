/**
 * List operations the dashboard takes from Python and pandas: comprehension
 * filters, `unique()` (first-occurrence order), `value_counts` counting,
 * `sorted`/`sort_values` and `head(n)`.
 */
module Collections {

  /** `a` is `b` with some elements left out, the rest kept in order. */
  predicate Subsequence<T(==)>(a: seq<T>, b: seq<T>)
    decreases |b|
  {
    a == [] || (b != [] && (if a[0] == b[0] then Subsequence(a[1..], b[1..]) else Subsequence(a, b[1..])))
  }

  predicate NoDuplicates<T(==)>(s: seq<T>) {
    forall i, j :: 0 <= i < j < |s| ==> s[i] != s[j]
  }

  /** The comprehension `[x for x in xs if p(x)]`. */
  function Filter<T>(xs: seq<T>, p: T -> bool): seq<T> {
    if xs == [] then [] else (if p(xs[0]) then [xs[0]] else []) + Filter(xs[1..], p)
  }

  /** `pd.Series.unique()`: each value once, in the order of its first occurrence. */
  function Distinct<T(==)>(xs: seq<T>): seq<T> {
    if xs == [] then []
    else
      var d := Distinct(xs[..|xs| - 1]);
      if xs[|xs| - 1] in d then d else d + [xs[|xs| - 1]]
  }

  /** `le` is a total preorder: every two values compare, and comparison chains. */
  ghost predicate TotalPreorder<T(!new)>(le: (T, T) -> bool) {
    && (forall a, b :: le(a, b) || le(b, a))
    && (forall a, b, c :: le(a, b) && le(b, c) ==> le(a, c))
  }

  predicate Sorted<T>(xs: seq<T>, le: (T, T) -> bool) {
    forall i, j :: 0 <= i < j < |xs| ==> le(xs[i], xs[j])
  }

  function Insert<T(!new)>(x: T, xs: seq<T>, le: (T, T) -> bool): (r: seq<T>)
    requires TotalPreorder(le) && Sorted(xs, le)
    ensures multiset(r) == multiset(xs) + multiset{x}
    ensures Sorted(r, le)
  {
    if xs == [] then [x]
    else if le(x, xs[0]) then [x] + xs
    else
      var rest := Insert(x, xs[1..], le);
      InsertAfterHead(x, xs, rest, le);
      [xs[0]] + rest
  }

  /** Putting the head of `xs` before `x` inserted into the tail keeps the order, when `x` goes after the head. */
  lemma InsertAfterHead<T(!new)>(x: T, xs: seq<T>, rest: seq<T>, le: (T, T) -> bool)
    requires TotalPreorder(le) && Sorted(xs, le) && xs != [] && !le(x, xs[0])
    requires multiset(rest) == multiset(xs[1..]) + multiset{x} && Sorted(rest, le)
    ensures multiset([xs[0]] + rest) == multiset(xs) + multiset{x}
    ensures Sorted([xs[0]] + rest, le)
  {
    assert xs == [xs[0]] + xs[1..];
    forall y | y in rest
      ensures le(xs[0], y)
    {
      assert y in multiset(rest);
      if y != x {
        assert y in xs[1..];
      }
    }
    var r := [xs[0]] + rest;
    forall i, j | 0 <= i < j < |r|
      ensures le(r[i], r[j])
    {
      if i == 0 {
        assert r[j] == rest[j - 1] && r[j] in rest;
      } else {
        assert r[i] == rest[i - 1] && r[j] == rest[j - 1];
      }
    }
  }

  /** `sorted(xs)` / `sort_values` under the order `le`: a sorted permutation of `xs`. */
  function Sort<T(!new)>(xs: seq<T>, le: (T, T) -> bool): (r: seq<T>)
    requires TotalPreorder(le)
    ensures multiset(r) == multiset(xs)
    ensures Sorted(r, le)
  {
    if xs == [] then []
    else
      assert xs == [xs[0]] + xs[1..];
      Insert(xs[0], Sort(xs[1..], le), le)
  }

  /** How often `x` occurs in `xs`: one entry of `value_counts()`. */
  function Count<T(==)>(xs: seq<T>, x: T): (c: nat)
    ensures c <= |xs|
  {
    if xs == [] then 0 else Count(xs[..|xs| - 1], x) + (if xs[|xs| - 1] == x then 1 else 0)
  }

  /** `head(n)`: the first `n` elements, or all of them when there are fewer. */
  function Head<T>(xs: seq<T>, n: nat): (r: seq<T>)
    ensures |r| <= n && r <= xs
    ensures |xs| <= n ==> r == xs
    ensures |xs| > n ==> |r| == n
  {
    if |xs| <= n then xs else xs[..n]
  }

  // ----- lemmas -----

  /** A filter keeps exactly the elements that pass, in their original order. */
  lemma {:induction false} FilterSpec<T>(xs: seq<T>, p: T -> bool)
    ensures Subsequence(Filter(xs, p), xs)
    ensures forall x :: x in Filter(xs, p) <==> x in xs && p(x)
    ensures |Filter(xs, p)| <= |xs|
    decreases |xs|
  {
    if xs != [] {
      FilterSpec(xs[1..], p);
      var r := Filter(xs, p);
      if p(xs[0]) {
        assert r == [xs[0]] + Filter(xs[1..], p);
        assert r[1..] == Filter(xs[1..], p);
      } else {
        assert r == Filter(xs[1..], p);
        SubsequenceSkip(r, xs);
      }
    }
  }

  /** A filter keeps every passing element as often as it occurs, and no other. */
  lemma {:induction false} FilterMultiplicity<T>(xs: seq<T>, p: T -> bool)
    ensures forall x :: multiset(Filter(xs, p))[x] == if p(x) then multiset(xs)[x] else 0
    decreases |xs|
  {
    if xs != [] {
      FilterMultiplicity(xs[1..], p);
      assert xs == [xs[0]] + xs[1..];
    }
  }

  /** Filtering a sequence with one more element at the end filters that element on its own. */
  lemma {:induction false} FilterSnoc<T>(xs: seq<T>, x: T, p: T -> bool)
    ensures Filter(xs + [x], p) == Filter(xs, p) + (if p(x) then [x] else [])
    decreases |xs|
  {
    if xs == [] {
      assert xs + [x] == [x];
    } else {
      FilterSnoc(xs[1..], x, p);
      assert (xs + [x])[1..] == xs[1..] + [x];
    }
  }

  lemma {:induction false} SubsequenceSkip<T>(a: seq<T>, b: seq<T>)
    requires b != [] && Subsequence(a, b[1..])
    ensures Subsequence(a, b)
    decreases |b|, |a|
  {
    if a != [] && a[0] == b[0] {
      SubsequenceTail(a, b[1..]);
    }
  }

  lemma {:induction false} SubsequenceTail<T>(a: seq<T>, b: seq<T>)
    requires a != [] && Subsequence(a, b)
    ensures Subsequence(a[1..], b)
    decreases |b|, |a|
  {
    if a[1..] != [] {
      if a[0] == b[0] {
        SubsequenceSkip(a[1..], b);
      } else {
        SubsequenceTail(a, b[1..]);
        SubsequenceSkip(a[1..], b);
      }
    }
  }

  /** A subsequence keeps its elements and never grows. */
  lemma {:induction false} SubsequenceElements<T>(a: seq<T>, b: seq<T>)
    requires Subsequence(a, b)
    ensures forall x :: x in a ==> x in b
    ensures |a| <= |b|
    decreases |b|
  {
    if a != [] {
      assert a == [a[0]] + a[1..];
      if a[0] == b[0] {
        assert b == [b[0]] + b[1..];
        SubsequenceElements(a[1..], b[1..]);
      } else {
        SubsequenceElements(a, b[1..]);
      }
    }
  }

  /** Filtering a subsequence leaves a subsequence of the original. */
  lemma {:induction false} SubsequenceFilter<T>(a: seq<T>, b: seq<T>, p: T -> bool)
    requires Subsequence(a, b)
    ensures Subsequence(Filter(a, p), b)
    decreases |b|
  {
    if a != [] {
      if a[0] == b[0] {
        SubsequenceFilter(a[1..], b[1..], p);
        if p(a[0]) {
          assert Filter(a, p) == [a[0]] + Filter(a[1..], p);
        } else {
          assert Filter(a, p) == Filter(a[1..], p);
          SubsequenceSkip(Filter(a, p), b);
        }
      } else {
        SubsequenceFilter(a, b[1..], p);
        SubsequenceSkip(Filter(a, p), b);
      }
    }
  }

  /** `unique()` lists every value of `xs` exactly once. */
  lemma {:induction false} DistinctSpec<T>(xs: seq<T>)
    ensures NoDuplicates(Distinct(xs))
    ensures forall x :: x in Distinct(xs) <==> x in xs
    ensures |Distinct(xs)| <= |xs|
    decreases |xs|
  {
    if xs != [] {
      var init := xs[..|xs| - 1];
      DistinctSpec(init);
      assert xs == init + [xs[|xs| - 1]];
    }
  }

  /** A permutation has the same members. */
  lemma PermutationMembers<T>(a: seq<T>, b: seq<T>)
    requires multiset(a) == multiset(b)
    ensures forall x :: x in a <==> x in b
  {
    forall x
      ensures x in a <==> x in b
    {
      assert x in a <==> x in multiset(a);
      assert x in b <==> x in multiset(b);
    }
  }

  /** A permutation of distinct values has no duplicates either. */
  lemma PermutationNoDuplicates<T>(a: seq<T>, b: seq<T>)
    requires multiset(a) == multiset(b) && NoDuplicates(a)
    ensures NoDuplicates(b)
  {
    forall i, j | 0 <= i < j < |b|
      ensures b[i] != b[j]
    {
      if b[i] == b[j] {
        RepeatCount(b, i, j);
        NoDuplicatesCount(a, b[i]);
      }
    }
  }

  /** A value at two positions occurs at least twice. */
  lemma RepeatCount<T>(b: seq<T>, i: nat, j: nat)
    requires i < j < |b| && b[i] == b[j]
    ensures multiset(b)[b[i]] >= 2
  {
    assert b == b[..i] + [b[i]] + b[i + 1..j] + [b[j]] + b[j + 1..];
  }

  lemma {:induction false} NoDuplicatesCount<T>(a: seq<T>, x: T)
    requires NoDuplicates(a)
    ensures multiset(a)[x] <= 1
    decreases |a|
  {
    if a != [] {
      assert a == [a[0]] + a[1..];
      NoDuplicatesCount(a[1..], x);
      if a[0] == x {
        assert x !in a[1..];
      }
    }
  }

  /** `nunique()`: `unique()` lists as many values as the set of values has members. */
  lemma {:induction false} DistinctCardinality<T>(xs: seq<T>)
    ensures |Distinct(xs)| == |set x | x in xs|
    decreases |xs|
  {
    if xs != [] {
      var init := xs[..|xs| - 1];
      var last := xs[|xs| - 1];
      DistinctCardinality(init);
      DistinctSpec(init);
      assert xs == init + [last];
      assert (set x | x in xs) == (set x | x in init) + {last};
      if last !in init {
        assert last !in (set x | x in init);
      } else {
        assert (set x | x in xs) == (set x | x in init);
      }
    }
  }

  /** `Count` is the multiplicity of the value in the multiset of the sequence. */
  lemma {:induction false} CountIsMultiplicity<T>(xs: seq<T>, x: T)
    ensures Count(xs, x) == multiset(xs)[x]
    decreases |xs|
  {
    if xs != [] {
      CountIsMultiplicity(xs[..|xs| - 1], x);
      assert xs == xs[..|xs| - 1] + [xs[|xs| - 1]];
    }
  }

  /** Leaving elements out of a sorted sequence keeps it sorted. */
  lemma {:induction false} SubsequenceSorted<T>(a: seq<T>, b: seq<T>, le: (T, T) -> bool)
    requires Subsequence(a, b) && Sorted(b, le)
    ensures Sorted(a, le)
    decreases |b|
  {
    if a != [] {
      assert Sorted(b[1..], le) by {
        forall i, j | 0 <= i < j < |b[1..]| ensures le(b[1..][i], b[1..][j]) {
          assert b[1..][i] == b[i + 1] && b[1..][j] == b[j + 1];
        }
      }
      if a[0] == b[0] {
        SubsequenceSorted(a[1..], b[1..], le);
        SubsequenceElements(a[1..], b[1..]);
        forall i, j | 0 <= i < j < |a|
          ensures le(a[i], a[j])
        {
          if i == 0 {
            assert a[j] == a[1..][j - 1];
            assert a[j] in b[1..];
            var k :| 0 <= k < |b[1..]| && b[1..][k] == a[j];
            assert b[k + 1] == a[j];
          } else {
            assert a[i] == a[1..][i - 1] && a[j] == a[1..][j - 1];
          }
        }
      } else {
        SubsequenceSorted(a, b[1..], le);
      }
    }
  }

  /** The first `n` of a sorted sequence come before every element left out. */
  lemma HeadIsTop<T>(xs: seq<T>, le: (T, T) -> bool, n: nat)
    requires Sorted(xs, le)
    ensures forall x, i :: x in xs && x !in Head(xs, n) && 0 <= i < |Head(xs, n)| ==> le(Head(xs, n)[i], x)
  {
    var h := Head(xs, n);
    forall x, i | x in xs && x !in h && 0 <= i < |h|
      ensures le(h[i], x)
    {
      var j :| 0 <= j < |xs| && xs[j] == x;
      assert h[i] == xs[i];
    }
  }

  /**
   * The first `n` distinct values in `le` order: at most `n`, each once, each
   * from `ys`, in order, and no value left out comes before one kept.
   */
  lemma HeadOfSortedDistinct<T(!new)>(ys: seq<T>, le: (T, T) -> bool, n: nat)
    requires TotalPreorder(le)
    ensures var h := Head(Sort(Distinct(ys), le), n);
      && |h| == (if |Distinct(ys)| <= n then |Distinct(ys)| else n)
      && NoDuplicates(h)
      && (forall e :: e in h ==> e in ys)
      && (forall i, j :: 0 <= i < j < |h| ==> le(h[i], h[j]))
      && (forall e, i :: e in ys && e !in h && 0 <= i < |h| ==> le(h[i], e))
  {
    var sorted := Sort(Distinct(ys), le);
    var h := Head(sorted, n);
    assert |sorted| == |multiset(sorted)| == |Distinct(ys)|;
    DistinctSpec(ys);
    PermutationNoDuplicates(Distinct(ys), sorted);
    PermutationMembers(Distinct(ys), sorted);
    forall i, j | 0 <= i < j < |h|
      ensures h[i] != h[j] && le(h[i], h[j])
    {
      assert h[i] == sorted[i] && h[j] == sorted[j];
    }
    forall e | e in h
      ensures e in ys
    {
      var k :| 0 <= k < |h| && h[k] == e;
      assert sorted[k] == e;
    }
    HeadIsTop(sorted, le, n);
  }

  /** Two filters in a row are one filter on both conditions. */
  lemma {:induction false} FilterCompose<T>(xs: seq<T>, p: T -> bool, q: T -> bool, both: T -> bool)
    requires forall x :: both(x) == (p(x) && q(x))
    ensures Filter(Filter(xs, p), q) == Filter(xs, both)
    decreases |xs|
  {
    if xs != [] {
      FilterCompose(xs[1..], p, q, both);
      var ys := Filter(xs, p);
      if p(xs[0]) {
        assert ys == [xs[0]] + Filter(xs[1..], p);
        assert ys[0] == xs[0] && ys[1..] == Filter(xs[1..], p);
      } else {
        assert ys == Filter(xs[1..], p);
      }
    }
  }

  /** Leaving elements out of a sequence without duplicates leaves none. */
  lemma SubsequenceNoDuplicates<T>(a: seq<T>, b: seq<T>)
    requires Subsequence(a, b) && NoDuplicates(b)
    ensures NoDuplicates(a)
  {
    var ne := (x: T, y: T) => x != y;
    assert Sorted(b, ne);
    SubsequenceSorted(a, b, ne);
    assert Sorted(a, ne);
  }
}
