/** Sums and filters over sequences, the two operations every aggregate of the KPI engine is built from. */
module Seqs {

  /** Σ f(x) over `xs`, accumulated left to right as Python's `sum(...)` does. */
  function Sum<T>(xs: seq<T>, f: T -> real): real
    decreases |xs|
  {
    if |xs| == 0 then 0.0 else Sum(xs[..|xs| - 1], f) + f(xs[|xs| - 1])
  }

  /** The elements of `xs` satisfying `p`, in their original order (a list comprehension with `if`). */
  function Filter<T>(xs: seq<T>, p: T -> bool): (r: seq<T>)
    ensures |r| <= |xs|
    ensures forall i :: 0 <= i < |r| ==> r[i] in xs && p(r[i])
    ensures forall i :: 0 <= i < |xs| && p(xs[i]) ==> xs[i] in r
    decreases |xs|
  {
    if |xs| == 0 then []
    else Filter(xs[..|xs| - 1], p) + (if p(xs[|xs| - 1]) then [xs[|xs| - 1]] else [])
  }

  lemma {:induction false} SumAppend<T>(xs: seq<T>, ys: seq<T>, f: T -> real)
    ensures Sum(xs + ys, f) == Sum(xs, f) + Sum(ys, f)
    decreases |ys|
  {
    if |ys| == 0 {
      assert xs + ys == xs;
    } else {
      var ys' := ys[..|ys| - 1];
      assert (xs + ys)[..|xs + ys| - 1] == xs + ys';
      SumAppend(xs, ys', f);
    }
  }

  lemma {:induction false} FilterAppend<T>(xs: seq<T>, ys: seq<T>, p: T -> bool)
    ensures Filter(xs + ys, p) == Filter(xs, p) + Filter(ys, p)
    decreases |ys|
  {
    if |ys| == 0 {
      assert xs + ys == xs;
    } else {
      var ys' := ys[..|ys| - 1];
      assert (xs + ys)[..|xs + ys| - 1] == xs + ys';
      FilterAppend(xs, ys', p);
    }
  }

  /** Filters that agree on every element of `xs` keep the same elements. */
  lemma {:induction false} FilterCongruent<T>(xs: seq<T>, p: T -> bool, q: T -> bool)
    requires forall i :: 0 <= i < |xs| ==> p(xs[i]) == q(xs[i])
    ensures Filter(xs, p) == Filter(xs, q)
    decreases |xs|
  {
    if |xs| > 0 {
      FilterCongruent(xs[..|xs| - 1], p, q);
    }
  }

  /** A sum does not depend on the order of its terms: any permutation has the same sum. */
  lemma {:induction false} SumPermutation<T>(a: seq<T>, b: seq<T>, f: T -> real)
    requires multiset(a) == multiset(b)
    ensures Sum(a, f) == Sum(b, f)
    decreases |a|
  {
    if |a| == 0 {
      assert |b| == |multiset(b)| == 0;
    } else {
      var x := a[|a| - 1];
      var a' := a[..|a| - 1];
      assert a == a' + [x];
      assert x in multiset(b);
      var i :| 0 <= i < |b| && b[i] == x;
      var b' := b[..i] + b[i + 1..];
      assert b == b[..i] + [x] + b[i + 1..];
      assert multiset(b') == multiset(b) - multiset{x};
      assert multiset(a') == multiset(a) - multiset{x};
      SumPermutation(a', b', f);
      SumAppend(b[..i] + [x], b[i + 1..], f);
      SumAppend(b[..i], [x], f);
      SumAppend(b[..i], b[i + 1..], f);
      assert [x][..0] == [];
    }
  }

  /** Sums of pointwise-related terms: Σ h = Σ f − Σ g whenever h = f − g everywhere on `xs`. */
  lemma {:induction false} SumDifference<T>(xs: seq<T>, f: T -> real, g: T -> real, h: T -> real)
    requires forall x :: x in xs ==> h(x) == f(x) - g(x)
    ensures Sum(xs, h) == Sum(xs, f) - Sum(xs, g)
    decreases |xs|
  {
    if |xs| > 0 {
      SumDifference(xs[..|xs| - 1], f, g, h);
    }
  }

  /** A sum of terms that are all positive is positive as soon as there is one term. */
  lemma {:induction false} SumPositive<T>(xs: seq<T>, f: T -> real)
    requires forall x :: x in xs ==> f(x) > 0.0
    ensures |xs| > 0 ==> Sum(xs, f) > 0.0
    ensures Sum(xs, f) >= 0.0
    decreases |xs|
  {
    if |xs| > 0 {
      SumPositive(xs[..|xs| - 1], f);
    }
  }

  /** Filtering keeps a sequence whole when every element passes. */
  lemma {:induction false} FilterAllPass<T>(xs: seq<T>, p: T -> bool)
    requires forall i :: 0 <= i < |xs| ==> p(xs[i])
    ensures Filter(xs, p) == xs
    decreases |xs|
  {
    if |xs| > 0 {
      FilterAllPass(xs[..|xs| - 1], p);
    }
  }

  /** The number of elements of `xs` satisfying `p`: `len([x for x in xs if p(x)])`. */
  function Count<T>(xs: seq<T>, p: T -> bool): (n: nat)
    ensures n <= |xs|
    decreases |xs|
  {
    if |xs| == 0 then 0 else Count(xs[..|xs| - 1], p) + (if p(xs[|xs| - 1]) then 1 else 0)
  }

  lemma {:induction false} CountFilter<T>(xs: seq<T>, p: T -> bool)
    ensures Count(xs, p) == |Filter(xs, p)|
    decreases |xs|
  {
    if |xs| > 0 {
      CountFilter(xs[..|xs| - 1], p);
    }
  }

  /** A count is zero exactly when no element satisfies the predicate. */
  lemma {:induction false} CountZero<T>(xs: seq<T>, p: T -> bool)
    ensures Count(xs, p) == 0 <==> forall i :: 0 <= i < |xs| ==> !p(xs[i])
    decreases |xs|
  {
    if |xs| > 0 {
      CountZero(xs[..|xs| - 1], p);
      assert forall i :: 0 <= i < |xs| - 1 ==> xs[..|xs| - 1][i] == xs[i];
    }
  }

  /** Sums of terms that agree on every element are equal. */
  lemma {:induction false} SumCongruent<T>(xs: seq<T>, f: T -> real, g: T -> real)
    requires forall i :: 0 <= i < |xs| ==> f(xs[i]) == g(xs[i])
    ensures Sum(xs, f) == Sum(xs, g)
    decreases |xs|
  {
    if |xs| > 0 {
      SumCongruent(xs[..|xs| - 1], f, g);
    }
  }

  /** Summing over a filtered sequence is summing the terms the filter keeps and 0 for the rest. */
  lemma {:induction false} SumFilter<T>(xs: seq<T>, p: T -> bool, f: T -> real, g: T -> real)
    requires forall i :: 0 <= i < |xs| ==> g(xs[i]) == (if p(xs[i]) then f(xs[i]) else 0.0)
    ensures Sum(Filter(xs, p), f) == Sum(xs, g)
    decreases |xs|
  {
    if |xs| > 0 {
      var n := |xs| - 1;
      SumFilter(xs[..n], p, f, g);
      SumAppend(Filter(xs[..n], p), if p(xs[n]) then [xs[n]] else [], f);
    }
  }

  /** A sum of non-negative terms is non-negative. */
  lemma {:induction false} SumNonNegative<T>(xs: seq<T>, f: T -> real)
    requires forall i :: 0 <= i < |xs| ==> f(xs[i]) >= 0.0
    ensures Sum(xs, f) >= 0.0
    decreases |xs|
  {
    if |xs| > 0 {
      SumNonNegative(xs[..|xs| - 1], f);
    }
  }

  /** Counts under predicates that agree on every element are equal. */
  lemma {:induction false} CountCongruent<T>(xs: seq<T>, p: T -> bool, q: T -> bool)
    requires forall i :: 0 <= i < |xs| ==> p(xs[i]) == q(xs[i])
    ensures Count(xs, p) == Count(xs, q)
    decreases |xs|
  {
    if |xs| > 0 {
      CountCongruent(xs[..|xs| - 1], p, q);
    }
  }

  /** A stronger predicate counts no more elements. */
  lemma {:induction false} CountMonotone<T>(xs: seq<T>, p: T -> bool, q: T -> bool)
    requires forall i :: 0 <= i < |xs| ==> p(xs[i]) ==> q(xs[i])
    ensures Count(xs, p) <= Count(xs, q)
    decreases |xs|
  {
    if |xs| > 0 {
      CountMonotone(xs[..|xs| - 1], p, q);
    }
  }

  /** Counting `q` among the elements satisfying `p` is counting `p && q` among all of them. */
  lemma {:induction false} CountOfFilter<T>(xs: seq<T>, p: T -> bool, q: T -> bool, pq: T -> bool)
    requires forall i :: 0 <= i < |xs| ==> pq(xs[i]) == (p(xs[i]) && q(xs[i]))
    ensures Count(Filter(xs, p), q) == Count(xs, pq)
    decreases |xs|
  {
    if |xs| > 0 {
      var n := |xs| - 1;
      CountOfFilter(xs[..n], p, q, pq);
      CountAppend(Filter(xs[..n], p), if p(xs[n]) then [xs[n]] else [], q);
    }
  }

  lemma {:induction false} CountAppend<T>(xs: seq<T>, ys: seq<T>, p: T -> bool)
    ensures Count(xs + ys, p) == Count(xs, p) + Count(ys, p)
    decreases |ys|
  {
    if |ys| == 0 {
      assert xs + ys == xs;
    } else {
      var ys' := ys[..|ys| - 1];
      assert (xs + ys)[..|xs + ys| - 1] == xs + ys';
      CountAppend(xs, ys', p);
    }
  }
}
