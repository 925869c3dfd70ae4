/** The numpy reductions the simulator relies on, over exact reals:
    sum, arithmetic mean, minimum, maximum, population variance and a
    sorted copy (numpy sorts before taking a median or percentile). */
module Reductions {

  function Sum(xs: seq<real>): real
  {
    if xs == [] then 0.0 else xs[0] + Sum(xs[1..])
  }

  /** `np.mean`: the arithmetic mean of a non-empty sample. */
  function Mean(xs: seq<real>): real
    requires |xs| > 0
  {
    Sum(xs) / |xs| as real
  }

  /** The smallest element: it occurs in the sample and bounds every element. */
  function Min(xs: seq<real>): (m: real)
    requires |xs| > 0
    ensures m in xs
    ensures forall i :: 0 <= i < |xs| ==> m <= xs[i]
  {
    if |xs| == 1 then xs[0]
    else
      var rest := Min(xs[1..]);
      if xs[0] <= rest then xs[0] else rest
  }

  /** The largest element: it occurs in the sample and bounds every element. */
  function Max(xs: seq<real>): (m: real)
    requires |xs| > 0
    ensures m in xs
    ensures forall i :: 0 <= i < |xs| ==> xs[i] <= m
  {
    if |xs| == 1 then xs[0]
    else
      var rest := Max(xs[1..]);
      if xs[0] >= rest then xs[0] else rest
  }

  predicate IsSorted(s: seq<real>)
  {
    forall i, j :: 0 <= i <= j < |s| ==> s[i] <= s[j]
  }

  /** Inserts `x` into a sorted sequence, keeping it sorted. */
  function Insert(x: real, s: seq<real>): (r: seq<real>)
    requires IsSorted(s)
    ensures IsSorted(r)
    ensures multiset(r) == multiset(s) + multiset{x}
    ensures |r| == |s| + 1
  {
    if s == [] || x <= s[0] then [x] + s
    else
      var tail := Insert(x, s[1..]);
      assert s == [s[0]] + s[1..];
      assert forall i :: 0 <= i < |tail| ==> s[0] <= tail[i] by {
        forall i | 0 <= i < |tail| ensures s[0] <= tail[i] {
          assert tail[i] in multiset(tail);
        }
      }
      [s[0]] + tail
  }

  /** The sorted copy numpy takes before reading order statistics:
      sorted, and a permutation of the sample. */
  function Sort(xs: seq<real>): (r: seq<real>)
    ensures IsSorted(r)
    ensures multiset(r) == multiset(xs)
    ensures |r| == |xs|
  {
    if xs == [] then []
    else
      assert xs == [xs[0]] + xs[1..];
      Insert(xs[0], Sort(xs[1..]))
  }

  /** The first element of the sorted copy is the minimum and the last the maximum. */
  lemma SortEnds(xs: seq<real>)
    requires |xs| > 0
    ensures Sort(xs)[0] == Min(xs)
    ensures Sort(xs)[|xs| - 1] == Max(xs)
  {
    var s := Sort(xs);
    assert s[0] in multiset(s);
    assert s[|s| - 1] in multiset(s);
    assert Min(xs) in multiset(xs);
    assert Max(xs) in multiset(xs);
  }

  /** Every element lies between the two ends of the sorted copy. */
  lemma SortBounds(xs: seq<real>, i: int)
    requires 0 <= i < |xs|
    ensures Sort(xs)[0] <= xs[i] <= Sort(xs)[|xs| - 1]
  {
    SortEnds(xs);
  }

  /** A lower bound on every element bounds the sum from below. */
  lemma {:induction false} SumAtLeast(xs: seq<real>, lo: real)
    requires forall i :: 0 <= i < |xs| ==> lo <= xs[i]
    ensures |xs| as real * lo <= Sum(xs)
  {
    if xs != [] {
      SumAtLeast(xs[1..], lo);
      assert |xs| as real * lo == lo + |xs[1..]| as real * lo;
    }
  }

  /** An upper bound on every element bounds the sum from above. */
  lemma {:induction false} SumAtMost(xs: seq<real>, hi: real)
    requires forall i :: 0 <= i < |xs| ==> xs[i] <= hi
    ensures Sum(xs) <= |xs| as real * hi
  {
    if xs != [] {
      SumAtMost(xs[1..], hi);
      assert |xs| as real * hi == hi + |xs[1..]| as real * hi;
    }
  }

  lemma QuotientBounds(sum: real, n: real, lo: real, hi: real)
    requires n > 0.0
    requires n * lo <= sum <= n * hi
    ensures lo <= sum / n <= hi
  {
  }

  /** Bounds shared by every element bound the mean. */
  lemma MeanWithin(xs: seq<real>, lo: real, hi: real)
    requires |xs| > 0
    requires forall i :: 0 <= i < |xs| ==> lo <= xs[i] <= hi
    ensures lo <= Mean(xs) <= hi
  {
    SumAtLeast(xs, lo);
    SumAtMost(xs, hi);
    QuotientBounds(Sum(xs), |xs| as real, lo, hi);
  }

  /** `np.mean` lies between the smallest and the largest element. */
  lemma MeanBounds(xs: seq<real>)
    requires |xs| > 0
    ensures Min(xs) <= Mean(xs) <= Max(xs)
  {
    MeanWithin(xs, Min(xs), Max(xs));
  }

  /** The sum of a sample whose elements all equal `c`. */
  lemma {:induction false} SumOfConstant(xs: seq<real>, c: real)
    requires forall i :: 0 <= i < |xs| ==> xs[i] == c
    ensures Sum(xs) == |xs| as real * c
  {
    if xs != [] {
      SumOfConstant(xs[1..], c);
    }
  }

  /** The mean of a sample whose elements all equal `c` is `c`. */
  lemma MeanOfConstant(xs: seq<real>, c: real)
    requires |xs| > 0
    requires forall i :: 0 <= i < |xs| ==> xs[i] == c
    ensures Mean(xs) == c
  {
    SumOfConstant(xs, c);
  }

  /** `x` squared. The second factor goes through `SecondFactor` so that
      the solver sees a product of two terms rather than a power, which it
      reasons about far less reliably. */
  function Square(x: real): real
  {
    x * SecondFactor(x)
  }

  /** The second factor of a square: `x` itself. */
  function SecondFactor(x: real): real
  {
    x
  }

  lemma ProductPositive(x: real, y: real)
    requires x > 0.0 && y > 0.0
    ensures x * y > 0.0
  {
  }

  /** A square is positive away from zero, so it is zero only at zero. */
  lemma SquarePositive(x: real)
    requires x != 0.0
    ensures Square(x) > 0.0
  {
    if x > 0.0 {
      ProductPositive(x, SecondFactor(x));
    } else {
      ProductPositive(-x, -SecondFactor(x));
      assert (-x) * (-SecondFactor(x)) == x * SecondFactor(x);
    }
  }

  /** Sum of squared deviations from `m`. */
  function SquaredDeviations(xs: seq<real>, m: real): real
  {
    if xs == [] then 0.0 else Square(xs[0] - m) + SquaredDeviations(xs[1..], m)
  }

  /** `np.var` with numpy's default `ddof=0`: the population variance. */
  function Variance(xs: seq<real>): real
    requires |xs| > 0
  {
    SquaredDeviations(xs, Mean(xs)) / |xs| as real
  }

  lemma {:induction false} SquaredDeviationsNonnegative(xs: seq<real>, m: real)
    ensures SquaredDeviations(xs, m) >= 0.0
  {
    if xs != [] {
      SquaredDeviationsNonnegative(xs[1..], m);
      if xs[0] != m {
        SquarePositive(xs[0] - m);
      }
    }
  }

  /** The squared deviations vanish exactly when every element equals `m`. */
  lemma {:induction false} SquaredDeviationsZero(xs: seq<real>, m: real)
    ensures SquaredDeviations(xs, m) == 0.0 <==> forall i :: 0 <= i < |xs| ==> xs[i] == m
  {
    if xs != [] {
      var rest := xs[1..];
      SquaredDeviationsZero(rest, m);
      SquaredDeviationsNonnegative(rest, m);
      assert forall i :: 1 <= i < |xs| ==> xs[i] == rest[i - 1];
      if xs[0] != m {
        SquarePositive(xs[0] - m);
      }
    }
  }

  /** The variance is never negative, and it is zero exactly when every
      element of the sample is the same. */
  lemma VarianceZero(xs: seq<real>)
    requires |xs| > 0
    ensures Variance(xs) >= 0.0
    ensures Variance(xs) == 0.0 <==> forall i :: 0 <= i < |xs| ==> xs[i] == xs[0]
  {
    var m := Mean(xs);
    SquaredDeviationsNonnegative(xs, m);
    SquaredDeviationsZero(xs, m);
    if forall i :: 0 <= i < |xs| ==> xs[i] == xs[0] {
      MeanOfConstant(xs, xs[0]);
    }
  }
}
