/** The aggregates the store and the loader use, over reals as an
    idealisation of IEEE doubles: SQL MAX/MIN/AVG, pandas rolling mean and
    rolling sample standard deviation, and Python's round(x, 2). */
module Stats {

  function Sum(s: seq<real>): real {
    if s == [] then 0.0 else s[0] + Sum(s[1..])
  }

  function Mean(s: seq<real>): real
    requires |s| > 0
  {
    Sum(s) / |s| as real
  }

  /** Sum of squared deviations from `m`. */
  function SumSqDev(s: seq<real>, m: real): real {
    if s == [] then 0.0 else (s[0] - m) * (s[0] - m) + SumSqDev(s[1..], m)
  }

  /** Sample variance (divisor n - 1), the square of pandas' `std()`. */
  function SampleVariance(s: seq<real>): real
    requires |s| >= 2
  {
    SumSqDev(s, Mean(s)) / (|s| - 1) as real
  }

  /** What the model needs of a square root: it returns the non-negative
      root of every non-negative argument, and the root of zero is zero (a
      consequence the solver does not find on its own). */
  ghost predicate IsSqrt(sqrt: real -> real) {
    && sqrt(0.0) == 0.0
    && forall x: real :: 0.0 <= x ==> 0.0 <= sqrt(x) && sqrt(x) * sqrt(x) == x
  }

  function Maximum(s: seq<real>): (m: real)
    requires |s| > 0
    ensures forall i :: 0 <= i < |s| ==> s[i] <= m
    ensures exists i :: 0 <= i < |s| && s[i] == m
  {
    if |s| == 1 then s[0]
    else
      var rest := Maximum(s[1..]);
      assert forall i :: 1 <= i < |s| ==> s[i] == s[1..][i - 1];
      if s[0] >= rest then s[0] else rest
  }

  function Minimum(s: seq<real>): (m: real)
    requires |s| > 0
    ensures forall i :: 0 <= i < |s| ==> m <= s[i]
    ensures exists i :: 0 <= i < |s| && s[i] == m
  {
    if |s| == 1 then s[0]
    else
      var rest := Minimum(s[1..]);
      assert forall i :: 1 <= i < |s| ==> s[i] == s[1..][i - 1];
      if s[0] <= rest then s[0] else rest
  }

  /** Rounding to two decimals, halves rounded up. */
  function Round2(x: real): (r: real)
    ensures x - 0.005 < r <= x + 0.005
    ensures (r * 100.0).Floor as real == r * 100.0
  {
    (x * 100.0 + 0.5).Floor as real / 100.0
  }

  lemma {:induction false} SumBounds(s: seq<real>, lo: real, hi: real)
    requires forall i :: 0 <= i < |s| ==> lo <= s[i] <= hi
    ensures |s| as real * lo <= Sum(s) <= |s| as real * hi
  {
    if s != [] {
      SumBounds(s[1..], lo, hi);
      assert |s| as real * lo == (|s| - 1) as real * lo + lo;
      assert |s| as real * hi == (|s| - 1) as real * hi + hi;
    }
  }

  /** A mean lies between any bounds of its data. */
  lemma MeanBounds(s: seq<real>, lo: real, hi: real)
    requires |s| > 0
    requires forall i :: 0 <= i < |s| ==> lo <= s[i] <= hi
    ensures lo <= Mean(s) <= hi
  {
    SumBounds(s, lo, hi);
    QuotientBounds(Sum(s), |s| as real, lo, hi);
  }

  lemma QuotientBounds(a: real, n: real, lo: real, hi: real)
    requires n > 0.0 && n * lo <= a <= n * hi
    ensures lo <= a / n <= hi
  {
    var q := a / n;
    assert a == n * q;
    assert n * (q - lo) >= 0.0;
    assert n * (hi - q) >= 0.0;
  }

  lemma {:induction false} SumConstant(s: seq<real>, c: real)
    requires forall i :: 0 <= i < |s| ==> s[i] == c
    ensures Sum(s) == |s| as real * c
  {
    if s != [] {
      SumConstant(s[1..], c);
      assert |s| as real * c == (|s| - 1) as real * c + c;
    }
  }

  lemma MeanConstant(s: seq<real>, c: real)
    requires |s| > 0
    requires forall i :: 0 <= i < |s| ==> s[i] == c
    ensures Mean(s) == c
  {
    SumConstant(s, c);
  }

  lemma {:induction false} SumSqDevNonNegative(s: seq<real>, m: real)
    ensures SumSqDev(s, m) >= 0.0
  {
    if s != [] {
      SumSqDevNonNegative(s[1..], m);
      assert (s[0] - m) * (s[0] - m) >= 0.0;
    }
  }

  lemma {:induction false} SumSqDevAtConstant(s: seq<real>, m: real)
    requires forall i :: 0 <= i < |s| ==> s[i] == m
    ensures SumSqDev(s, m) == 0.0
  {
    if s != [] {
      SumSqDevAtConstant(s[1..], m);
    }
  }

  lemma VarianceNonNegative(s: seq<real>)
    requires |s| >= 2
    ensures SampleVariance(s) >= 0.0
  {
    SumSqDevNonNegative(s, Mean(s));
  }

  /** Constant data has zero sample variance. */
  lemma VarianceOfConstant(s: seq<real>, c: real)
    requires |s| >= 2
    requires forall i :: 0 <= i < |s| ==> s[i] == c
    ensures SampleVariance(s) == 0.0
  {
    MeanConstant(s, c);
    SumSqDevAtConstant(s, c);
  }

  /** `sd` is a standard deviation for `variance`. */
  predicate IsStdDev(sd: real, variance: real) {
    sd >= 0.0 && sd * sd == variance
  }

  /** The square root that IsSqrt describes is the standard deviation: it is
      non-negative, squares back to the variance, and is zero exactly when
      the variance is. */
  lemma SqrtOfVariance(s: seq<real>, sqrt: real -> real)
    requires |s| >= 2
    requires IsSqrt(sqrt)
    ensures IsStdDev(sqrt(SampleVariance(s)), SampleVariance(s))
    ensures sqrt(SampleVariance(s)) == 0.0 <==> SampleVariance(s) == 0.0
  {
    VarianceNonNegative(s);
  }
}
