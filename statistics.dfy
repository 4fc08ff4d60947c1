/** Running sums over a sequence of samples, as the A/B test arms and the score normalizer
    accumulate them (`count`, `sum`, `sum_squared`). */
module Statistics {

  function Sum(xs: seq<real>): real {
    if |xs| == 0 then 0.0 else Sum(xs[..|xs| - 1]) + xs[|xs| - 1]
  }

  function SumSquares(xs: seq<real>): real {
    if |xs| == 0 then 0.0 else SumSquares(xs[..|xs| - 1]) + xs[|xs| - 1] * xs[|xs| - 1]
  }

  /** `{'mean', 'std_dev'}` computed from running sums; the standard deviation is kept as
      its square, the variance clamped at zero. */
  datatype Summary = Summary(mean: real, variance: real)

  /** Mean `sum / count` and variance `sum_squared / count - mean ** 2`, clamped at zero. */
  function Moments(sum: real, sumSquared: real, count: int): (s: Summary)
    requires count > 0
    ensures s.variance >= 0.0
    ensures s.mean * (count as real) == sum
  {
    var n := count as real;
    var mean := sum / n;
    var variance := sumSquared / n - mean * mean;
    Summary(mean, if variance > 0.0 then variance else 0.0)
  }

  /** The sum of squared deviations of the samples from `m`. */
  function Deviations(xs: seq<real>, m: real): real {
    if |xs| == 0 then 0.0 else Deviations(xs[..|xs| - 1], m) + (xs[|xs| - 1] - m) * (xs[|xs| - 1] - m)
  }

  /** Squared deviations never sum to a negative value. */
  lemma {:induction false} DeviationsNonNegative(xs: seq<real>, m: real)
    ensures Deviations(xs, m) >= 0.0
  {
    if |xs| > 0 {
      var d := xs[|xs| - 1] - m;
      DeviationsNonNegative(xs[..|xs| - 1], m);
      assert d * d >= 0.0;
    }
  }

  /** `sum_squared - 2 m sum + n m^2`: the squared deviations from `m` of `n` samples with
      the running sums `sum` and `sum_squared`. */
  function Expanded(sumSquared: real, sum: real, n: real, m: real): real {
    sumSquared - 2.0 * m * sum + n * m * m
  }

  /** The squared deviations expressed through the running sums. */
  lemma {:induction false} DeviationsExpand(xs: seq<real>, m: real)
    ensures Deviations(xs, m) == Expanded(SumSquares(xs), Sum(xs), |xs| as real, m)
  {
    if |xs| > 0 {
      var init, x := xs[..|xs| - 1], xs[|xs| - 1];
      DeviationsExpand(init, m);
      ExpandStep(SumSquares(init), Sum(init), |init| as real, m, x, SumSquares(xs), Sum(xs), |xs| as real);
    }
  }

  /** One more sample `x` adds its squared deviation to the expanded form. */
  lemma ExpandStep(ss: real, s: real, n: real, m: real, x: real, ss': real, s': real, n': real)
    requires ss' == ss + x * x && s' == s + x && n' == n + 1.0
    ensures Expanded(ss, s, n, m) + (x - m) * (x - m) == Expanded(ss', s', n', m)
  {
    assert (x - m) * (x - m) == x * x - 2.0 * m * x + m * m;
    assert (n + 1.0) * m * m == n * m * m + m * m;
  }

  /** The variance read off the running sums of a non-empty sample list is its population
      variance: times the count it is the sum of squared deviations from the mean, so the
      clamp at zero never changes it. */
  lemma {:induction false} VarianceOfSamples(xs: seq<real>)
    requires |xs| > 0
    ensures var s := Moments(Sum(xs), SumSquares(xs), |xs|);
      s.variance * (|xs| as real) == Deviations(xs, s.mean)
  {
    var m := Sum(xs) / (|xs| as real);
    var d := Deviations(xs, m);
    DeviationsExpand(xs, m);
    DeviationsNonNegative(xs, m);
    MomentsVariance(SumSquares(xs), Sum(xs), |xs|, m, d);
  }

  /** VarianceOfSamples, for sums kept alongside the samples and the mean and variance
      read off them. */
  lemma {:induction false} VarianceOfSums(xs: seq<real>, sum: real, sumSquared: real, count: int, mean: real, variance: real)
    requires count == |xs| > 0 && sum == Sum(xs) && sumSquared == SumSquares(xs)
    requires mean == Moments(sum, sumSquared, count).mean && variance == Moments(sum, sumSquared, count).variance
    ensures variance * (count as real) == Deviations(xs, mean)
  {
    VarianceOfSamples(xs);
  }

  lemma MomentsVariance(ss: real, s: real, count: int, m: real, d: real)
    requires count > 0
    requires m == s / count as real
    requires d == Expanded(ss, s, count as real, m)
    requires d >= 0.0
    ensures Moments(s, ss, count).mean == m
    ensures Moments(s, ss, count).variance * (count as real) == d
  {
    var n := count as real;
    assert s == m * n;
    assert d == ss - n * m * m;
    assert (ss / n) * n == ss;
    assert (ss / n - m * m) * n == ss - n * m * m;
  }

  /** The running sums fold over appended samples. */
  lemma SumsAppend(xs: seq<real>, x: real)
    ensures Sum(xs + [x]) == Sum(xs) + x
    ensures SumSquares(xs + [x]) == SumSquares(xs) + x * x
  {
    assert (xs + [x])[..|xs|] == xs;
  }

  /** `n` samples that lie in `[lo, hi]` sum to between `n * lo` and `n * hi`. */
  lemma {:induction false} SumBounds(xs: seq<real>, lo: real, hi: real)
    requires forall i :: 0 <= i < |xs| ==> lo <= xs[i] <= hi
    ensures (|xs| as real) * lo <= Sum(xs) <= (|xs| as real) * hi
  {
    if |xs| > 0 {
      SumBounds(xs[..|xs| - 1], lo, hi);
    }
  }

  /** The mean of samples that lie in `[lo, hi]` lies in `[lo, hi]`. */
  lemma MeanBounds(xs: seq<real>, lo: real, hi: real)
    requires |xs| > 0
    requires forall i :: 0 <= i < |xs| ==> lo <= xs[i] <= hi
    ensures lo <= Sum(xs) / (|xs| as real) <= hi
  {
    SumBounds(xs, lo, hi);
    DivideBounds(Sum(xs), |xs| as real, lo, hi);
  }

  lemma DivideBounds(s: real, n: real, lo: real, hi: real)
    requires n > 0.0 && n * lo <= s <= n * hi
    ensures lo <= s / n <= hi
  {
    assert s / n * n == s;
  }
}
