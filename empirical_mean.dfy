/** The sample mean as an integral of the empirical CDF: the identity the
    interval of `get_mean_ci` is built around, stated for the point
    estimate the Clopper-Pearson bounds bracket. */
module EmpiricalMean {
  import opened Sample

  /** On one window, the empirical-CDF area is the count area divided
      by `n`. */
  lemma CountAreaScales(s: seq<real>, curr: real, next: real)
    requires |s| > 0
    ensures EcdfArea(s)(curr, next) == (1.0 / |s| as real) * CountArea(s)(curr, next)
  {
    var n, k, w := |s| as real, Count(s, curr) as real, next - curr;
    assert w * (k / n) == (1.0 / n) * (w * k);
  }

  /** Summing empirical-CDF areas is summing count areas, divided by `n`. */
  lemma WindowSumEcdfScale(u: seq<real>, s: seq<real>)
    requires |s| > 0
    ensures WindowSum(u, EcdfArea(s)) == (1.0 / |s| as real) * WindowSum(u, CountArea(s))
  {
    forall curr, next ensures EcdfArea(s)(curr, next) == (1.0 / |s| as real) * CountArea(s)(curr, next) {
      CountAreaScales(s, curr, next);
    }
    WindowSumScale(u, EcdfArea(s), CountArea(s), 1.0 / |s| as real);
  }

  /** Removing repeated values leaves the empirical-CDF integral unchanged. */
  lemma EcdfWindowSumDedup(s: seq<real>)
    requires |s| > 0
    ensures WindowSum(Dedup(s), EcdfArea(s)) == WindowSum(s, EcdfArea(s))
  {
    forall x ensures EcdfArea(s)(x, x) == 0.0 {
      assert x - x == 0.0;
    }
    WindowSumDedup(s, EcdfArea(s));
  }

  /** The real-number step of the mean identity: `(n * max - sum) / n`
      is `max - sum / n`. */
  lemma DivideByCount(n: real, c: real, max: real, sum: real, total: real)
    requires n > 0.0 && total == n * max && c == total - sum
    ensures (1.0 / n) * c == max - sum / n
  {
    assert (1.0 / n) * total == max;
    assert (1.0 / n) * sum == sum / n;
  }

  /** A count total `c = n * max - sum` divided by `n`. */
  lemma MeanOfCountTotal(s: seq<real>, n: real, c: real, total: real)
    requires |s| > 0 && n == |s| as real
    requires total == |s| as real * s[|s| - 1] && c == total - Sum(s)
    ensures (1.0 / n) * c == s[|s| - 1] - Sum(s) / n
  {
    assert |s| as real * s[|s| - 1] == n * s[|s| - 1];
    DivideByCount(n, c, s[|s| - 1], Sum(s), n * s[|s| - 1]);
  }

  /** The count identity divided by `n`, taken with `n` as a real so that
      the division stays linear in the count area. */
  lemma CountAreaMean(s: seq<real>, n: real)
    requires Sorted(s) && |s| > 0 && n == |s| as real
    ensures (1.0 / n) * WindowSum(s, CountArea(s)) == s[|s| - 1] - Sum(s) / n
  {
    WindowSumOfCounts(s);
    MeanOfCountTotal(s, n, WindowSum(s, CountArea(s)), |s| as real * s[|s| - 1]);
  }

  /** The mean of a sorted sample is its maximum minus the integral of its
      empirical CDF, the integral taken over the windows of its distinct
      values: `Sum(s) / n = max - sum of (next - curr) * Count(curr) / n`. */
  lemma WindowSumOfEcdf(s: seq<real>)
    requires Sorted(s) && |s| > 0
    ensures WindowSum(Dedup(s), EcdfArea(s)) == s[|s| - 1] - Sum(s) / |s| as real
  {
    CountAreaMean(s, |s| as real);
    WindowSumEcdfScale(s, s);
    EcdfWindowSumDedup(s);
  }
}
