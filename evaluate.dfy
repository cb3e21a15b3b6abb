/** `get_mean_ci`: a distribution-free confidence interval for the mean of a
    variable known to lie in `[minSupport, maxSupport]`, built from exact
    Clopper-Pearson bounds on the empirical CDF. */
module Evaluate {
  import opened Wrappers
  import opened IncompleteBeta
  import opened Sample

  /** A significance level strictly between 0 and 1, the only ones that
      mean a confidence level.  The engine itself does not check it;
      src/data.rs rejects any other value before the call, the other
      callers do not. */
  predicate ValidAlpha(alpha: real) {
    0.0 < alpha < 1.0
  }

  /** The significance levels the engine can take: those for which both
      probabilities it passes to `incbi`, `alpha / 2` and `1 - alpha / 2`,
      lie in (0, 1].  This admits `1 <= alpha < 2`, which no caller means
      as a confidence level but which the callers that do not check
      `alpha` can pass. */
  predicate EngineAlpha(alpha: real) {
    0.0 < alpha < 2.0
  }

  /** Lower Clopper-Pearson bound for `k` of `n` ratings at most the
      threshold: `incbi(k, n - k + 1, alpha / 2)`.  The requires is what
      keeps both shape parameters at least 1. */
  function LowerQuantile(incbi: Incbi, n: nat, k: nat, alpha: real): real
    requires Defined(incbi) && EngineAlpha(alpha)
    requires 1 <= k <= n
  {
    incbi(k as real, (n - k + 1) as real, alpha / 2.0)
  }

  /** Upper Clopper-Pearson bound: `incbi(k + 1, n - k, 1 - alpha / 2)`. */
  function UpperQuantile(incbi: Incbi, n: nat, k: nat, alpha: real): real
    requires Defined(incbi) && EngineAlpha(alpha)
    requires k < n
  {
    incbi((k + 1) as real, (n - k) as real, 1.0 - alpha / 2.0)
  }

  /** The Clopper-Pearson bounds bracket the point estimate `k / n`, as the
      exact binomial interval does for every `alpha < 1`. */
  ghost predicate BracketsEstimate(incbi: Incbi, n: nat, alpha: real)
    requires Defined(incbi) && ValidAlpha(alpha)
  {
    n > 0 &&
    (forall k: nat :: 1 <= k <= n ==> LowerQuantile(incbi, n, k, alpha) <= k as real / n as real) &&
    (forall k: nat :: k < n ==> k as real / n as real <= UpperQuantile(incbi, n, k, alpha))
  }

  /** A two-sided bound on the CDF at one threshold. */
  datatype CdfBound = CdfBound(lower: real, upper: real)

  /** The `get_cdf_ci` closure: the bound on the CDF at `x`, from the number
      of ratings at most `x`.  Below the smallest rating the lower bound is
      exactly 0, from the largest rating on the upper bound is exactly 1;
      only in between is `incbi` called. */
  function CdfCi(incbi: Incbi, ratings: seq<real>, alpha: real, x: real): CdfBound
    requires Defined(incbi) && EngineAlpha(alpha) && |ratings| > 0
  {
    var n := |ratings|;
    var k := Count(ratings, x);
    var lower :=
      if x >= ratings[0] then
        CountAtLeastOne(ratings, x, 0);
        LowerQuantile(incbi, n, k, alpha)
      else 0.0;
    var upper :=
      if x < ratings[n - 1] then
        CountBelowLength(ratings, x, n - 1);
        UpperQuantile(incbi, n, k, alpha)
      else 1.0;
    CdfBound(lower, upper)
  }

  /** The upper CDF bound as a step function of the threshold. */
  function UpperCdf(incbi: Incbi, ratings: seq<real>, alpha: real): real -> real
    requires Defined(incbi) && EngineAlpha(alpha) && |ratings| > 0
  {
    x => CdfCi(incbi, ratings, alpha, x).upper
  }

  /** The lower CDF bound as a step function of the threshold. */
  function LowerCdf(incbi: Incbi, ratings: seq<real>, alpha: real): real -> real
    requires Defined(incbi) && EngineAlpha(alpha) && |ratings| > 0
  {
    x => CdfCi(incbi, ratings, alpha, x).lower
  }

  /** The area a window adds to `cdf_lower_ci_sum`: its width times the
      upper CDF bound at its left end. */
  function UpperArea(incbi: Incbi, ratings: seq<real>, alpha: real): (real, real) -> real
    requires Defined(incbi) && EngineAlpha(alpha) && |ratings| > 0
  {
    AreaOf(UpperCdf(incbi, ratings, alpha))
  }

  /** The area a window adds to `cdf_upper_ci_sum`: its width times the
      lower CDF bound at its left end. */
  function LowerArea(incbi: Incbi, ratings: seq<real>, alpha: real): (real, real) -> real
    requires Defined(incbi) && EngineAlpha(alpha) && |ratings| > 0
  {
    AreaOf(LowerCdf(incbi, ratings, alpha))
  }

  /** The pair `[mean_lower_ci, mean_upper_ci]`. */
  datatype Interval = Interval(lower: real, upper: real)

  /** The two panics of the support check. */
  datatype SupportError =
    | BelowMinSupport(min: real, minSupport: real)
    | AboveMaxSupport(max: real, maxSupport: real)

  /** The final formulas for a non-empty sample: the integral of the CDF
      over the support, bounded piecewise, subtracted from the top of the
      support (E[X] = max_support - integral of F).  The lower end uses the
      upper CDF bounds and the upper end the lower ones; each piece is a
      width times the bound at its left end: `[minSupport, min]` (the bound
      at `minSupport`), every window of distinct ratings, and
      `[max, maxSupport]` (the bound at `max`). */
  function MeanBounds(incbi: Incbi, ratings: seq<real>, alpha: real, minSupport: real, maxSupport: real): Interval
    requires Defined(incbi) && EngineAlpha(alpha) && |ratings| > 0
  {
    var unique := Dedup(ratings);
    CombineSums(incbi, ratings, alpha, minSupport, maxSupport,
      WindowSum(unique, UpperArea(incbi, ratings, alpha)),
      WindowSum(unique, LowerArea(incbi, ratings, alpha)))
  }

  /** The two final formulas, from the sums the loop leaves behind:
      `max - (min - minSupport) * upper(minSupport) - cdfLowerCiSum` and
      `maxSupport - (maxSupport - max) * lower(max) - cdfUpperCiSum`. */
  function CombineSums(incbi: Incbi, ratings: seq<real>, alpha: real, minSupport: real, maxSupport: real,
                       cdfLowerCiSum: real, cdfUpperCiSum: real): Interval
    requires Defined(incbi) && EngineAlpha(alpha) && |ratings| > 0
  {
    var min, max := ratings[0], ratings[|ratings| - 1];
    Interval(
      max - (min - minSupport) * CdfCi(incbi, ratings, alpha, minSupport).upper - cdfLowerCiSum,
      maxSupport - (maxSupport - max) * CdfCi(incbi, ratings, alpha, max).lower - cdfUpperCiSum)
  }

  /** The sample passes the support check and reaches the final formulas,
      the only path on which `alpha` and `incbi` are used. */
  predicate ReachesBounds(ratings: seq<real>, minSupport: real, maxSupport: real) {
    |ratings| > 0 && minSupport <= ratings[0] && ratings[|ratings| - 1] <= maxSupport
  }

  /** What `get_mean_ci` computes: the whole support for an empty sample,
      an error when the first rating is below `minSupport` or else the
      last one is above `maxSupport`, and the bounds otherwise. */
  function MeanCi(incbi: Incbi, ratings: seq<real>, alpha: real, minSupport: real, maxSupport: real): Result<Interval, SupportError>
    requires Defined(incbi)
    requires ReachesBounds(ratings, minSupport, maxSupport) ==> EngineAlpha(alpha)
  {
    var n := |ratings|;
    if n < 1 then Ok(Interval(minSupport, maxSupport))
    else if ratings[0] < minSupport then Err(BelowMinSupport(ratings[0], minSupport))
    else if ratings[n - 1] > maxSupport then Err(AboveMaxSupport(ratings[n - 1], maxSupport))
    else Ok(MeanBounds(incbi, ratings, alpha, minSupport, maxSupport))
  }

  /** The `for w in unique_ratings.windows(2)` loop: over each window
      `[curr, next]`, `cdf_lower_ci_sum` gains `(next - curr)` times the
      upper CDF bound at `curr`, and `cdf_upper_ci_sum` the same width times
      the lower one: the two areas `UpperArea` and `LowerArea`. */
  method AccumulateWindows(incbi: Incbi, ratings: seq<real>, alpha: real, uniqueRatings: seq<real>)
    returns (cdfLowerCiSum: real, cdfUpperCiSum: real)
    requires Defined(incbi) && EngineAlpha(alpha) && |ratings| > 0
    ensures cdfLowerCiSum == WindowSum(uniqueRatings, UpperArea(incbi, ratings, alpha))
    ensures cdfUpperCiSum == WindowSum(uniqueRatings, LowerArea(incbi, ratings, alpha))
  {
    cdfLowerCiSum, cdfUpperCiSum := 0.0, 0.0;
    if |uniqueRatings| < 2 {
      return;
    }
    for i := 0 to |uniqueRatings| - 1
      invariant cdfLowerCiSum == WindowSum(uniqueRatings[..i + 1], UpperArea(incbi, ratings, alpha))
      invariant cdfUpperCiSum == WindowSum(uniqueRatings[..i + 1], LowerArea(incbi, ratings, alpha))
    {
      var curr, next := uniqueRatings[i], uniqueRatings[i + 1];
      WindowSumStep(uniqueRatings, UpperArea(incbi, ratings, alpha), i);
      WindowSumStep(uniqueRatings, LowerArea(incbi, ratings, alpha), i);
      cdfLowerCiSum := cdfLowerCiSum + UpperArea(incbi, ratings, alpha)(curr, next);
      cdfUpperCiSum := cdfUpperCiSum + LowerArea(incbi, ratings, alpha)(curr, next);
    }
    assert uniqueRatings[..|uniqueRatings|] == uniqueRatings;
  }

  /** `unique_ratings.dedup()` on the clone, in place: a read index scans
      the array and a write index keeps the values that differ from the
      last one kept; the first `len` cells end up holding `Dedup` of the
      original contents. */
  method DedupInPlace(a: array<real>) returns (len: nat)
    modifies a
    ensures len <= a.Length
    ensures a[..len] == Dedup(old(a[..]))
  {
    ghost var s := a[..];
    if a.Length <= 1 {
      return a.Length;
    }
    len := 1;
    assert s[..1] == [s[0]];
    for r := 1 to a.Length
      invariant 1 <= len <= r
      invariant a[..len] == Dedup(s[..r])
      invariant forall j :: r <= j < a.Length ==> a[j] == s[j]
    {
      assert s[..r + 1][..r] == s[..r];
      assert a[r] == s[r];
      if a[r] != a[len - 1] {
        a[len] := a[r];
        len := len + 1;
      }
    }
    assert s[..a.Length] == s;
  }

  /** The engine: the support check, then the pass over the windows of the
      de-duplicated copy, then the final formulas. */
  method GetMeanCi(incbi: Incbi, ratings: seq<real>, alpha: real, minSupport: real, maxSupport: real)
    returns (r: Result<Interval, SupportError>)
    requires Defined(incbi)
    requires ReachesBounds(ratings, minSupport, maxSupport) ==> EngineAlpha(alpha)
    ensures r == MeanCi(incbi, ratings, alpha, minSupport, maxSupport)
  {
    var n := |ratings|;
    if n < 1 {
      return Ok(Interval(minSupport, maxSupport));
    }
    var min, max := ratings[0], ratings[n - 1];
    if min < minSupport {
      return Err(BelowMinSupport(min, minSupport));
    }
    if max > maxSupport {
      return Err(AboveMaxSupport(max, maxSupport));
    }
    var unique := new real[n](i requires 0 <= i < n => ratings[i]);
    assert unique[..] == ratings;
    var len := DedupInPlace(unique);
    var uniqueRatings := unique[..len];
    var cdfLowerCiSum, cdfUpperCiSum := AccumulateWindows(incbi, ratings, alpha, uniqueRatings);
    assert uniqueRatings == Dedup(ratings);
    return Ok(CombineSums(incbi, ratings, alpha, minSupport, maxSupport, cdfLowerCiSum, cdfUpperCiSum));
  }
}
