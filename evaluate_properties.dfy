/** What `get_mean_ci` guarantees: the shape of its result (errors, the
    empty sample), the pointwise CDF bounds, and the interval for the mean
    (within the support, around the sample mean, nested in `alpha`). */
module EvaluateProperties {
  import opened Wrappers
  import opened IncompleteBeta
  import opened Sample
  import opened EmpiricalMean
  import opened Evaluate

  // ---------------------------------------------------------------------
  // The support check and the empty sample

  /** An empty sample yields exactly the support, whatever `alpha`. */
  lemma EmptySample(incbi: Incbi, alpha: real, minSupport: real, maxSupport: real)
    requires Defined(incbi)
    ensures MeanCi(incbi, [], alpha, minSupport, maxSupport) == Ok(Interval(minSupport, maxSupport))
  {
  }

  /** For sorted ratings the engine fails exactly when some rating lies
      outside the support; otherwise it returns an interval. */
  lemma SupportErrorIff(incbi: Incbi, ratings: seq<real>, alpha: real, minSupport: real, maxSupport: real)
    requires Defined(incbi) && EngineAlpha(alpha) && Sorted(ratings)
    ensures MeanCi(incbi, ratings, alpha, minSupport, maxSupport).Err? <==>
      exists i :: 0 <= i < |ratings| && (ratings[i] < minSupport || ratings[i] > maxSupport)
  {
    if exists i :: 0 <= i < |ratings| && (ratings[i] < minSupport || ratings[i] > maxSupport) {
      var i :| 0 <= i < |ratings| && (ratings[i] < minSupport || ratings[i] > maxSupport);
      assert ratings[0] <= ratings[i] <= ratings[|ratings| - 1];
    } else if |ratings| > 0 {
      assert !(ratings[0] < minSupport || ratings[0] > maxSupport);
      assert !(ratings[|ratings| - 1] < minSupport || ratings[|ratings| - 1] > maxSupport);
    }
  }

  /** A sorted sample with a rating outside the support is rejected
      whatever `alpha`: the support check comes before any use of it. */
  lemma SupportErrorAnyAlpha(incbi: Incbi, ratings: seq<real>, alpha: real, minSupport: real, maxSupport: real)
    requires Defined(incbi) && Sorted(ratings)
    requires exists i :: 0 <= i < |ratings| && (ratings[i] < minSupport || ratings[i] > maxSupport)
    ensures !ReachesBounds(ratings, minSupport, maxSupport)
    ensures MeanCi(incbi, ratings, alpha, minSupport, maxSupport).Err?
  {
    var i :| 0 <= i < |ratings| && (ratings[i] < minSupport || ratings[i] > maxSupport);
    assert ratings[0] <= ratings[i] <= ratings[|ratings| - 1];
  }

  // ---------------------------------------------------------------------
  // The pointwise CDF bounds

  /** Whenever the closure calls `incbi`, its arguments lie in the
      routine's domain: from the smallest rating on at least one rating is
      counted, below the largest one at least one is not, and `alpha / 2`
      and `1 - alpha / 2` are in (0, 1]. */
  lemma IncbiArgumentsInDomain(ratings: seq<real>, alpha: real, x: real)
    requires EngineAlpha(alpha) && |ratings| > 0
    ensures var n, k := |ratings|, Count(ratings, x);
      x >= ratings[0] ==> InDomain(k as real, (n - k + 1) as real, alpha / 2.0)
    ensures var n, k := |ratings|, Count(ratings, x);
      x < ratings[n - 1] ==> InDomain((k + 1) as real, (n - k) as real, 1.0 - alpha / 2.0)
  {
    if x >= ratings[0] {
      CountAtLeastOne(ratings, x, 0);
    }
    if x < ratings[|ratings| - 1] {
      CountBelowLength(ratings, x, |ratings| - 1);
    }
  }

  /** The engine's levels are exactly those for which both probabilities
      passed to `incbi` are in its domain. */
  lemma EngineAlphaIff(alpha: real)
    ensures EngineAlpha(alpha) <==> 0.0 < alpha / 2.0 <= 1.0 && 0.0 < 1.0 - alpha / 2.0 <= 1.0
  {
  }

  /** Outside the sample the bounds are exact: below the smallest rating
      nothing is counted and the lower bound is 0, from the largest rating
      on everything is counted and the upper bound is 1. */
  lemma CdfCiBeyondSample(incbi: Incbi, ratings: seq<real>, alpha: real, x: real)
    requires Defined(incbi) && EngineAlpha(alpha) && Sorted(ratings) && |ratings| > 0
    ensures x < ratings[0] ==>
      Count(ratings, x) == 0 && CdfCi(incbi, ratings, alpha, x).lower == 0.0
    ensures x >= ratings[|ratings| - 1] ==>
      Count(ratings, x) == |ratings| && CdfCi(incbi, ratings, alpha, x).upper == 1.0
  {
    CountBeyondSample(ratings, x);
  }

  /** When `incbi` returns values in [0, 1], so does every CDF bound. */
  lemma CdfCiInUnit(incbi: Incbi, ratings: seq<real>, alpha: real, x: real)
    requires UnitValued(incbi) && ValidAlpha(alpha) && |ratings| > 0
    ensures 0.0 <= CdfCi(incbi, ratings, alpha, x).lower <= 1.0
    ensures 0.0 <= CdfCi(incbi, ratings, alpha, x).upper <= 1.0
  {
    var n, k := |ratings|, Count(ratings, x);
    if x >= ratings[0] {
      CountAtLeastOne(ratings, x, 0);
      assert InDomain(k as real, (n - k + 1) as real, alpha / 2.0);
    }
    if x < ratings[n - 1] {
      CountBelowLength(ratings, x, n - 1);
      assert InDomain((k + 1) as real, (n - k) as real, 1.0 - alpha / 2.0);
    }
  }

  /** When the Clopper-Pearson bounds bracket `k / n`, the CDF bounds at
      every threshold bracket the empirical CDF there (the edge shortcuts
      included: there the estimate is 0 or 1 itself). */
  lemma CdfCiBracketsEcdf(incbi: Incbi, ratings: seq<real>, alpha: real, x: real)
    requires Defined(incbi) && ValidAlpha(alpha) && |ratings| > 0
    requires BracketsEstimate(incbi, |ratings|, alpha)
    ensures CdfCi(incbi, ratings, alpha, x).lower <= Count(ratings, x) as real / |ratings| as real
    ensures Count(ratings, x) as real / |ratings| as real <= CdfCi(incbi, ratings, alpha, x).upper
  {
    var n, k := |ratings|, Count(ratings, x);
    var kr, nr := k as real, n as real;
    assert 0.0 <= kr / nr <= 1.0 by {
      assert kr / nr * nr == kr;
    }
    if x >= ratings[0] {
      CountAtLeastOne(ratings, x, 0);
    }
    if x < ratings[n - 1] {
      CountBelowLength(ratings, x, n - 1);
    }
  }

  /** With `incbi` increasing in its probability argument, a larger
      `alpha` gives a larger lower bound and a smaller upper bound. */
  lemma CdfCiNested(incbi: Incbi, ratings: seq<real>, alpha1: real, alpha2: real, x: real)
    requires IncreasingInP(incbi) && ValidAlpha(alpha1) && ValidAlpha(alpha2) && alpha1 <= alpha2
    requires |ratings| > 0
    ensures CdfCi(incbi, ratings, alpha1, x).lower <= CdfCi(incbi, ratings, alpha2, x).lower
    ensures CdfCi(incbi, ratings, alpha2, x).upper <= CdfCi(incbi, ratings, alpha1, x).upper
  {
    var n, k := |ratings|, Count(ratings, x);
    if x >= ratings[0] {
      CountAtLeastOne(ratings, x, 0);
      assert InDomain(k as real, (n - k + 1) as real, alpha1 / 2.0);
      assert InDomain(k as real, (n - k + 1) as real, alpha2 / 2.0);
    }
    if x < ratings[n - 1] {
      CountBelowLength(ratings, x, n - 1);
      assert InDomain((k + 1) as real, (n - k) as real, 1.0 - alpha2 / 2.0);
      assert InDomain((k + 1) as real, (n - k) as real, 1.0 - alpha1 / 2.0);
    }
  }

  // ---------------------------------------------------------------------
  // One window at a time

  /** With CDF bounds in [0, 1], each area the loop adds lies between 0
      and the width of its window. */
  lemma AreasWithinWidth(incbi: Incbi, ratings: seq<real>, alpha: real)
    requires UnitValued(incbi) && ValidAlpha(alpha) && |ratings| > 0
    ensures forall curr, next :: curr <= next ==>
      0.0 <= UpperArea(incbi, ratings, alpha)(curr, next) <= next - curr
    ensures forall curr, next :: curr <= next ==>
      0.0 <= LowerArea(incbi, ratings, alpha)(curr, next) <= next - curr
  {
    forall x
      ensures 0.0 <= UpperCdf(incbi, ratings, alpha)(x) <= 1.0
      ensures 0.0 <= LowerCdf(incbi, ratings, alpha)(x) <= 1.0
    {
      CdfCiInUnit(incbi, ratings, alpha, x);
    }
    AreaOfWithinWidth(UpperCdf(incbi, ratings, alpha));
    AreaOfWithinWidth(LowerCdf(incbi, ratings, alpha));
  }

  /** On an ascending window the empirical-CDF area lies under the upper
      bound's area and over the lower bound's. */
  lemma EcdfAreaBetweenBounds(incbi: Incbi, ratings: seq<real>, alpha: real)
    requires Defined(incbi) && ValidAlpha(alpha) && |ratings| > 0
    requires BracketsEstimate(incbi, |ratings|, alpha)
    ensures forall curr, next :: curr <= next ==>
      EcdfArea(ratings)(curr, next) <= UpperArea(incbi, ratings, alpha)(curr, next)
    ensures forall curr, next :: curr <= next ==>
      LowerArea(incbi, ratings, alpha)(curr, next) <= EcdfArea(ratings)(curr, next)
  {
    forall x
      ensures Ecdf(ratings)(x) <= UpperCdf(incbi, ratings, alpha)(x)
      ensures LowerCdf(incbi, ratings, alpha)(x) <= Ecdf(ratings)(x)
    {
      CdfCiBracketsEcdf(incbi, ratings, alpha, x);
    }
    AreaOfMonotone(Ecdf(ratings), UpperCdf(incbi, ratings, alpha));
    AreaOfMonotone(LowerCdf(incbi, ratings, alpha), Ecdf(ratings));
  }

  /** With `incbi` increasing in `p`, a larger `alpha` shrinks the upper
      bound's area and grows the lower bound's on every ascending window. */
  lemma AreasNested(incbi: Incbi, ratings: seq<real>, alpha1: real, alpha2: real)
    requires IncreasingInP(incbi) && ValidAlpha(alpha1) && ValidAlpha(alpha2) && alpha1 <= alpha2
    requires |ratings| > 0
    ensures forall curr, next :: curr <= next ==>
      UpperArea(incbi, ratings, alpha2)(curr, next) <= UpperArea(incbi, ratings, alpha1)(curr, next)
    ensures forall curr, next :: curr <= next ==>
      LowerArea(incbi, ratings, alpha1)(curr, next) <= LowerArea(incbi, ratings, alpha2)(curr, next)
  {
    forall x
      ensures UpperCdf(incbi, ratings, alpha2)(x) <= UpperCdf(incbi, ratings, alpha1)(x)
      ensures LowerCdf(incbi, ratings, alpha1)(x) <= LowerCdf(incbi, ratings, alpha2)(x)
    {
      CdfCiNested(incbi, ratings, alpha1, alpha2, x);
    }
    AreaOfMonotone(UpperCdf(incbi, ratings, alpha2), UpperCdf(incbi, ratings, alpha1));
    AreaOfMonotone(LowerCdf(incbi, ratings, alpha1), LowerCdf(incbi, ratings, alpha2));
  }

  // ---------------------------------------------------------------------
  // The interval for the mean

  /** The final formulas, on plain numbers: with both bounds in [0, 1]
      and both sums in `[0, max - min]`, the lower end lies in
      `[minSupport, max]` and the upper end in `[min, maxSupport]`. */
  lemma FormulasWithinSupport(minSupport: real, min: real, max: real, maxSupport: real,
                              hi: real, lo: real, s: real, t: real)
    requires minSupport <= min && max <= maxSupport
    requires 0.0 <= hi <= 1.0 && 0.0 <= lo <= 1.0
    requires 0.0 <= s <= max - min && 0.0 <= t <= max - min
    ensures minSupport <= max - (min - minSupport) * hi - s <= max
    ensures min <= maxSupport - (maxSupport - max) * lo - t <= maxSupport
  {
    AreaWithinWidth(min - minSupport, hi, (min - minSupport) * hi);
    AreaWithinWidth(maxSupport - max, lo, (maxSupport - max) * lo);
  }

  /** With CDF bounds in [0, 1], the window sums of a sorted sample lie
      between 0 and the sample's span `max - min`. */
  lemma WindowSumsWithinSpan(incbi: Incbi, ratings: seq<real>, alpha: real)
    requires UnitValued(incbi) && ValidAlpha(alpha) && Sorted(ratings) && |ratings| > 0
    ensures 0.0 <= WindowSum(Dedup(ratings), UpperArea(incbi, ratings, alpha)) <= ratings[|ratings| - 1] - ratings[0]
    ensures 0.0 <= WindowSum(Dedup(ratings), LowerArea(incbi, ratings, alpha)) <= ratings[|ratings| - 1] - ratings[0]
  {
    DedupSorted(ratings);
    AreasWithinWidth(incbi, ratings, alpha);
    WindowSumWithinSpan(Dedup(ratings), UpperArea(incbi, ratings, alpha));
    WindowSumWithinSpan(Dedup(ratings), LowerArea(incbi, ratings, alpha));
  }

  /** The final formulas stay in the support when the window sums lie in
      the sample's span and the CDF bounds in [0, 1]. */
  lemma CombineSumsWithinSupport(incbi: Incbi, ratings: seq<real>, alpha: real, minSupport: real, maxSupport: real,
                                 cdfLowerCiSum: real, cdfUpperCiSum: real)
    requires UnitValued(incbi) && ValidAlpha(alpha) && |ratings| > 0
    requires minSupport <= ratings[0] && ratings[|ratings| - 1] <= maxSupport
    requires 0.0 <= cdfLowerCiSum <= ratings[|ratings| - 1] - ratings[0]
    requires 0.0 <= cdfUpperCiSum <= ratings[|ratings| - 1] - ratings[0]
    ensures var b := CombineSums(incbi, ratings, alpha, minSupport, maxSupport, cdfLowerCiSum, cdfUpperCiSum);
      minSupport <= b.lower <= ratings[|ratings| - 1] && ratings[0] <= b.upper <= maxSupport
  {
    var min, max := ratings[0], ratings[|ratings| - 1];
    CdfCiInUnit(incbi, ratings, alpha, minSupport);
    CdfCiInUnit(incbi, ratings, alpha, max);
    FormulasWithinSupport(minSupport, min, max, maxSupport,
      CdfCi(incbi, ratings, alpha, minSupport).upper, CdfCi(incbi, ratings, alpha, max).lower,
      cdfLowerCiSum, cdfUpperCiSum);
  }

  /** With CDF bounds in [0, 1], the lower end of the interval lies
      between `minSupport` and the largest rating, and the upper end
      between the smallest rating and `maxSupport`. */
  lemma MeanBoundsWithinSupport(incbi: Incbi, ratings: seq<real>, alpha: real, minSupport: real, maxSupport: real)
    requires UnitValued(incbi) && ValidAlpha(alpha) && Sorted(ratings) && |ratings| > 0
    requires minSupport <= ratings[0] && ratings[|ratings| - 1] <= maxSupport
    ensures minSupport <= MeanBounds(incbi, ratings, alpha, minSupport, maxSupport).lower <= ratings[|ratings| - 1]
    ensures ratings[0] <= MeanBounds(incbi, ratings, alpha, minSupport, maxSupport).upper <= maxSupport
  {
    WindowSumsWithinSpan(incbi, ratings, alpha);
    CombineSumsWithinSupport(incbi, ratings, alpha, minSupport, maxSupport,
      WindowSum(Dedup(ratings), UpperArea(incbi, ratings, alpha)),
      WindowSum(Dedup(ratings), LowerArea(incbi, ratings, alpha)));
  }

  /** `get_mean_ci`'s interval lies in the support, and for a non-empty
      sample its lower end is at most the largest rating and its upper
      end at least the smallest. */
  lemma MeanCiWithinSupport(incbi: Incbi, ratings: seq<real>, alpha: real, minSupport: real, maxSupport: real)
    requires UnitValued(incbi) && ValidAlpha(alpha) && Sorted(ratings)
    ensures var r := MeanCi(incbi, ratings, alpha, minSupport, maxSupport);
      r.Ok? ==> minSupport <= r.value.lower && r.value.upper <= maxSupport
    ensures var r := MeanCi(incbi, ratings, alpha, minSupport, maxSupport);
      r.Ok? && |ratings| > 0 ==>
        r.value.lower <= ratings[|ratings| - 1] && ratings[0] <= r.value.upper
  {
    if |ratings| > 0 && minSupport <= ratings[0] && ratings[|ratings| - 1] <= maxSupport {
      MeanBoundsWithinSupport(incbi, ratings, alpha, minSupport, maxSupport);
    }
  }

  /** The window sums of the CDF bounds bracket the window sum of the
      empirical CDF. */
  lemma WindowSumsBracketEcdf(incbi: Incbi, ratings: seq<real>, alpha: real)
    requires Defined(incbi) && ValidAlpha(alpha) && Sorted(ratings) && |ratings| > 0
    requires BracketsEstimate(incbi, |ratings|, alpha)
    ensures WindowSum(Dedup(ratings), LowerArea(incbi, ratings, alpha)) <= WindowSum(Dedup(ratings), EcdfArea(ratings))
    ensures WindowSum(Dedup(ratings), EcdfArea(ratings)) <= WindowSum(Dedup(ratings), UpperArea(incbi, ratings, alpha))
  {
    DedupSorted(ratings);
    EcdfAreaBetweenBounds(incbi, ratings, alpha);
    WindowSumMonotone(Dedup(ratings), LowerArea(incbi, ratings, alpha), EcdfArea(ratings));
    WindowSumMonotone(Dedup(ratings), EcdfArea(ratings), UpperArea(incbi, ratings, alpha));
  }

  /** The final formulas, on plain numbers: with both bounds in [0, 1]
      and `t <= e <= s`, they bracket `max - e`. */
  lemma FormulasBracket(minSupport: real, min: real, max: real, maxSupport: real,
                        hi: real, lo: real, s: real, t: real, e: real)
    requires minSupport <= min && max <= maxSupport
    requires 0.0 <= hi <= 1.0 && 0.0 <= lo <= 1.0
    requires t <= e <= s
    ensures max - (min - minSupport) * hi - s <= max - e
    ensures max - e <= maxSupport - (maxSupport - max) * lo - t
  {
    AreaWithinWidth(min - minSupport, hi, (min - minSupport) * hi);
    AreaWithinWidth(maxSupport - max, lo, (maxSupport - max) * lo);
  }

  /** The final formulas bracket `max - e` when the CDF bounds lie in
      [0, 1] and the two window sums bracket `e`. */
  lemma CombineSumsBracket(incbi: Incbi, ratings: seq<real>, alpha: real, minSupport: real, maxSupport: real,
                           cdfLowerCiSum: real, cdfUpperCiSum: real, e: real)
    requires UnitValued(incbi) && ValidAlpha(alpha) && |ratings| > 0
    requires minSupport <= ratings[0] && ratings[|ratings| - 1] <= maxSupport
    requires cdfUpperCiSum <= e <= cdfLowerCiSum
    ensures var b := CombineSums(incbi, ratings, alpha, minSupport, maxSupport, cdfLowerCiSum, cdfUpperCiSum);
      b.lower <= ratings[|ratings| - 1] - e <= b.upper
  {
    var min, max := ratings[0], ratings[|ratings| - 1];
    CdfCiInUnit(incbi, ratings, alpha, minSupport);
    CdfCiInUnit(incbi, ratings, alpha, max);
    FormulasBracket(minSupport, min, max, maxSupport,
      CdfCi(incbi, ratings, alpha, minSupport).upper, CdfCi(incbi, ratings, alpha, max).lower,
      cdfLowerCiSum, cdfUpperCiSum, e);
  }

  /** When the Clopper-Pearson bounds bracket every `k / n` and lie in
      [0, 1], the interval contains the sample mean `Sum / n`: the
      identity `mean = max - integral of the empirical CDF` with each CDF
      value replaced by a bound on the side that moves the result out. */
  lemma MeanBoundsBracketSampleMean(incbi: Incbi, ratings: seq<real>, alpha: real, minSupport: real, maxSupport: real)
    requires UnitValued(incbi) && ValidAlpha(alpha) && Sorted(ratings) && |ratings| > 0
    requires BracketsEstimate(incbi, |ratings|, alpha)
    requires minSupport <= ratings[0] && ratings[|ratings| - 1] <= maxSupport
    ensures MeanBounds(incbi, ratings, alpha, minSupport, maxSupport).lower <= Sum(ratings) / |ratings| as real
    ensures Sum(ratings) / |ratings| as real <= MeanBounds(incbi, ratings, alpha, minSupport, maxSupport).upper
  {
    WindowSumOfEcdf(ratings);
    WindowSumsBracketEcdf(incbi, ratings, alpha);
    CombineSumsBracket(incbi, ratings, alpha, minSupport, maxSupport,
      WindowSum(Dedup(ratings), UpperArea(incbi, ratings, alpha)),
      WindowSum(Dedup(ratings), LowerArea(incbi, ratings, alpha)),
      WindowSum(Dedup(ratings), EcdfArea(ratings)));
  }

  /** When the lower CDF bound never exceeds the upper one, neither does
      the window sum of the lower bounds exceed that of the upper ones. */
  lemma WindowSumsOrdered(incbi: Incbi, ratings: seq<real>, alpha: real)
    requires Defined(incbi) && ValidAlpha(alpha) && Sorted(ratings) && |ratings| > 0
    requires forall x :: CdfCi(incbi, ratings, alpha, x).lower <= CdfCi(incbi, ratings, alpha, x).upper
    ensures WindowSum(Dedup(ratings), LowerArea(incbi, ratings, alpha))
         <= WindowSum(Dedup(ratings), UpperArea(incbi, ratings, alpha))
  {
    DedupSorted(ratings);
    forall x ensures LowerCdf(incbi, ratings, alpha)(x) <= UpperCdf(incbi, ratings, alpha)(x) {
    }
    AreaOfMonotone(LowerCdf(incbi, ratings, alpha), UpperCdf(incbi, ratings, alpha));
    WindowSumMonotone(Dedup(ratings), LowerArea(incbi, ratings, alpha), UpperArea(incbi, ratings, alpha));
  }

  /** With CDF bounds in [0, 1] and the lower one never above the upper
      one, the interval is not empty: `mean_lower_ci <= mean_upper_ci`. */
  lemma MeanBoundsOrdered(incbi: Incbi, ratings: seq<real>, alpha: real, minSupport: real, maxSupport: real)
    requires UnitValued(incbi) && ValidAlpha(alpha) && Sorted(ratings) && |ratings| > 0
    requires minSupport <= ratings[0] && ratings[|ratings| - 1] <= maxSupport
    requires forall x :: CdfCi(incbi, ratings, alpha, x).lower <= CdfCi(incbi, ratings, alpha, x).upper
    ensures MeanBounds(incbi, ratings, alpha, minSupport, maxSupport).lower
         <= MeanBounds(incbi, ratings, alpha, minSupport, maxSupport).upper
  {
    WindowSumsOrdered(incbi, ratings, alpha);
    var upperSum := WindowSum(Dedup(ratings), LowerArea(incbi, ratings, alpha));
    CombineSumsBracket(incbi, ratings, alpha, minSupport, maxSupport,
      WindowSum(Dedup(ratings), UpperArea(incbi, ratings, alpha)), upperSum, upperSum);
  }

  /** The pointwise hypothesis of `MeanBoundsOrdered` follows from the
      bracketing one: `lower(x) <= k / n <= upper(x)`. */
  lemma CdfCiOrdered(incbi: Incbi, ratings: seq<real>, alpha: real, x: real)
    requires Defined(incbi) && ValidAlpha(alpha) && |ratings| > 0
    requires BracketsEstimate(incbi, |ratings|, alpha)
    ensures CdfCi(incbi, ratings, alpha, x).lower <= CdfCi(incbi, ratings, alpha, x).upper
  {
    CdfCiBracketsEcdf(incbi, ratings, alpha, x);
  }

  /** Under the hypotheses of the sample-mean bracket, the interval is not
      empty: `mean_lower_ci <= mean_upper_ci`. */
  lemma MeanBoundsOrderedBracketing(incbi: Incbi, ratings: seq<real>, alpha: real, minSupport: real, maxSupport: real)
    requires UnitValued(incbi) && ValidAlpha(alpha) && Sorted(ratings) && |ratings| > 0
    requires minSupport <= ratings[0] && ratings[|ratings| - 1] <= maxSupport
    requires BracketsEstimate(incbi, |ratings|, alpha)
    ensures MeanBounds(incbi, ratings, alpha, minSupport, maxSupport).lower
         <= MeanBounds(incbi, ratings, alpha, minSupport, maxSupport).upper
  {
    forall x ensures CdfCi(incbi, ratings, alpha, x).lower <= CdfCi(incbi, ratings, alpha, x).upper {
      CdfCiOrdered(incbi, ratings, alpha, x);
    }
    MeanBoundsOrdered(incbi, ratings, alpha, minSupport, maxSupport);
  }

  /** With `incbi` increasing in `p`, a larger `alpha` gives a smaller
      upper-bound window sum and a larger lower-bound one. */
  lemma WindowSumsNested(incbi: Incbi, ratings: seq<real>, alpha1: real, alpha2: real)
    requires IncreasingInP(incbi) && ValidAlpha(alpha1) && ValidAlpha(alpha2) && alpha1 <= alpha2
    requires Sorted(ratings) && |ratings| > 0
    ensures WindowSum(Dedup(ratings), UpperArea(incbi, ratings, alpha2)) <= WindowSum(Dedup(ratings), UpperArea(incbi, ratings, alpha1))
    ensures WindowSum(Dedup(ratings), LowerArea(incbi, ratings, alpha1)) <= WindowSum(Dedup(ratings), LowerArea(incbi, ratings, alpha2))
  {
    DedupSorted(ratings);
    AreasNested(incbi, ratings, alpha1, alpha2);
    WindowSumMonotone(Dedup(ratings), UpperArea(incbi, ratings, alpha2), UpperArea(incbi, ratings, alpha1));
    WindowSumMonotone(Dedup(ratings), LowerArea(incbi, ratings, alpha1), LowerArea(incbi, ratings, alpha2));
  }

  /** A final formula `top - w * h - s`, on plain numbers, is
      antitone in the bound `h` and in the sum `s` when `w >= 0`. */
  lemma FormulaAntitone(top: real, w: real, h1: real, h2: real, s1: real, s2: real)
    requires 0.0 <= w && h2 <= h1 && s2 <= s1
    ensures top - w * h1 - s1 <= top - w * h2 - s2
  {
    AreaMonotone(w, h2, h1, w * h2, w * h1);
  }

  /** The lower final formula grows with `alpha` when its window sum
      shrinks. */
  lemma CombineSumsLowerNested(incbi: Incbi, ratings: seq<real>, alpha1: real, alpha2: real,
                               minSupport: real, maxSupport: real,
                               lowerSum1: real, upperSum1: real, lowerSum2: real, upperSum2: real)
    requires IncreasingInP(incbi) && ValidAlpha(alpha1) && ValidAlpha(alpha2) && alpha1 <= alpha2
    requires |ratings| > 0 && minSupport <= ratings[0]
    requires lowerSum2 <= lowerSum1
    ensures CombineSums(incbi, ratings, alpha1, minSupport, maxSupport, lowerSum1, upperSum1).lower
         <= CombineSums(incbi, ratings, alpha2, minSupport, maxSupport, lowerSum2, upperSum2).lower
  {
    CdfCiNested(incbi, ratings, alpha1, alpha2, minSupport);
    FormulaAntitone(ratings[|ratings| - 1], ratings[0] - minSupport,
      CdfCi(incbi, ratings, alpha1, minSupport).upper, CdfCi(incbi, ratings, alpha2, minSupport).upper,
      lowerSum1, lowerSum2);
  }

  /** The upper final formula shrinks as `alpha` grows when its window
      sum grows. */
  lemma CombineSumsUpperNested(incbi: Incbi, ratings: seq<real>, alpha1: real, alpha2: real,
                               minSupport: real, maxSupport: real,
                               lowerSum1: real, upperSum1: real, lowerSum2: real, upperSum2: real)
    requires IncreasingInP(incbi) && ValidAlpha(alpha1) && ValidAlpha(alpha2) && alpha1 <= alpha2
    requires |ratings| > 0 && ratings[|ratings| - 1] <= maxSupport
    requires upperSum1 <= upperSum2
    ensures CombineSums(incbi, ratings, alpha2, minSupport, maxSupport, lowerSum2, upperSum2).upper
         <= CombineSums(incbi, ratings, alpha1, minSupport, maxSupport, lowerSum1, upperSum1).upper
  {
    var max := ratings[|ratings| - 1];
    CdfCiNested(incbi, ratings, alpha1, alpha2, max);
    FormulaAntitone(maxSupport, maxSupport - max,
      CdfCi(incbi, ratings, alpha2, max).lower, CdfCi(incbi, ratings, alpha1, max).lower,
      upperSum2, upperSum1);
  }

  /** With `incbi` increasing in `p`, the interval for a larger `alpha`
      lies inside the interval for a smaller one. */
  lemma MeanBoundsNested(incbi: Incbi, ratings: seq<real>, alpha1: real, alpha2: real, minSupport: real, maxSupport: real)
    requires IncreasingInP(incbi) && ValidAlpha(alpha1) && ValidAlpha(alpha2) && alpha1 <= alpha2
    requires Sorted(ratings) && |ratings| > 0
    requires minSupport <= ratings[0] && ratings[|ratings| - 1] <= maxSupport
    ensures MeanBounds(incbi, ratings, alpha1, minSupport, maxSupport).lower
         <= MeanBounds(incbi, ratings, alpha2, minSupport, maxSupport).lower
    ensures MeanBounds(incbi, ratings, alpha2, minSupport, maxSupport).upper
         <= MeanBounds(incbi, ratings, alpha1, minSupport, maxSupport).upper
  {
    WindowSumsNested(incbi, ratings, alpha1, alpha2);
    var lowerSum1 := WindowSum(Dedup(ratings), UpperArea(incbi, ratings, alpha1));
    var upperSum1 := WindowSum(Dedup(ratings), LowerArea(incbi, ratings, alpha1));
    var lowerSum2 := WindowSum(Dedup(ratings), UpperArea(incbi, ratings, alpha2));
    var upperSum2 := WindowSum(Dedup(ratings), LowerArea(incbi, ratings, alpha2));
    CombineSumsLowerNested(incbi, ratings, alpha1, alpha2, minSupport, maxSupport, lowerSum1, upperSum1, lowerSum2, upperSum2);
    CombineSumsUpperNested(incbi, ratings, alpha1, alpha2, minSupport, maxSupport, lowerSum1, upperSum1, lowerSum2, upperSum2);
  }

  /** `get_mean_ci` succeeds or fails independently of `alpha`, and with
      `incbi` increasing in `p` its intervals shrink as `alpha` grows. */
  lemma MeanCiNested(incbi: Incbi, ratings: seq<real>, alpha1: real, alpha2: real, minSupport: real, maxSupport: real)
    requires IncreasingInP(incbi) && ValidAlpha(alpha1) && ValidAlpha(alpha2) && alpha1 <= alpha2
    requires Sorted(ratings)
    ensures MeanCi(incbi, ratings, alpha1, minSupport, maxSupport).Ok? == MeanCi(incbi, ratings, alpha2, minSupport, maxSupport).Ok?
    ensures var r1, r2 := MeanCi(incbi, ratings, alpha1, minSupport, maxSupport), MeanCi(incbi, ratings, alpha2, minSupport, maxSupport);
      r1.Ok? && r2.Ok? ==> r1.value.lower <= r2.value.lower && r2.value.upper <= r1.value.upper
  {
    if |ratings| > 0 && minSupport <= ratings[0] && ratings[|ratings| - 1] <= maxSupport {
      MeanBoundsNested(incbi, ratings, alpha1, alpha2, minSupport, maxSupport);
    }
  }

  // ---------------------------------------------------------------------
  // A constant sample

  /** For a sample whose ratings all equal `c`, the de-duplicated copy is
      `[c]`, the loop adds nothing, and only the two boundary segments
      remain. */
  lemma ConstantSample(incbi: Incbi, ratings: seq<real>, alpha: real, c: real, minSupport: real, maxSupport: real)
    requires Defined(incbi) && EngineAlpha(alpha)
    requires |ratings| > 0 && forall i :: 0 <= i < |ratings| ==> ratings[i] == c
    requires minSupport <= c <= maxSupport
    ensures MeanCi(incbi, ratings, alpha, minSupport, maxSupport) ==
      Ok(Interval(c - (c - minSupport) * CdfCi(incbi, ratings, alpha, minSupport).upper,
                  maxSupport - (maxSupport - c) * CdfCi(incbi, ratings, alpha, c).lower))
  {
    DedupConstant(ratings, c);
    assert WindowSum(Dedup(ratings), UpperArea(incbi, ratings, alpha)) == 0.0;
    assert WindowSum(Dedup(ratings), LowerArea(incbi, ratings, alpha)) == 0.0;
    assert ratings[0] == c && ratings[|ratings| - 1] == c;
    assert MeanBounds(incbi, ratings, alpha, minSupport, maxSupport)
        == CombineSums(incbi, ratings, alpha, minSupport, maxSupport, 0.0, 0.0);
    assert CombineSums(incbi, ratings, alpha, minSupport, maxSupport, 0.0, 0.0).lower
        == c - (c - minSupport) * CdfCi(incbi, ratings, alpha, minSupport).upper;
    assert CombineSums(incbi, ratings, alpha, minSupport, maxSupport, 0.0, 0.0).upper
        == maxSupport - (maxSupport - c) * CdfCi(incbi, ratings, alpha, c).lower;
  }

  /** With CDF bounds in [0, 1], the interval for a constant sample
      contains its value. */
  lemma ConstantSampleContainsValue(incbi: Incbi, ratings: seq<real>, alpha: real, c: real, minSupport: real, maxSupport: real)
    requires UnitValued(incbi) && ValidAlpha(alpha)
    requires |ratings| > 0 && forall i :: 0 <= i < |ratings| ==> ratings[i] == c
    requires minSupport <= c <= maxSupport
    ensures var r := MeanCi(incbi, ratings, alpha, minSupport, maxSupport);
      r.Ok? && r.value.lower <= c <= r.value.upper
  {
    assert Sorted(ratings);
    MeanBoundsWithinSupport(incbi, ratings, alpha, minSupport, maxSupport);
  }
}
