/** The caller that evaluates a data file: it rejects a significance level
    outside (0, 1) before anything else, then reports the number of
    ratings, their mean and the interval `get_mean_ci` returns. */
module Data {
  import opened Wrappers
  import opened IncompleteBeta
  import opened Sample
  import opened Evaluate
  import opened EvaluateProperties

  /** The record a caller reads back: the sample size, the point mean
      (present only for a non-empty sample) and the two ends of the
      interval. */
  datatype ConfidenceInterval = ConfidenceInterval(n: nat, mean: Option<real>, lowerBound: real, upperBound: real)

  /** The two ways the evaluation stops: the significance-level check and
      the engine's support check. */
  datatype Error =
    | InvalidAlpha(alpha: real)
    | OutOfSupport(cause: SupportError)

  /** The point mean `sum / n`; the empty sample has none. */
  function Mean(ratings: seq<real>): Option<real> {
    if |ratings| == 0 then None else Some(Sum(ratings) / |ratings| as real)
  }

  /** The evaluation: the significance level is checked first, then the
      engine runs and its interval is reported together with `n` and the
      mean. */
  function EvaluateSample(incbi: Incbi, ratings: seq<real>, alpha: real, minSupport: real, maxSupport: real)
    : Result<ConfidenceInterval, Error>
    requires Defined(incbi)
  {
    if alpha <= 0.0 || alpha >= 1.0 then Err(InvalidAlpha(alpha))
    else
      match MeanCi(incbi, ratings, alpha, minSupport, maxSupport)
      case Err(e) => Err(OutOfSupport(e))
      case Ok(iv) => Ok(ConfidenceInterval(|ratings|, Mean(ratings), iv.lower, iv.upper))
  }

  /** The evaluation fails on the significance level exactly when it is
      outside (0, 1), and on the support exactly when the level is valid
      and the sorted sample has a rating outside the support. */
  lemma EvaluateSampleErrors(incbi: Incbi, ratings: seq<real>, alpha: real, minSupport: real, maxSupport: real)
    requires Defined(incbi) && Sorted(ratings)
    ensures var r := EvaluateSample(incbi, ratings, alpha, minSupport, maxSupport);
      (r.Err? && r.error.InvalidAlpha?) <==> !ValidAlpha(alpha)
    ensures var r := EvaluateSample(incbi, ratings, alpha, minSupport, maxSupport);
      (r.Err? && r.error.OutOfSupport?) <==>
        ValidAlpha(alpha) &&
        exists i :: 0 <= i < |ratings| && (ratings[i] < minSupport || ratings[i] > maxSupport)
  {
    if ValidAlpha(alpha) {
      SupportErrorIff(incbi, ratings, alpha, minSupport, maxSupport);
    }
  }

  /** A successful evaluation reports the sample size, and a mean exactly
      when the sample is non-empty. */
  lemma EvaluateSampleMeanPresent(incbi: Incbi, ratings: seq<real>, alpha: real, minSupport: real, maxSupport: real)
    requires Defined(incbi)
    ensures var r := EvaluateSample(incbi, ratings, alpha, minSupport, maxSupport);
      r.Ok? ==> r.value.n == |ratings| && (r.value.mean.Some? <==> r.value.n >= 1)
    ensures var r := EvaluateSample(incbi, ratings, alpha, minSupport, maxSupport);
      r.Ok? && |ratings| == 0 ==> r.value.lowerBound == minSupport && r.value.upperBound == maxSupport
  {
  }

  /** Under the hypotheses on `incbi` (values in [0, 1], bounds that
      bracket `k / n`), a successful evaluation of a non-empty sorted
      sample reports `minSupport <= lower <= mean <= upper <= maxSupport`. */
  lemma EvaluateSampleOrdered(incbi: Incbi, ratings: seq<real>, alpha: real, minSupport: real, maxSupport: real)
    requires UnitValued(incbi) && Sorted(ratings) && |ratings| > 0
    requires ValidAlpha(alpha) ==> BracketsEstimate(incbi, |ratings|, alpha)
    ensures var r := EvaluateSample(incbi, ratings, alpha, minSupport, maxSupport);
      r.Ok? ==>
        r.value.mean.Some? &&
        minSupport <= r.value.lowerBound <= r.value.mean.value <= r.value.upperBound <= maxSupport
  {
    if ValidAlpha(alpha) && minSupport <= ratings[0] && ratings[|ratings| - 1] <= maxSupport {
      MeanBoundsWithinSupport(incbi, ratings, alpha, minSupport, maxSupport);
      MeanBoundsBracketSampleMean(incbi, ratings, alpha, minSupport, maxSupport);
    }
  }
}
