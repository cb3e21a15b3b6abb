# mean_ci: a distribution-free confidence interval for a bounded mean

`get_mean_ci` (src/evaluate.rs) takes a sample of ratings known to lie in
`[min_support, max_support]` and a significance level `alpha`. It returns a
`100(1 - alpha)%` confidence interval for the mean. It bounds the empirical
CDF at every distinct rating with an exact Clopper-Pearson interval, which is
an inverse regularized incomplete beta function (`incbi`). It then integrates
those bounds piecewise: `E[X] = max_support - integral of F` over the support.
It has four call sites:
- src/data.rs:43 sorts the ratings it reads (src/data.rs:21) and rejects an
  `alpha` outside `(0, 1)` first (src/data.rs:36-38).
- src/scrapers/aoty_scraper.rs:85 sorts (src/scrapers/aoty_scraper.rs:61),
  but passes its parsed `alpha` unchecked.
- src/websites/aoty.rs:153 and :196 pass the `--alpha` option of
  src/main.rs:19-20 (default 0.1) unchecked. Their ratings are the scraped
  list, reversed at src/websites/aoty.rs:120 because the site lists ratings
  in descending order; they are not sorted.

Each caller reports the sample size, the point mean and the interval.

The Dafny model has seven modules:

- `Wrappers`: `Option` and `Result`.
- `IncompleteBeta`: `incbi` as a partial function parameter, with the domain
  on which it is defined (both shape parameters positive, probability in
  `(0, 1]`). It also holds the hypotheses the interval lemmas take about it:
  values in `[0, 1]`, and increasing in the probability.
- `Sample`: the sample functions.
  - `Count`, the number of ratings at most `x`.
  - `Sum`.
  - `Dedup`, which is `Vec::dedup`: adjacent duplicates are removed.
  - `WindowSum`, the sum of an area over the `windows(2)` of a sequence.
  - The step-function areas.
  - Their lemmas, including summation by parts: over a sorted sample, the
    window sum of `Count` areas is `n * max - sum`.
- `EmpiricalMean`: over the distinct ratings, the integral of the empirical
  CDF equals `max - mean`.
- `Evaluate`: the engine.
  - `CdfCi` is the closure `get_cdf_ci`.
  - `MeanCi` is the function the engine computes. `MeanBounds` and
    `CombineSums` give its final formulas for a sample inside the support.
  - `GetMeanCi` is the imperative engine. It copies the ratings into an
    array and de-duplicates the copy in place (`DedupInPlace`). It then runs
    the loop over the windows (`AccumulateWindows`) and applies the final
    formulas. It is proved equal to `MeanCi`.
- `EvaluateProperties`, which proves four groups of properties:
  - the empty-sample and support-error behaviour;
  - that every bound stays inside the support;
  - that the interval contains the sample mean;
  - nesting in `alpha`, and the constant-sample case.
- `Data`: the caller.
  - `EvaluateSample` checks `alpha` first and then builds the record
    `ConfidenceInterval(n, mean, lower_bound, upper_bound)`.

Four facts about the engine shape the model:

- **Sorting.** `get_mean_ci` does not sort. It takes `ratings[0]` and
  `ratings[n - 1]` as the minimum and maximum, and relies on its input
  being in ascending order. The engine model is therefore defined on every
  sequence. Only the lemmas
  about the interval require a sorted sample. Likewise, the support check
  (`SupportErrorIff`) is equivalent to "some rating is outside the support"
  only for sorted input.
- **Alpha check.** `get_mean_ci` does not check `alpha`. Among the callers
  only src/data.rs:36-38 does, and the engine uses `alpha` only on the
  path that passes the support check of a non-empty sample
  (`ReachesBounds`). `MeanCi` and `GetMeanCi` therefore take any `alpha`
  for an empty sample or one that fails the support check. On the
  remaining path they require `alpha` in `(0, 2)` (`EngineAlpha`), as do
  the functions that path calls. `(0, 2)` is exactly the range for which
  both probabilities handed to `incbi`, `alpha / 2` and `1 - alpha / 2`,
  lie in its domain `(0, 1]`. The lemmas about the interval take `0 < alpha < 1`
  (`ValidAlpha`), the confidence levels. The check of src/data.rs is
  modelled in `Data.EvaluateSample`.
- **Return value.** The engine returns the pair `[mean_lower_ci,
  mean_upper_ci]` (`Interval`). The record with `n` and the mean is
  assembled in `Data`, in the shape src/websites/aoty.rs:160-161 reads
  (`n`, `lower_bound`, an optional `mean`, `upper_bound`). That caller
  (src/websites/aoty.rs:153) expects `get_mean_ci` to return this record,
  but src/evaluate.rs:4 returns the pair. The model follows src/evaluate.rs
  for the engine.
- **Panics.** The two support panics are modelled as the two `SupportError`
  values.

## Model

| member | source | states |
|---|---|---|
| Evaluate.GetMeanCi | src/evaluate.rs:4-42 | the engine returns exactly the function `MeanCi`: the whole support for an empty sample, each of the two support errors, otherwise the two final formulas over the de-duplicated windows |
| Evaluate.MeanCi | src/evaluate.rs:4-42 | definition of what the engine returns (empty sample, the two support errors, `MeanBounds`), no contract; its properties are the `EvaluateProperties` lemmas below |
| Evaluate.MeanBounds | src/evaluate.rs:29-40 | definition of the two final formulas applied to the window sums over `Dedup(ratings)`, no contract |
| Evaluate.CombineSums | src/evaluate.rs:39-40 | definition of the two final formulas from given sums, no contract |
| Evaluate.CdfCi | src/evaluate.rs:18-28 | definition of the closure `get_cdf_ci`, no contract; its well-formedness proves that `incbi` is called only with positive shapes and a probability in `(0, 1]` |
| Evaluate.LowerQuantile | src/evaluate.rs:22 | definition of the lower Clopper-Pearson call `incbi(k, n - k + 1, alpha / 2)`, no contract |
| Evaluate.UpperQuantile | src/evaluate.rs:25 | definition of the upper Clopper-Pearson call `incbi(k + 1, n - k, 1 - alpha / 2)`, no contract |
| Evaluate.UpperCdf | src/evaluate.rs:35 | definition of `get_cdf_ci(x)[1]` as a function of the threshold, no contract |
| Evaluate.LowerCdf | src/evaluate.rs:35 | definition of `get_cdf_ci(x)[0]` as a function of the threshold, no contract |
| Evaluate.UpperArea | src/evaluate.rs:36 | definition of the addend `(next - curr) * upper_cdf_ci` of `cdf_lower_ci_sum`, no contract |
| Evaluate.LowerArea | src/evaluate.rs:37 | definition of the addend `(next - curr) * lower_cdf_ci` of `cdf_upper_ci_sum`, no contract |
| Evaluate.AccumulateWindows | src/evaluate.rs:29-38 | starting from 0, after the loop over `windows(2)` the two running sums are the window sums of `(next - curr) * upper(curr)` and `(next - curr) * lower(curr)`; the loop invariant keeps this for every prefix |
| Evaluate.DedupInPlace | src/evaluate.rs:31-32 | in-place dedup of the clone: the first `len` cells hold `Dedup` of the original contents |
| EvaluateProperties.EmptySample | src/evaluate.rs:5-8 | an empty sample gives exactly `[min_support, max_support]` for every `alpha` |
| EvaluateProperties.SupportErrorIff | src/evaluate.rs:9-15 | for a sorted sample the engine fails exactly when some rating lies outside the support (the check looks only at the first and last ratings) |
| EvaluateProperties.SupportErrorAnyAlpha | src/evaluate.rs:9-15 | for every `alpha`, a sorted sample with a rating outside the support never reaches the final formulas and is rejected |
| EvaluateProperties.IncbiArgumentsInDomain | src/evaluate.rs:19-26 | when `x >= min` the lower call's arguments `(k, n - k + 1, alpha / 2)`, and when `x < max` the upper call's `(k + 1, n - k, 1 - alpha / 2)`, lie in the domain of `incbi` |
| EvaluateProperties.EngineAlphaIff | src/evaluate.rs:22-25 | the engine's `alpha` range `(0, 2)` is exactly the set on which both `alpha / 2` and `1 - alpha / 2` are in `(0, 1]` |
| EvaluateProperties.CdfCiBeyondSample | src/evaluate.rs:20-26 | for a sorted sample, below the minimum nothing is counted and the lower bound is exactly 0; from the maximum on all `n` ratings are counted and the upper bound is exactly 1 |
| EvaluateProperties.CdfCiInUnit | src/evaluate.rs:18-28 | when `incbi` maps into `[0, 1]`, both CDF bounds at every threshold are in `[0, 1]` |
| EvaluateProperties.CdfCiBracketsEcdf | src/evaluate.rs:18-28 | when the Clopper-Pearson bounds bracket `k / n`, `lower(x) <= ecdf(x) <= upper(x)` at every threshold |
| EvaluateProperties.CdfCiNested | src/evaluate.rs:22-25 | a smaller alpha gives a lower bound no larger and an upper bound no smaller at every threshold |
| EvaluateProperties.AreasWithinWidth | src/evaluate.rs:36-37 | each window's added area is between 0 and the window's width |
| EvaluateProperties.EcdfAreaBetweenBounds | src/evaluate.rs:36-37 | each window's empirical-CDF area lies between the two added areas |
| EvaluateProperties.AreasNested | src/evaluate.rs:36-37 | per window, the added areas move apart as alpha decreases |
| EvaluateProperties.WindowSumsWithinSpan | src/evaluate.rs:33-38 | both accumulated sums are between 0 and `max - min` |
| EvaluateProperties.CombineSumsWithinSupport | src/evaluate.rs:39-40 | the final formulas, for sums in `[0, max - min]`, give `min_support <= lower <= max` and `min <= upper <= max_support` |
| EvaluateProperties.MeanBoundsWithinSupport | src/evaluate.rs:29-40 | for a sorted sample inside the support, `min_support <= lower <= max` and `min <= upper <= max_support` |
| EvaluateProperties.MeanCiWithinSupport | src/evaluate.rs:4-42 | every successful result lies inside `[min_support, max_support]` |
| EvaluateProperties.WindowSumsBracketEcdf | src/evaluate.rs:33-38 | the accumulated `cdf_upper_ci_sum <= integral of ecdf <= cdf_lower_ci_sum` over the distinct ratings |
| EvaluateProperties.CombineSumsBracket | src/evaluate.rs:39-40 | the final formulas put `max - e` between the two ends whenever `e` lies between the two sums |
| EvaluateProperties.MeanBoundsBracketSampleMean | src/evaluate.rs:29-40 | under the bracketing hypothesis, `mean_lower_ci <= sum / n <= mean_upper_ci` |
| EvaluateProperties.WindowSumsOrdered | src/evaluate.rs:33-38 | when `lower(x) <= upper(x)` everywhere, `cdf_upper_ci_sum <= cdf_lower_ci_sum` |
| EvaluateProperties.CdfCiOrdered | src/evaluate.rs:18-28 | under the bracketing hypothesis, `lower(x) <= upper(x)` at every threshold |
| EvaluateProperties.MeanBoundsOrderedBracketing | src/evaluate.rs:29-40 | under the hypotheses of the sample-mean bracket (`incbi` in `[0, 1]`, bounds bracketing `k / n`), `mean_lower_ci <= mean_upper_ci` |
| EvaluateProperties.MeanBoundsOrdered | src/evaluate.rs:39-40 | when `lower(x) <= upper(x)` everywhere, `mean_lower_ci <= mean_upper_ci` |
| EvaluateProperties.WindowSumsNested | src/evaluate.rs:33-38 | a smaller alpha gives a larger `cdf_lower_ci_sum` and a smaller `cdf_upper_ci_sum` |
| EvaluateProperties.CombineSumsLowerNested | src/evaluate.rs:39 | the lower formula is antitone in the upper CDF bound at `min_support` and in the lower sum |
| EvaluateProperties.CombineSumsUpperNested | src/evaluate.rs:40 | the upper formula is antitone in the lower CDF bound at `max` and in the upper sum |
| EvaluateProperties.MeanBoundsNested | src/evaluate.rs:29-40 | for `alpha1 <= alpha2` the `alpha1` interval contains the `alpha2` interval |
| EvaluateProperties.MeanCiNested | src/evaluate.rs:4-42 | the engine succeeds for both levels or for neither, and the higher-confidence interval contains the other |
| EvaluateProperties.ConstantSample | src/evaluate.rs:29-40 | a constant sample `c` has no window, so the interval is `[c - (c - min_support) * upper(min_support), max_support - (max_support - c) * lower(c)]` |
| EvaluateProperties.ConstantSampleContainsValue | src/evaluate.rs:29-40 | a constant sample's interval contains `c` |
| Sample.Count | src/evaluate.rs:19 | the number of ratings at most `x` is at most `n` |
| Sample.CountAtLeastOne | src/evaluate.rs:21-22 | a rating at most `x` makes the count at least 1 |
| Sample.CountBelowLength | src/evaluate.rs:24-25 | a rating above `x` makes the count at most `n - 1` |
| Sample.CountMonotone | src/evaluate.rs:19 | the count is monotone in the threshold |
| Sample.CountSplit | src/evaluate.rs:19 | when the first `m` ratings are at most `x` and the rest above it, the count is `m` |
| Sample.CountAtRank | src/evaluate.rs:19 | at the last copy of the `i`-th sorted rating the count is `i + 1` |
| Sample.CountBeyondSample | src/evaluate.rs:19-26 | for a sorted sample, the count is 0 below the minimum and `n` from the maximum on |
| Sample.Sum | src/data.rs:42 | definition of the sum of the ratings, no contract |
| Sample.WindowSum | src/evaluate.rs:33-38 | definition of the sum of an area over the `windows(2)` of a sequence, no contract |
| Sample.Dedup | src/evaluate.rs:31-32 | dedup is no longer than its input and keeps its first and last elements |
| Sample.DedupSameElements | src/evaluate.rs:31-32 | dedup keeps exactly the values of its input |
| Sample.DedupNoAdjacentDuplicates | src/evaluate.rs:31-32 | no two adjacent values of the dedup are equal |
| Sample.DedupStrictlyIncreasing | src/evaluate.rs:31-32 | the dedup of a sorted sample is strictly increasing |
| Sample.DedupSorted | src/evaluate.rs:31-32 | the dedup of a sorted sample is sorted |
| Sample.DedupConstant | src/evaluate.rs:31-32 | the dedup of a constant sample is the one value |
| Sample.WindowSumDedup | src/evaluate.rs:31-38 | for an area that vanishes on empty windows, summing over the dedup of any sequence equals summing over the sequence itself |
| Sample.WindowSumStep | src/evaluate.rs:33-38 | one more window adds exactly its area to the window sum |
| Sample.WindowSumOfWidths | src/evaluate.rs:33-38 | the widths of the windows telescope to `last - first` |
| Sample.WidthsTelescope | src/evaluate.rs:31-38 | the widths of the windows of `Dedup(s)` sum to `s[n - 1] - s[0]`, which is `max - min` for a sorted sample |
| Sample.WindowSumMonotone | src/evaluate.rs:33-38 | a pointwise larger area gives a larger window sum over a sorted sequence |
| Sample.WindowSumWithinSpan | src/evaluate.rs:33-38 | an area bounded by the width gives a window sum in `[0, last - first]` |
| Sample.WindowSumScale | src/evaluate.rs:33-38 | scaling the area scales the window sum |
| Sample.AreaOfWithinWidth | src/evaluate.rs:36-37 | a step function in `[0, 1]` puts an area between 0 and the width over each window |
| Sample.AreaOfMonotone | src/evaluate.rs:36-37 | a pointwise larger step function gives a larger area over each window |
| Sample.CountAreaAtRank | src/evaluate.rs:36-37 | over the sorted window `[s[i], s[i + 1]]` the count area is `(i + 1) * width` |
| Sample.WindowSumOfCountsPrefix | src/evaluate.rs:33-38 | over a sorted prefix of length `m`, the window sum of count areas is `m * s[m - 1] - sum` (summation by parts) |
| Sample.WindowSumOfCounts | src/evaluate.rs:33-38 | over a sorted sample, the window sum of count areas is `n * max - sum` |
| EmpiricalMean.CountAreaScales | src/evaluate.rs:36-37 | the empirical-CDF area is the count area divided by `n` |
| EmpiricalMean.WindowSumEcdfScale | src/evaluate.rs:33-38 | the window sum of empirical-CDF areas is the count-area sum divided by `n` |
| EmpiricalMean.EcdfWindowSumDedup | src/evaluate.rs:31-38 | summing empirical-CDF areas over the distinct ratings equals the sum over the sample |
| EmpiricalMean.CountAreaMean | src/evaluate.rs:33-38 | over a sorted sample, one `n`-th of the count-area sum is `max - mean` |
| EmpiricalMean.WindowSumOfEcdf | src/evaluate.rs:31-38 | over the distinct ratings, the integral of the empirical CDF from `min` to `max` is `max - sum / n` |
| Data.Mean | src/data.rs:41-42 | definition of the point mean `sum / n`, absent for an empty sample, no contract |
| Data.EvaluateSample | src/data.rs:36-43 | definition of the caller: the alpha check, then the engine, then the record, no contract; its properties are the three `Data` lemmas |
| Data.EvaluateSampleErrors | src/data.rs:36-43 | the evaluation fails on alpha exactly when `alpha` is outside `(0, 1)`, and on the support exactly when alpha is valid and a rating of the sorted sample lies outside the support |
| Data.EvaluateSampleMeanPresent | src/websites/aoty.rs:160-161 | a result reports `n`, a mean exactly when `n >= 1`, and for an empty sample the whole support |
| Data.EvaluateSampleOrdered | src/data.rs:41-43 | for a non-empty sorted sample under the `incbi` hypotheses, a result has `min_support <= lower <= mean <= upper <= max_support` |

## Left out

- `incbi` (cephes `incbi`) is not part of this model. It is a function
  parameter defined on positive shapes and probabilities in `(0, 1]`. The
  Clopper-Pearson properties the interval lemmas use (values in `[0, 1]`,
  increasing in the probability, bounds around `k / n`) are hypotheses:
  `UnitValued`, `IncreasingInP` and `BracketsEstimate`.
- Floating point: `f64` is modelled as `real`. Rounding, NaN and infinities
  are not captured. In particular, the mean of an empty sample (`0 / 0`,
  NaN, at src/data.rs:42) is modelled as an absent mean (`None`).
- The statistical coverage of the interval, i.e. its probability of holding
  the true mean, is not stated. Only the deterministic properties of the
  construction are proved.
- Panics: the two support panics become `Err` values. The file-open
  `expect` of src/data.rs:9 and the argument-parsing `expect`s of
  src/data.rs:27-35 and src/scrapers/aoty_scraper.rs:67-78 are not
  modelled; src/main.rs parses its options with clap.
- Reading ratings from files (src/data.rs), scraping and HTTP with pacing
  (src/scrapers/aoty_scraper.rs), command-line handling (src/main.rs), the
  re-ranking and printing in src/websites/aoty.rs: I/O outside the engine.
- Sorting is not modelled. src/data.rs and src/scrapers/aoty_scraper.rs
  sort with `total_cmp`; src/websites/aoty.rs only reverses the scraped
  list. The interval lemmas take "sorted" as a hypothesis.
- Evaluate.MeanCi and Evaluate.GetMeanCi require `0 < alpha < 2` only on
  the path that reaches the final formulas: a non-empty sample that passes
  the support check. The engine accepts any `alpha` there too, and
  src/scrapers/aoty_scraper.rs and src/websites/aoty.rs pass theirs
  unchecked. For `alpha <= 0` or `alpha >= 2` on that path, one of the
  probabilities `alpha / 2` and `1 - alpha / 2` falls outside `(0, 1]`. The
  `incbi` calls are then outside its modelled domain, and the model does
  not describe the result. The empty sample and the two support errors are
  modelled for every `alpha`. For `1 <= alpha < 2` the engine is modelled,
  but the interval lemmas do not cover it, because such an `alpha` is no
  confidence level.
- EvaluateProperties.MeanBoundsOrdered and Data.EvaluateSampleOrdered: ordering
  of the two ends is proved under a hypothesis on `incbi`, not for every
  `incbi`, because the code never compares the two bounds itself. The
  hypothesis is `lower(x) <= upper(x)`, respectively bracketing of `k / n`.
  `MeanBoundsOrderedBracketing` derives the first case from the second
  (via `CdfCiOrdered`).
- Evaluate.GetMeanCi: the ratings are a `seq`, so the read-only borrow is
  trivially respected. Only the clone is an array that is updated in place.
