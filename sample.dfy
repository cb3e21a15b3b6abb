/** The sample the engine works on: a sequence of ratings, with the derived
    quantities `get_mean_ci` uses (the count of ratings at most a threshold,
    the de-duplicated copy, the sum over consecutive windows) and the
    algebraic facts about them that the interval rests on. */
module Sample {

  /** Ascending order with duplicates allowed: the order every caller sorts
      the ratings into before calling the engine. */
  ghost predicate Sorted(s: seq<real>) {
    forall i, j :: 0 <= i <= j < |s| ==> s[i] <= s[j]
  }

  ghost predicate StrictlyIncreasing(s: seq<real>) {
    forall i, j :: 0 <= i < j < |s| ==> s[i] < s[j]
  }

  /** The number of ratings that are at most `x` (a filter and a count). */
  function Count(s: seq<real>, x: real): (k: nat)
    ensures k <= |s|
  {
    if |s| == 0 then 0
    else Count(s[..|s| - 1], x) + (if s[|s| - 1] <= x then 1 else 0)
  }

  /** The sum of the ratings, as the callers compute it for the point mean. */
  function Sum(s: seq<real>): real {
    if |s| == 0 then 0.0 else Sum(s[..|s| - 1]) + s[|s| - 1]
  }

  /** `Vec::dedup`: every run of equal adjacent values collapses to one. */
  function Dedup(s: seq<real>): (r: seq<real>)
    ensures |r| <= |s|
    ensures |s| > 0 ==> |r| > 0 && r[0] == s[0] && r[|r| - 1] == s[|s| - 1]
  {
    if |s| <= 1 then s
    else
      var d := Dedup(s[..|s| - 1]);
      if s[|s| - 1] == s[|s| - 2] then d else d + [s[|s| - 1]]
  }

  /** The sum of `area(curr, next)` over the consecutive windows
      `[curr, next]` of `u`, in ascending order of the windows: the
      iteration over `windows(2)`. */
  function WindowSum(u: seq<real>, area: (real, real) -> real): real {
    if |u| < 2 then 0.0
    else WindowSum(u[..|u| - 1], area) + area(u[|u| - 2], u[|u| - 1])
  }

  /** The width `next - curr` of a window. */
  function Width(curr: real, next: real): real {
    next - curr
  }

  /** The area a step function `h` puts over a window: its width times
      the height of `h` at the window's left end. */
  function AreaOf(h: real -> real): (real, real) -> real {
    (curr, next) => (next - curr) * h(curr)
  }

  /** The count curve `x |-> Count(s, x)`. */
  function CountOf(s: seq<real>): real -> real {
    x => Count(s, x) as real
  }

  /** The empirical CDF `x |-> Count(s, x) / n`. */
  function Ecdf(s: seq<real>): real -> real
    requires |s| > 0
  {
    x => Count(s, x) as real / |s| as real
  }

  /** The area under the count curve on a window: `(next - curr) * Count(curr)`. */
  function CountArea(s: seq<real>): (real, real) -> real {
    AreaOf(CountOf(s))
  }

  /** The area under the empirical CDF on a window:
      `(next - curr) * Count(curr) / n`. */
  function EcdfArea(s: seq<real>): (real, real) -> real
    requires |s| > 0
  {
    AreaOf(Ecdf(s))
  }

  // ---------------------------------------------------------------------
  // Arithmetic on one window

  /** An area `a = w * h` of a height in [0, 1] lies between 0 and the
      width `w`. */
  lemma AreaWithinWidth(w: real, h: real, a: real)
    requires 0.0 <= w && 0.0 <= h <= 1.0 && a == w * h
    ensures 0.0 <= a <= w
  {
  }

  /** A non-negative width preserves the order of heights. */
  lemma AreaMonotone(w: real, h1: real, h2: real, a1: real, a2: real)
    requires 0.0 <= w && h1 <= h2 && a1 == w * h1 && a2 == w * h2
    ensures a1 <= a2
  {
    assert w * h2 - w * h1 == w * (h2 - h1);
  }

  /** Heights in [0, 1] give areas between 0 and the width on every
      ascending window. */
  lemma AreaOfWithinWidth(h: real -> real)
    requires forall x :: 0.0 <= h(x) <= 1.0
    ensures forall curr, next :: curr <= next ==> 0.0 <= AreaOf(h)(curr, next) <= next - curr
  {
    forall curr, next | curr <= next
      ensures 0.0 <= AreaOf(h)(curr, next) <= next - curr
    {
      AreaWithinWidth(next - curr, h(curr), AreaOf(h)(curr, next));
    }
  }

  /** A pointwise larger step function has the larger area on every
      ascending window. */
  lemma AreaOfMonotone(h1: real -> real, h2: real -> real)
    requires forall x :: h1(x) <= h2(x)
    ensures forall curr, next :: curr <= next ==> AreaOf(h1)(curr, next) <= AreaOf(h2)(curr, next)
  {
    forall curr, next | curr <= next
      ensures AreaOf(h1)(curr, next) <= AreaOf(h2)(curr, next)
    {
      AreaMonotone(next - curr, h1(curr), h2(curr), AreaOf(h1)(curr, next), AreaOf(h2)(curr, next));
    }
  }

  // ---------------------------------------------------------------------
  // Count

  /** A threshold at or above some rating counts at least that rating. */
  lemma {:induction false} CountAtLeastOne(s: seq<real>, x: real, i: int)
    requires 0 <= i < |s| && s[i] <= x
    ensures Count(s, x) >= 1
  {
    if i < |s| - 1 {
      CountAtLeastOne(s[..|s| - 1], x, i);
    }
  }

  /** A threshold below some rating misses at least that rating. */
  lemma {:induction false} CountBelowLength(s: seq<real>, x: real, i: int)
    requires 0 <= i < |s| && x < s[i]
    ensures Count(s, x) <= |s| - 1
  {
    if i < |s| - 1 {
      CountBelowLength(s[..|s| - 1], x, i);
    }
  }

  /** The count is non-decreasing in the threshold. */
  lemma {:induction false} CountMonotone(s: seq<real>, x: real, y: real)
    requires x <= y
    ensures Count(s, x) <= Count(s, y)
  {
    if |s| > 0 {
      CountMonotone(s[..|s| - 1], x, y);
    }
  }

  /** When exactly the first `m` ratings are at most `x`, the count is `m`. */
  lemma {:induction false} CountSplit(s: seq<real>, x: real, m: int)
    requires 0 <= m <= |s|
    requires forall j :: 0 <= j < m ==> s[j] <= x
    requires forall j :: m <= j < |s| ==> x < s[j]
    ensures Count(s, x) == m
  {
    if |s| > 0 {
      var t := s[..|s| - 1];
      if m == |s| {
        CountSplit(t, x, m - 1);
      } else {
        CountSplit(t, x, m);
      }
    }
  }

  /** In a sorted sample, the count at the last copy of a value is one
      past its index: the empirical CDF at `s[i]` is `(i + 1) / n`. */
  lemma CountAtRank(s: seq<real>, i: int)
    requires Sorted(s) && 0 <= i < |s|
    requires i == |s| - 1 || s[i] < s[i + 1]
    ensures Count(s, s[i]) == i + 1
  {
    CountSplit(s, s[i], i + 1);
  }

  /** In a sorted sample, nothing is counted below the minimum and
      everything is counted from the maximum on. */
  lemma CountBeyondSample(s: seq<real>, x: real)
    requires Sorted(s) && |s| > 0
    ensures x < s[0] ==> Count(s, x) == 0
    ensures x >= s[|s| - 1] ==> Count(s, x) == |s|
  {
    if x < s[0] {
      CountSplit(s, x, 0);
    }
    if x >= s[|s| - 1] {
      CountSplit(s, x, |s|);
    }
  }

  // ---------------------------------------------------------------------
  // Dedup

  /** De-duplication keeps exactly the values of the input. */
  lemma {:induction false} DedupSameElements(s: seq<real>)
    ensures forall x :: x in Dedup(s) <==> x in s
  {
    if |s| > 1 {
      var t := s[..|s| - 1];
      DedupSameElements(t);
      assert s == t + [s[|s| - 1]];
    }
  }

  /** No two adjacent values of the result are equal, whatever the input. */
  lemma {:induction false} DedupNoAdjacentDuplicates(s: seq<real>)
    ensures forall i :: 0 <= i < |Dedup(s)| - 1 ==> Dedup(s)[i] != Dedup(s)[i + 1]
  {
    if |s| > 1 {
      DedupNoAdjacentDuplicates(s[..|s| - 1]);
    }
  }

  /** De-duplicating a sorted sample gives its distinct values in strictly
      increasing order. */
  lemma {:induction false} DedupStrictlyIncreasing(s: seq<real>)
    requires Sorted(s)
    ensures StrictlyIncreasing(Dedup(s))
  {
    if |s| > 1 {
      var t := s[..|s| - 1];
      assert Sorted(t);
      DedupStrictlyIncreasing(t);
      var d := Dedup(t);
      if s[|s| - 1] != s[|s| - 2] {
        var r := d + [s[|s| - 1]];
        forall i, j | 0 <= i < j < |r| ensures r[i] < r[j] {
          if j == |r| - 1 {
            assert r[i] <= d[|d| - 1];
            assert d[|d| - 1] == s[|s| - 2];
          }
        }
      }
    }
  }

  /** A sorted sample de-duplicates to a sorted sequence. */
  lemma DedupSorted(s: seq<real>)
    requires Sorted(s)
    ensures Sorted(Dedup(s))
  {
    DedupStrictlyIncreasing(s);
  }

  /** A constant sample de-duplicates to its single value. */
  lemma {:induction false} DedupConstant(s: seq<real>, c: real)
    requires |s| > 0 && forall i :: 0 <= i < |s| ==> s[i] == c
    ensures Dedup(s) == [c]
  {
    if |s| > 1 {
      DedupConstant(s[..|s| - 1], c);
    }
  }

  // ---------------------------------------------------------------------
  // WindowSum

  /** Collapsing equal neighbours drops only zero-width windows, so for an
      area that vanishes on them the window sum over the distinct values
      equals the one over the sample. */
  lemma {:induction false} WindowSumDedup(s: seq<real>, area: (real, real) -> real)
    requires forall x :: area(x, x) == 0.0
    ensures WindowSum(Dedup(s), area) == WindowSum(s, area)
  {
    if |s| > 1 {
      var t := s[..|s| - 1];
      WindowSumDedup(t, area);
      var d := Dedup(t);
      if s[|s| - 1] != s[|s| - 2] {
        var r := d + [s[|s| - 1]];
        assert r[..|r| - 1] == d;
      } else {
        assert area(s[|s| - 2], s[|s| - 1]) == 0.0;
      }
    }
  }

  /** Extending a prefix by one element adds the area of one window. */
  lemma WindowSumStep(u: seq<real>, area: (real, real) -> real, i: int)
    requires 0 <= i < |u| - 1
    ensures WindowSum(u[..i + 2], area) == WindowSum(u[..i + 1], area) + area(u[i], u[i + 1])
  {
    assert u[..i + 2][..i + 1] == u[..i + 1];
  }

  /** The widths of consecutive windows telescope to the span. */
  lemma {:induction false} WindowSumOfWidths(u: seq<real>)
    requires |u| > 0
    ensures WindowSum(u, Width) == u[|u| - 1] - u[0]
  {
    if |u| > 1 {
      WindowSumOfWidths(u[..|u| - 1]);
    }
  }

  /** The widths of the windows of the distinct values telescope to
      `max - min`. */
  lemma WidthsTelescope(s: seq<real>)
    requires |s| > 0
    ensures WindowSum(Dedup(s), Width) == s[|s| - 1] - s[0]
  {
    WindowSumDedup(s, Width);
    WindowSumOfWidths(s);
  }

  /** Over an ascending sequence, a smaller area on every ascending window
      gives a smaller window sum. */
  lemma {:induction false} WindowSumMonotone(u: seq<real>, a1: (real, real) -> real, a2: (real, real) -> real)
    requires Sorted(u)
    requires forall curr, next :: curr <= next ==> a1(curr, next) <= a2(curr, next)
    ensures WindowSum(u, a1) <= WindowSum(u, a2)
  {
    if |u| > 1 {
      var t := u[..|u| - 1];
      assert Sorted(t);
      assert u[|u| - 2] <= u[|u| - 1];
      WindowSumMonotone(t, a1, a2);
    }
  }

  /** Over an ascending sequence, areas between 0 and the width give a
      window sum between 0 and the span. */
  lemma {:induction false} WindowSumWithinSpan(u: seq<real>, area: (real, real) -> real)
    requires Sorted(u) && |u| > 0
    requires forall curr, next :: curr <= next ==> 0.0 <= area(curr, next) <= next - curr
    ensures 0.0 <= WindowSum(u, area) <= u[|u| - 1] - u[0]
  {
    if |u| > 1 {
      var t := u[..|u| - 1];
      assert Sorted(t);
      assert u[|u| - 2] <= u[|u| - 1];
      WindowSumWithinSpan(t, area);
    }
  }

  /** Scaling every area by `c` scales the window sum by `c`. */
  lemma {:induction false} WindowSumScale(u: seq<real>, a1: (real, real) -> real, a2: (real, real) -> real, c: real)
    requires forall curr, next :: a1(curr, next) == c * a2(curr, next)
    ensures WindowSum(u, a1) == c * WindowSum(u, a2)
  {
    if |u| > 1 {
      var t := u[..|u| - 1];
      WindowSumScale(t, a1, a2, c);
      var x, y := WindowSum(t, a2), a2(u[|u| - 2], u[|u| - 1]);
      assert c * x + c * y == c * (x + y);
    }
  }

  /** On a window of distinct neighbours `s[i] < s[i + 1]` of a sorted
      sample, the count area is `(i + 1) * width`. */
  lemma CountAreaAtRank(s: seq<real>, i: int)
    requires Sorted(s) && 0 <= i < |s| - 1
    ensures CountArea(s)(s[i], s[i + 1]) == (i + 1) as real * (s[i + 1] - s[i])
  {
    if s[i] < s[i + 1] {
      CountAtRank(s, i);
    }
  }

  /** One summation-by-parts step: `k` copies of the previous window's
      left end plus `k` widths make `k + 1` copies of its right end, less
      one. */
  lemma PrefixStepArithmetic(k: real, a: real, b: real)
    ensures k * a + k * (b - a) == (k + 1.0) * b - b
  {
  }

  /** Summation by parts on a sorted prefix: summing the count areas of the
      whole sample over the windows of its first `m` ratings gives
      `m * s[m - 1] - Sum(s[..m])`. */
  lemma {:induction false} WindowSumOfCountsPrefix(s: seq<real>, m: int)
    requires Sorted(s) && 1 <= m <= |s|
    ensures WindowSum(s[..m], CountArea(s)) == m as real * s[m - 1] - Sum(s[..m])
  {
    if m == 1 {
      assert s[..1][..0] == [];
    } else {
      WindowSumOfCountsPrefix(s, m - 1);
      var p := s[..m];
      assert p[..m - 1] == s[..m - 1];
      CountAreaAtRank(s, m - 2);
      PrefixStepArithmetic((m - 1) as real, s[m - 2], s[m - 1]);
    }
  }

  /** Summation by parts on the whole sample: for sorted ratings,
      `Sum(s) = n * max - sum over windows of (next - curr) * Count(curr)`,
      which is the identity E[X] = max - integral of the CDF, applied to
      the empirical distribution. */
  lemma WindowSumOfCounts(s: seq<real>)
    requires Sorted(s) && |s| > 0
    ensures WindowSum(s, CountArea(s)) == |s| as real * s[|s| - 1] - Sum(s)
  {
    WindowSumOfCountsPrefix(s, |s|);
    assert s[..|s|] == s;
  }
}
