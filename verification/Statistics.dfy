/** Percentiles and suggested thresholds of a job's scores (`app/api/results.py`). */
module Statistics {
  import opened Basics
  import opened Rounding
  import opened Scoring

  // ---- sorted() ----

  function Insert(x: real, s: seq<real>): seq<real> {
    if s == [] || x <= s[0] then [x] + s else [s[0]] + Insert(x, s[1..])
  }

  function Sort(xs: seq<real>): seq<real> {
    if xs == [] then [] else Insert(xs[0], Sort(xs[1..]))
  }

  predicate NonDecreasing(s: seq<real>) {
    forall i, j | 0 <= i < j < |s| :: s[i] <= s[j]
  }

  lemma Uncons(s: seq<real>)
    requires s != []
    ensures multiset(s) == multiset{s[0]} + multiset(s[1..])
  {
    assert s == [s[0]] + s[1..];
  }

  lemma {:induction false} InsertKeeps(x: real, s: seq<real>)
    ensures multiset(Insert(x, s)) == multiset{x} + multiset(s) && |Insert(x, s)| == |s| + 1
  {
    if s == [] || x <= s[0] {
    } else {
      InsertKeeps(x, s[1..]);
      Uncons(s);
    }
  }

  lemma {:induction false} InsertSorts(x: real, s: seq<real>)
    requires NonDecreasing(s)
    ensures NonDecreasing(Insert(x, s))
  {
    if s == [] || x <= s[0] {
    } else {
      var rest := Insert(x, s[1..]);
      InsertSorts(x, s[1..]);
      InsertKeeps(x, s[1..]);
      forall j | 0 <= j < |rest| ensures s[0] <= rest[j] {
        assert rest[j] in multiset(rest);
      }
    }
  }

  lemma {:induction false} SortSorts(xs: seq<real>)
    ensures NonDecreasing(Sort(xs)) && multiset(Sort(xs)) == multiset(xs) && |Sort(xs)| == |xs|
  {
    if xs != [] {
      SortSorts(xs[1..]);
      InsertSorts(xs[0], Sort(xs[1..]));
      InsertKeeps(xs[0], Sort(xs[1..]));
      Uncons(xs);
    }
  }

  lemma SameSize(s: seq<real>, t: seq<real>)
    requires multiset(s) == multiset(t)
    ensures |s| == |t|
  {
    assert |s| == |multiset(s)| && |t| == |multiset(t)|;
  }

  lemma {:induction false} SortedUnique(s: seq<real>, t: seq<real>)
    requires NonDecreasing(s) && NonDecreasing(t) && multiset(s) == multiset(t)
    ensures s == t
  {
    SameSize(s, t);
    if s != [] {
      LeastFirst(s, t);
      LeastFirst(t, s);
      RestsAgree(s, t);
      SortedUnique(s[1..], t[1..]);
      assert s == [s[0]] + s[1..] && t == [t[0]] + t[1..];
    }
  }

  lemma RestsAgree(s: seq<real>, t: seq<real>)
    requires s != [] && t != [] && s[0] == t[0] && multiset(s) == multiset(t)
    ensures multiset(s[1..]) == multiset(t[1..])
  {
    Uncons(s);
    Uncons(t);
    assert multiset(s[1..]) == multiset(s) - multiset{s[0]};
    assert multiset(t[1..]) == multiset(t) - multiset{s[0]};
  }

  lemma LeastFirst(s: seq<real>, t: seq<real>)
    requires NonDecreasing(s) && s != [] && t != [] && multiset(s) == multiset(t)
    ensures s[0] <= t[0]
  {
    assert t[0] in multiset(s);
    var i :| 0 <= i < |s| && s[i] == t[0];
  }

  lemma SortIsCanonical(xs: seq<real>, ys: seq<real>)
    requires multiset(xs) == multiset(ys)
    ensures Sort(xs) == Sort(ys)
  {
    SortSorts(xs);
    SortSorts(ys);
    SortedUnique(Sort(xs), Sort(ys));
  }

  // ---- _percentile ----

  function Ceiling(x: real): int {
    -((-x).Floor)
  }

  function Position(n: nat, p: real): real {
    Times(n as real - 1.0, p) / 100.0
  }

  function Blend(a: real, b: real, f: real): real {
    a + (b - a) * f
  }

  lemma BlendMonotone(a: real, b: real, f: real, g: real)
    requires a <= b && f <= g
    ensures Blend(a, b, f) <= Blend(a, b, g)
  {
    ProductMonotone(b - a, f, g);
  }

  lemma BlendEnds(a: real, b: real)
    ensures Blend(a, b, 0.0) == a && Blend(a, b, 1.0) == b
  {
  }

  /** The value at a fractional index of a sorted sequence, before rounding. */
  function Interpolate(s: seq<real>, idx: real): real
    requires 0.0 <= idx <= |s| as real - 1.0
  {
    var lo, hi := idx.Floor, Ceiling(idx);
    if lo != hi then Blend(s[lo], s[hi], idx - lo as real) else s[lo]
  }

  lemma PositionMonotone(n: nat, p: real, q: real)
    requires n > 0 && p <= q
    ensures Position(n, p) <= Position(n, q)
  {
    ProductMonotone(n as real - 1.0, p, q);
    assert Times(n as real - 1.0, p) <= Times(n as real - 1.0, q);
  }

  lemma PositionInRange(n: nat, p: real)
    requires n > 0 && 0.0 <= p <= 100.0
    ensures 0.0 <= Position(n, p) <= n as real - 1.0
  {
    PositionMonotone(n, 0.0, p);
    PositionMonotone(n, p, 100.0);
  }

  function Percentile(scores: seq<real>, p: real): real
    requires 0.0 <= p <= 100.0
  {
    if scores == [] then 0.0
    else
      SortSorts(scores);
      PositionInRange(|scores|, p);
      Round4(Interpolate(Sort(scores), Position(|scores|, p)))
  }

  lemma InterpolateBetween(s: seq<real>, idx: real)
    requires NonDecreasing(s) && 0.0 <= idx <= |s| as real - 1.0
    ensures s[idx.Floor] <= Interpolate(s, idx) <= s[Ceiling(idx)]
  {
    var lo, hi := idx.Floor, Ceiling(idx);
    if lo != hi {
      var f := idx - lo as real;
      BlendMonotone(s[lo], s[hi], 0.0, f);
      BlendMonotone(s[lo], s[hi], f, 1.0);
      BlendEnds(s[lo], s[hi]);
    }
  }

  lemma InterpolateMonotone(s: seq<real>, i: real, j: real)
    requires NonDecreasing(s) && 0.0 <= i <= j <= |s| as real - 1.0
    ensures Interpolate(s, i) <= Interpolate(s, j)
  {
    InterpolateBetween(s, i);
    InterpolateBetween(s, j);
    if i.Floor == j.Floor {
      var lo := i.Floor;
      if i != lo as real {
        assert Ceiling(i) == lo + 1 == Ceiling(j);
        BlendMonotone(s[lo], s[lo + 1], i - lo as real, j - lo as real);
      }
    } else {
      assert Ceiling(i) <= j.Floor;
    }
  }

  /** The percentile lies between the two order statistics its position falls between, up to rounding. */
  lemma PercentileBetween(scores: seq<real>, p: real)
    requires scores != [] && 0.0 <= p <= 100.0
    ensures
      var s, idx := Sort(scores), Position(|scores|, p);
      && |s| == |scores| && 0 <= idx.Floor <= Ceiling(idx) < |s|
      && Round4(s[idx.Floor]) <= Percentile(scores, p) <= Round4(s[Ceiling(idx)])
  {
    var s, idx := Sort(scores), Position(|scores|, p);
    SortSorts(scores);
    PositionInRange(|scores|, p);
    InterpolateBetween(s, idx);
    Round4Monotone(s[idx.Floor], Interpolate(s, idx));
    Round4Monotone(Interpolate(s, idx), s[Ceiling(idx)]);
  }

  lemma PercentileMonotone(scores: seq<real>, p: real, q: real)
    requires 0.0 <= p <= q <= 100.0
    ensures Percentile(scores, p) <= Percentile(scores, q)
  {
    if scores != [] {
      SortSorts(scores);
      PositionInRange(|scores|, p);
      PositionInRange(|scores|, q);
      PositionMonotone(|scores|, p, q);
      InterpolateMonotone(Sort(scores), Position(|scores|, p), Position(|scores|, q));
      Round4Monotone(Interpolate(Sort(scores), Position(|scores|, p)),
        Interpolate(Sort(scores), Position(|scores|, q)));
    }
  }

  /** The four percentiles of the statistics endpoint are in order and within the range of the scores. */
  lemma StatisticsInOrder(scores: seq<real>)
    requires scores != []
    ensures
      var s := Sort(scores);
      && |s| == |scores|
      && Round4(s[0]) == Percentile(scores, 0.0) <= Percentile(scores, 25.0) <= Percentile(scores, 50.0)
      && Percentile(scores, 50.0) <= Percentile(scores, 75.0) <= Percentile(scores, 90.0)
      && Percentile(scores, 90.0) <= Percentile(scores, 100.0) == Round4(s[|s| - 1])
  {
    SortSorts(scores);
    PercentileBetween(scores, 0.0);
    PercentileBetween(scores, 100.0);
    assert Position(|scores|, 100.0) == (|scores| - 1) as real;
    PercentileMonotone(scores, 0.0, 25.0);
    PercentileMonotone(scores, 25.0, 50.0);
    PercentileMonotone(scores, 50.0, 75.0);
    PercentileMonotone(scores, 75.0, 90.0);
    PercentileMonotone(scores, 90.0, 100.0);
  }

  lemma PercentileIgnoresOrder(scores: seq<real>, scores': seq<real>, p: real)
    requires multiset(scores) == multiset(scores') && 0.0 <= p <= 100.0
    ensures Percentile(scores, p) == Percentile(scores', p)
  {
    SameSize(scores, scores');
    SortIsCanonical(scores, scores');
  }

  lemma PositionBounds(n: nat, p: real, lo: int)
    requires (100 * lo) as real <= Times(n as real - 1.0, p) < (100 * (lo + 1)) as real
    ensures Position(n, p).Floor == lo
    ensures Position(n, p) - lo as real == (Times(n as real - 1.0, p) - (100 * lo) as real) / 100.0
    ensures Ceiling(Position(n, p)) == if Times(n as real - 1.0, p) == (100 * lo) as real then lo else lo + 1
  {
    assert 100.0 * Position(n, p) == Times(n as real - 1.0, p);
  }

  /**
    The interpolation law in plain arithmetic: with the scores sorted and `(n-1)p/100` between `lo` and
    `lo+1`, the percentile is the number that divides the gap between the two order statistics in
    that proportion, rounded to four decimals.
   */
  lemma PercentileInterpolates(scores: seq<real>, s: seq<real>, p: real, lo: nat) returns (v: real)
    requires multiset(s) == multiset(scores) && NonDecreasing(s)
    requires 0.0 <= p <= 100.0 && lo + 1 < |s|
    requires (100 * lo) as real <= Times(|s| as real - 1.0, p) < (100 * (lo + 1)) as real
    ensures 100.0 * (v - s[lo]) == (s[lo + 1] - s[lo]) * (Times(|s| as real - 1.0, p) - (100 * lo) as real)
    ensures Percentile(scores, p) == Round4(v)
  {
    SortSorts(scores);
    SortedUnique(s, Sort(scores));
    PositionInRange(|s|, p);
    PositionBounds(|s|, p, lo);
    var m := Times(|s| as real - 1.0, p) - (100 * lo) as real;
    var gap := s[lo + 1] - s[lo];
    v := s[lo] + gap * (m / 100.0);
    assert 100.0 * (gap * (m / 100.0)) == gap * m;
    assert Interpolate(s, Position(|s|, p)) == v;
  }

  /** The percentile is within rounding of that number; the last order statistic is the one at 100. */
  lemma PercentileIsNear(scores: seq<real>, s: seq<real>, p: real, lo: nat)
    requires multiset(s) == multiset(scores) && NonDecreasing(s)
    requires 0.0 <= p <= 100.0 && lo + 1 < |s|
    requires (100 * lo) as real <= Times(|s| as real - 1.0, p) < (100 * (lo + 1)) as real
    ensures
      var exact := (s[lo + 1] - s[lo]) * (Times(|s| as real - 1.0, p) - (100 * lo) as real);
      -0.005 <= 100.0 * (Percentile(scores, p) - s[lo]) - exact <= 0.005
  {
    var v := PercentileInterpolates(scores, s, p, lo);
    Round4Near(v);
  }

  /** The median of two scores is their mean, and no scores give 0. */
  lemma MedianOfTwo(a: real, b: real)
    requires a <= b
    ensures Percentile([a, b], 50.0) == Round4((a + b) / 2.0) && Percentile([b, a], 50.0) == Round4((a + b) / 2.0)
    ensures Percentile([], 50.0) == 0.0
  {
    assert Times(1.0, 50.0) == 50.0;
    var v := PercentileInterpolates([a, b], [a, b], 50.0, 0);
    assert v == (a + b) / 2.0;
    PercentileIgnoresOrder([a, b], [b, a], 50.0);
  }

  // ---- _suggest_thresholds ----

  function FitIndex(n: nat): nat {
    7 * n / 10
  }

  function MaybeIndex(n: nat): nat {
    3 * n / 10
  }

  function SuggestThresholds(scores: seq<real>): Thresholds {
    if |scores| < 3 then Thresholds(Some(0.70), Some(0.40), None, None, None)
    else
      SortSorts(scores);
      var s := Sort(scores);
      Thresholds(Some(Round2(s[FitIndex(|s|)])), Some(Round2(s[MaybeIndex(|s|)])), None, None, None)
  }

  function CountAtLeast(xs: seq<real>, c: real): nat {
    if xs == [] then 0 else (if xs[0] >= c then 1 else 0) + CountAtLeast(xs[1..], c)
  }

  lemma {:induction false} InsertCounts(x: real, s: seq<real>, c: real)
    ensures CountAtLeast(Insert(x, s), c) == (if x >= c then 1 else 0) + CountAtLeast(s, c)
  {
    if s == [] || x <= s[0] {
      assert ([x] + s)[1..] == s;
    } else {
      InsertCounts(x, s[1..], c);
      assert ([s[0]] + Insert(x, s[1..]))[1..] == Insert(x, s[1..]);
    }
  }

  lemma {:induction false} SortCounts(xs: seq<real>, c: real)
    ensures CountAtLeast(Sort(xs), c) == CountAtLeast(xs, c)
  {
    if xs != [] {
      SortCounts(xs[1..], c);
      InsertCounts(xs[0], Sort(xs[1..]), c);
    }
  }

  lemma {:induction false} TopCounts(s: seq<real>, k: nat, c: real)
    requires NonDecreasing(s) && k < |s| && s[k] >= c
    ensures CountAtLeast(s, c) >= |s| - k
  {
    if k > 0 {
      TopCounts(s[1..], k - 1, c);
    } else if |s| > 1 {
      TopCounts(s[1..], 0, c);
    }
  }

  /** The order statistic the fit cutoff is rounded from. */
  function FitStatistic(scores: seq<real>): real
    requires |scores| >= 3
  {
    SortSorts(scores);
    Sort(scores)[FitIndex(|scores|)]
  }

  /**
    The suggested cutoffs are in order; at least the top three tenths of the scores reach the
    statistic behind the fit cutoff; and under the suggested thresholds a score is Fit when it is
    0.005 above that statistic and is not when it is more than 0.005 below.
   */
  lemma SuggestedThresholdsSplit(scores: seq<real>, score: real)
    requires |scores| >= 3
    ensures
      var t, x := SuggestThresholds(scores), FitStatistic(scores);
      && MaybeCutoff(t) <= FitCutoff(t)
      && CountAtLeast(scores, x) >= |scores| - FitIndex(|scores|)
      && (score >= x + 0.005 ==> ApplyThresholds(score, t) == Fit)
      && (score < x - 0.005 ==> ApplyThresholds(score, t) != Fit)
  {
    var s, n := Sort(scores), |scores|;
    SortSorts(scores);
    Round2Monotone(s[MaybeIndex(n)], s[FitIndex(n)]);
    Round2Near(s[FitIndex(n)]);
    TopCounts(s, FitIndex(n), s[FitIndex(n)]);
    SortCounts(scores, s[FitIndex(n)]);
  }

  /**
    The suggestions in plain numbers: of `n` scores in order, the one at index 7n/10 and the one at
    3n/10, both rounded down, with two decimals; fewer than three scores give the defaults.
   */
  lemma SuggestedAre(scores: seq<real>, s: seq<real>)
    requires multiset(s) == multiset(scores) && NonDecreasing(s)
    ensures
      var t, n := SuggestThresholds(scores), |s|;
      && t.minYoe.None? && t.locationStrict.None? && t.rubric.None?
      && (n < 3 ==> t.fit == Some(0.70) && t.maybe == Some(0.40))
      && (n >= 3 ==> t.fit == Some(Round2(s[7 * n / 10])) && t.maybe == Some(Round2(s[3 * n / 10])))
  {
    SortSorts(scores);
    SortedUnique(s, Sort(scores));
    SameSize(s, scores);
  }

  /** At least n - floor(0.7 n) scores reach the unrounded fit cutoff, and n - floor(0.3 n) the maybe cutoff. */
  lemma SuggestedShares(scores: seq<real>, s: seq<real>)
    requires multiset(s) == multiset(scores) && NonDecreasing(s) && |s| >= 3
    ensures CountAtLeast(scores, s[7 * |s| / 10]) >= |s| - 7 * |s| / 10
    ensures CountAtLeast(scores, s[3 * |s| / 10]) >= |s| - 3 * |s| / 10
  {
    var n := |s|;
    SortSorts(scores);
    SortedUnique(s, Sort(scores));
    TopCounts(s, 7 * n / 10, s[7 * n / 10]);
    TopCounts(s, 3 * n / 10, s[3 * n / 10]);
    SortCounts(scores, s[7 * n / 10]);
    SortCounts(scores, s[3 * n / 10]);
  }
}
