/** Weighted aggregation of the three signals and the verdict thresholds (`app/pipeline/score.py`). */
module Scoring {
  import opened Basics
  import opened Rounding

  datatype Verdict = Fit | Maybe | Reject

  function Rank(v: Verdict): int {
    match v
    case Reject => 0
    case Maybe => 1
    case Fit => 2
  }

  /** The three signals, or one number for each of them. */
  datatype Triple = Triple(skillOverlap: real, cosine: real, judge: real)

  /** A job's `weights` column, key by key; a missing key takes the default. */
  datatype WeightColumn = WeightColumn(skillOverlap: Option<real>, cosine: Option<real>, judge: Option<real>)

  /** A job's `thresholds` column, key by key. */
  datatype Thresholds = Thresholds(
    fit: Option<real>, maybe: Option<real>, minYoe: Option<real>, locationStrict: Option<real>, rubric: Option<real>)

  function Or(x: Option<real>, default: real): real {
    if x.Some? then x.value else default
  }

  function MergedWeights(w: WeightColumn): Triple {
    Triple(Or(w.skillOverlap, 0.30), Or(w.cosine, 0.20), Or(w.judge, 0.50))
  }

  function FitCutoff(t: Thresholds): real {
    Or(t.fit, 0.70)
  }

  function MaybeCutoff(t: Thresholds): real {
    Or(t.maybe, 0.40)
  }

  const NO_THRESHOLDS := Thresholds(None, None, None, None, None)

  function ApplyThresholds(score: real, t: Thresholds): Verdict {
    if score >= FitCutoff(t) then Fit else if score >= MaybeCutoff(t) then Maybe else Reject
  }

  function Clamp(x: real): real {
    MaxReal(0.0, MinReal(1.0, x))
  }

  function Clamped(s: Triple): Triple {
    Triple(Clamp(s.skillOverlap), Clamp(s.cosine), Clamp(s.judge))
  }

  function Total(w: Triple): real {
    w.skillOverlap + w.cosine + w.judge
  }

  function Products(w: Triple, s: Triple): Triple {
    Triple(w.skillOverlap * s.skillOverlap, w.cosine * s.cosine, w.judge * s.judge)
  }

  function WeightedSum(w: Triple, s: Triple): real {
    Total(Products(w, s))
  }

  function Share(x: real, total: real): real
    requires total != 0.0
  {
    x / total
  }

  datatype Breakdown = Breakdown(signals: Triple, weights: Triple, contributions: Triple)

  datatype Aggregate = Aggregate(final: real, verdict: Verdict, breakdown: Breakdown)

  function Score(w: Triple, s: Triple): Aggregate
    requires Total(w) != 0.0
  {
    var p, t := Products(w, s), Total(w);
    var final := Round4(Share(Total(p), t));
    Aggregate(final, ApplyThresholds(final, NO_THRESHOLDS), Breakdown(
      Triple(Round4(s.skillOverlap), Round4(s.cosine), Round4(s.judge)),
      w,
      Triple(Round4(Share(p.skillOverlap, t)), Round4(Share(p.cosine, t)), Round4(Share(p.judge, t)))))
  }

  /** None stands for the ZeroDivisionError of weights that add up to zero. */
  function AggregateScore(signals: Triple, column: WeightColumn): Option<Aggregate> {
    var w := MergedWeights(column);
    if Total(w) == 0.0 then None else Some(Score(w, Clamped(signals)))
  }

  predicate ProperWeights(w: Triple) {
    w.skillOverlap >= 0.0 && w.cosine >= 0.0 && w.judge >= 0.0 && Total(w) > 0.0
  }

  predicate AtMost(s: Triple, t: Triple) {
    s.skillOverlap <= t.skillOverlap && s.cosine <= t.cosine && s.judge <= t.judge
  }

  lemma VerdictMonotone(score: real, score': real, t: Thresholds)
    requires score <= score'
    ensures Rank(ApplyThresholds(score, t)) <= Rank(ApplyThresholds(score', t))
  {
  }

  lemma SignOfFactor(p: real, t: real)
    requires t > 0.0 && p * t >= 0.0
    ensures p >= 0.0
  {
  }

  lemma QuotientMonotone(a: real, b: real, t: real)
    requires t > 0.0 && a <= b
    ensures a / t <= b / t
  {
    var q, r := a / t, b / t;
    assert (r - q) * t == b - a;
    SignOfFactor(r - q, t);
  }

  lemma ProductMonotone(w: real, x: real, y: real)
    requires w >= 0.0 && x <= y
    ensures w * x <= w * y
  {
    assert w * (y - x) >= 0.0;
  }

  lemma WeightedSumMonotone(w: Triple, s: Triple, t: Triple)
    requires ProperWeights(w) && AtMost(s, t)
    ensures WeightedSum(w, s) <= WeightedSum(w, t)
  {
    WeightedTermsMonotone(w.skillOverlap, s.skillOverlap, t.skillOverlap, w.cosine, s.cosine, t.cosine, w.judge,
      s.judge, t.judge);
  }

  lemma WeightedTermsMonotone(u: real, x: real, x': real, v: real, y: real, y': real, w: real, z: real, z': real)
    requires u >= 0.0 && v >= 0.0 && w >= 0.0 && x <= x' && y <= y' && z <= z'
    ensures u * x + v * y + w * z <= u * x' + v * y' + w * z'
  {
    ProductMonotone(u, x, x');
    ProductMonotone(v, y, y');
    ProductMonotone(w, z, z');
  }

  function Mean(w: Triple, s: Triple): real
    requires Total(w) != 0.0
  {
    Share(WeightedSum(w, s), Total(w))
  }

  lemma ConstantMean(w: Triple, x: real)
    requires Total(w) != 0.0
    ensures Mean(w, Triple(x, x, x)) == x
  {
    assert WeightedSum(w, Triple(x, x, x)) == x * Total(w);
  }

  function Lowest(s: Triple): real {
    MinReal(s.skillOverlap, MinReal(s.cosine, s.judge))
  }

  function Highest(s: Triple): real {
    MaxReal(s.skillOverlap, MaxReal(s.cosine, s.judge))
  }

  lemma FinalIsRoundedMean(signals: Triple, column: WeightColumn)
    requires Total(MergedWeights(column)) != 0.0
    ensures AggregateScore(signals, column).Some?
    ensures AggregateScore(signals, column).value.final == Round4(Mean(MergedWeights(column), Clamped(signals)))
  {
  }

  lemma MeanMonotone(w: Triple, s: Triple, t: Triple)
    requires ProperWeights(w) && AtMost(s, t)
    ensures Mean(w, s) <= Mean(w, t)
  {
    WeightedSumMonotone(w, s, t);
    QuotientMonotone(WeightedSum(w, s), WeightedSum(w, t), Total(w));
  }

  lemma MeanBetween(w: Triple, s: Triple)
    requires ProperWeights(w)
    ensures Lowest(s) <= Mean(w, s) <= Highest(s)
  {
    var lo, hi := Lowest(s), Highest(s);
    MeanMonotone(w, Triple(lo, lo, lo), s);
    MeanMonotone(w, s, Triple(hi, hi, hi));
    ConstantMean(w, lo);
    ConstantMean(w, hi);
  }

  /** A weighted mean: the score lies between the lowest and the highest clamped signal, hence in [0, 1]. */
  lemma ScoreIsAMean(signals: Triple, column: WeightColumn)
    requires ProperWeights(MergedWeights(column))
    ensures AggregateScore(signals, column).Some?
    ensures
      var s, final := Clamped(signals), AggregateScore(signals, column).value.final;
      0.0 <= Round4(Lowest(s)) <= final <= Round4(Highest(s)) <= 1.0
  {
    var w, s := MergedWeights(column), Clamped(signals);
    FinalIsRoundedMean(signals, column);
    MeanBetween(w, s);
    Round4Monotone(Lowest(s), Mean(w, s));
    Round4Monotone(Mean(w, s), Highest(s));
    Round4Unit();
    Round4Monotone(0.0, Lowest(s));
    Round4Monotone(Highest(s), 1.0);
  }

  lemma ClampedMonotone(s: Triple, t: Triple)
    requires AtMost(s, t)
    ensures AtMost(Clamped(s), Clamped(t))
  {
  }

  /** Raising any signal never lowers the score. */
  lemma ScoreMonotone(s: Triple, t: Triple, column: WeightColumn)
    requires ProperWeights(MergedWeights(column)) && AtMost(s, t)
    ensures AggregateScore(s, column).Some? && AggregateScore(t, column).Some?
    ensures AggregateScore(s, column).value.final <= AggregateScore(t, column).value.final
  {
    var w := MergedWeights(column);
    FinalIsRoundedMean(s, column);
    FinalIsRoundedMean(t, column);
    ClampedMonotone(s, t);
    MeanMonotone(w, Clamped(s), Clamped(t));
    Round4Monotone(Mean(w, Clamped(s)), Mean(w, Clamped(t)));
  }

  function AllPresent(w: Triple): WeightColumn {
    WeightColumn(Some(w.skillOverlap), Some(w.cosine), Some(w.judge))
  }

  function ScaledBy(w: Triple, c: real): Triple {
    Triple(c * w.skillOverlap, c * w.cosine, c * w.judge)
  }

  /** Only the proportions of the weights matter. */
  lemma ScoreIgnoresScale(signals: Triple, w: Triple, c: real)
    requires Total(w) != 0.0 && c != 0.0
    ensures AggregateScore(signals, AllPresent(w)).Some? && AggregateScore(signals, AllPresent(ScaledBy(w, c))).Some?
    ensures
      var a := AggregateScore(signals, AllPresent(w)).value;
      var b := AggregateScore(signals, AllPresent(ScaledBy(w, c))).value;
      a.final == b.final && a.verdict == b.verdict && a.breakdown.contributions == b.breakdown.contributions
  {
    ScaledScore(w, Clamped(signals), c);
  }

  lemma ScaledScore(w: Triple, s: Triple, c: real)
    requires Total(w) != 0.0 && c != 0.0
    ensures Total(ScaledBy(w, c)) != 0.0
    ensures
      var a, b := Score(w, s), Score(ScaledBy(w, c), s);
      a.final == b.final && a.verdict == b.verdict && a.breakdown.contributions == b.breakdown.contributions
  {
    var p, t, v := Products(w, s), Total(w), ScaledBy(w, c);
    ScaledProducts(w, s, c);
    ScaledTotal(w, c);
    ScaledTotal(p, c);
    ScaledShare(Total(p), t, Total(Products(v, s)), Total(v), c);
    ScaledShare(p.skillOverlap, t, Products(v, s).skillOverlap, Total(v), c);
    ScaledShare(p.cosine, t, Products(v, s).cosine, Total(v), c);
    ScaledShare(p.judge, t, Products(v, s).judge, Total(v), c);
  }

  lemma ScaledShare(a: real, t: real, b: real, u: real, c: real)
    requires t != 0.0 && c != 0.0 && b == c * a && u == c * t
    ensures u != 0.0 && Share(b, u) == Share(a, t)
  {
    CommonFactor(a, t, c);
  }

  lemma ScaledProducts(w: Triple, s: Triple, c: real)
    ensures Products(ScaledBy(w, c), s) == ScaledBy(Products(w, s), c)
  {
  }

  lemma ScaledTotal(w: Triple, c: real)
    ensures Total(ScaledBy(w, c)) == c * Total(w)
  {
  }

  lemma CommonFactor(a: real, t: real, c: real)
    requires t != 0.0 && c != 0.0
    ensures c * t != 0.0 && Share(c * a, c * t) == Share(a, t)
  {
    var q := a / t;
    assert q * t == a;
    assert c * t != 0.0;
    assert q * (c * t) == c * a;
  }

  /** The displayed contributions add up to the score, up to the four roundings. */
  lemma ContributionsExplainScore(signals: Triple, column: WeightColumn)
    requires Total(MergedWeights(column)) != 0.0
    ensures AggregateScore(signals, column).Some?
    ensures
      var a := AggregateScore(signals, column).value;
      -0.0002 <= a.final - Total(a.breakdown.contributions) <= 0.0002
  {
    SharesAddUp(MergedWeights(column), Clamped(signals));
  }

  lemma SharesAddUp(w: Triple, s: Triple)
    requires Total(w) != 0.0
    ensures -0.0002 <= Score(w, s).final - Total(Score(w, s).breakdown.contributions) <= 0.0002
  {
    RoundedShares(Products(w, s), Total(w));
  }

  lemma RoundedShares(p: Triple, t: real)
    requires t != 0.0
    ensures
      var shares := Triple(Round4(Share(p.skillOverlap, t)), Round4(Share(p.cosine, t)), Round4(Share(p.judge, t)));
      -0.0002 <= Round4(Share(Total(p), t)) - Total(shares) <= 0.0002
  {
    SumOfQuotients(p.skillOverlap, p.cosine, p.judge, t);
    Round4Near(Share(Total(p), t));
    Round4Near(Share(p.skillOverlap, t));
    Round4Near(Share(p.cosine, t));
    Round4Near(Share(p.judge, t));
  }

  lemma SumOfQuotients(x: real, y: real, z: real, t: real)
    requires t != 0.0
    ensures Share(x + y + z, t) == Share(x, t) + Share(y, t) + Share(z, t)
  {
    var p, q, r := x / t, y / t, z / t;
    assert (p + q + r) * t == x + y + z;
  }

  // ---- The same in plain arithmetic ----

  /** A value, or the default where there is none. */
  predicate ReadsAs(x: Option<real>, default: real, value: real) {
    match x
    case None => value == default
    case Some(y) => value == y
  }

  /** The nearest number between 0 and 1. */
  predicate Nearest(x: real, y: real) {
    0.0 <= y <= 1.0 && (x < 0.0 ==> y == 0.0) && (x > 1.0 ==> y == 1.0) && (0.0 <= x <= 1.0 ==> y == x)
  }

  /** `q` is the quotient of `x` and `t`, rounded to four decimals. */
  ghost predicate RoundedQuotient(x: real, t: real, q: real) {
    exists exact: real :: Times(exact, t) == x && q == Round4(exact)
  }

  function Times(x: real, y: real): real {
    x * y
  }

  lemma ShareIsRounded(x: real, t: real)
    requires t != 0.0
    ensures RoundedQuotient(x, t, Round4(Share(x, t)))
  {
    assert Times(Share(x, t), t) == x;
  }

  lemma ScoreNumbers(p: Triple, s: Triple)
    requires Total(p) != 0.0
    ensures
      var x, y, z := Times(p.skillOverlap, s.skillOverlap), Times(p.cosine, s.cosine), Times(p.judge, s.judge);
      var t, r := Total(p), Score(p, s);
      && RoundedQuotient(x + y + z, t, r.final)
      && RoundedQuotient(x, t, r.breakdown.contributions.skillOverlap)
      && RoundedQuotient(y, t, r.breakdown.contributions.cosine)
      && RoundedQuotient(z, t, r.breakdown.contributions.judge)
  {
    hide RoundedQuotient, Round4, Share;
    var q, t := Products(p, s), Total(p);
    ShareIsRounded(Total(q), t);
    ShareIsRounded(q.skillOverlap, t);
    ShareIsRounded(q.cosine, t);
    ShareIsRounded(q.judge, t);
    assert q.skillOverlap == Times(p.skillOverlap, s.skillOverlap) && q.cosine == Times(p.cosine, s.cosine);
    assert q.judge == Times(p.judge, s.judge);
    assert Score(p, s).final == Round4(Share(Total(q), t));
  }

  lemma ScoreLabels(p: Triple, s: Triple)
    requires Total(p) != 0.0
    ensures
      var r := Score(p, s);
      && r.breakdown.weights == p
      && r.breakdown.signals == Triple(Round4(s.skillOverlap), Round4(s.cosine), Round4(s.judge))
      && (r.verdict == Fit <==> r.final >= 0.70)
      && (r.verdict == Reject <==> r.final < 0.70 && r.final < 0.40)
  {
  }

  /**
    The aggregate number by number: the weights with their defaults 0.30, 0.20 and 0.50, the signals
    cut to the unit interval, the weighted mean and each contribution rounded to four decimals, and
    the default cutoffs; weights that add up to zero raise.
   */
  lemma ScoreArithmetic(signals: Triple, column: WeightColumn, u: real, v: real, w: real, a: real, b: real, c: real)
    requires ReadsAs(column.skillOverlap, 0.30, u) && ReadsAs(column.cosine, 0.20, v) && ReadsAs(column.judge, 0.50, w)
    requires Nearest(signals.skillOverlap, a) && Nearest(signals.cosine, b) && Nearest(signals.judge, c)
    ensures AggregateScore(signals, column).None? <==> u + v + w == 0.0
    ensures u + v + w != 0.0 ==>
      var t, r := u + v + w, AggregateScore(signals, column).value;
      && RoundedQuotient(Times(u, a) + Times(v, b) + Times(w, c), t, r.final)
      && RoundedQuotient(Times(u, a), t, r.breakdown.contributions.skillOverlap)
      && RoundedQuotient(Times(v, b), t, r.breakdown.contributions.cosine)
      && RoundedQuotient(Times(w, c), t, r.breakdown.contributions.judge)
      && r.breakdown.weights == Triple(u, v, w)
      && r.breakdown.signals == Triple(Round4(a), Round4(b), Round4(c))
      && (r.verdict == Fit <==> r.final >= 0.70)
      && (r.verdict == Reject <==> r.final < 0.70 && r.final < 0.40)
  {
    hide Score, RoundedQuotient, Times;
    assert MergedWeights(column) == Triple(u, v, w) && Clamped(signals) == Triple(a, b, c);
    if u + v + w != 0.0 {
      ScoreNumbers(Triple(u, v, w), Triple(a, b, c));
      ScoreLabels(Triple(u, v, w), Triple(a, b, c));
    }
  }

  /** Fit from the fit cutoff on, Maybe from the maybe cutoff on below that, Reject below both. */
  lemma VerdictBands(score: real, t: Thresholds, fit: real, maybe: real)
    requires ReadsAs(t.fit, 0.70, fit) && ReadsAs(t.maybe, 0.40, maybe)
    ensures ApplyThresholds(score, t) == Fit <==> score >= fit
    ensures ApplyThresholds(score, t) == Maybe <==> maybe <= score < fit
    ensures ApplyThresholds(score, t) == Reject <==> score < fit && score < maybe
  {
  }
}
