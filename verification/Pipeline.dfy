/**
  The deterministic evaluation of one resume against one job: hard filters
  (`app/pipeline/filters.py`), matching, the judge with its fallback (`app/pipeline/judge.py`),
  aggregation and thresholds, in the order `process_candidate` runs them.
 */
module Pipeline {
  import opened Basics
  import opened Scoring
  import opened Matching
  import Rounding

  datatype Resume = Resume(name: string, email: string, yoe: real, location: string, skills: seq<string>,
    bullets: seq<string>)

  datatype Jd = Jd(title: string, required: seq<string>, preferred: seq<string>, minYoe: real, location: string,
    mustHaves: seq<string>)

  /** What the judge prompt is built from. */
  datatype Prompt = Prompt(required: seq<string>, matchedSkills: seq<string>, matchedBullets: seq<string>,
    criteria: string)

  datatype Judgement = Judgement(scores: map<string, real>, reasons: map<string, string>, overall: real,
    verdict: Verdict)

  /** The text, model and embedding services, taken as functions of their inputs. */
  datatype Services = Services(
    tools: TextTools,
    similarity: (seq<string>, string) -> real,  // cosine of the mean bullet embedding and the JD embedding
    judge: Prompt -> Option<Judgement>,         // None: the call failed
    model: string)

  datatype Rejection =
    | TooFewYears(yoe: real, needed: real)
    | LocationMismatch(candidate: string, job: string)
    | MissingSkills(skills: seq<string>)

  // ---- Hard filters ----

  function YearsNeeded(jd: Jd, t: Thresholds): real {
    Or(t.minYoe, jd.minYoe)
  }

  function Covers(sv: Services, skills: seq<string>): string -> bool {
    must => exists s | s in skills ::
      Contains(sv.tools.lower(s), sv.tools.lower(must)) || Contains(sv.tools.lower(must), sv.tools.lower(s))
  }

  function Missing(sv: Services, r: Resume, jd: Jd): seq<string> {
    Filter(jd.mustHaves, must => !Covers(sv, r.skills)(must))
  }

  predicate LocationsClash(sv: Services, r: Resume, jd: Jd) {
    var here, there := Strip(sv.tools.lower(jd.location)), Strip(sv.tools.lower(r.location));
    here != "" && there != "" && !Contains(there, here) && !Contains(here, there)
  }

  /** The first rule that eliminates the candidate, if any. */
  function ApplyFilters(sv: Services, r: Resume, jd: Jd, t: Thresholds): Option<Rejection> {
    if jd.minYoe > 0.0 && r.yoe < YearsNeeded(jd, t) then Some(TooFewYears(r.yoe, YearsNeeded(jd, t)))
    else if Or(t.locationStrict, 0.0) != 0.0 && jd.location != "" && LocationsClash(sv, r, jd) then
      Some(LocationMismatch(r.location, jd.location))
    else if Missing(sv, r, jd) != [] then Some(MissingSkills(Missing(sv, r, jd)))
    else None
  }

  /** A candidate passes exactly when no rule speaks against them; a skills rejection names the uncovered must-haves. */
  lemma FiltersPassIff(sv: Services, r: Resume, jd: Jd, t: Thresholds)
    ensures ApplyFilters(sv, r, jd, t).None? <==>
      && (jd.minYoe <= 0.0 || r.yoe >= YearsNeeded(jd, t))
      && (Or(t.locationStrict, 0.0) == 0.0 || jd.location == "" || !LocationsClash(sv, r, jd))
      && (forall must | must in jd.mustHaves :: Covers(sv, r.skills)(must))
    ensures
      var f := ApplyFilters(sv, r, jd, t);
      f.Some? && f.value.MissingSkills? ==>
        forall must :: must in f.value.skills <==> must in jd.mustHaves && !Covers(sv, r.skills)(must)
  {
    var uncovered := (must: string) => !Covers(sv, r.skills)(must);
    FilterMembers(jd.mustHaves, uncovered);
    assert Missing(sv, r, jd) == Filter(jd.mustHaves, uncovered);
    if Missing(sv, r, jd) != [] {
      assert Missing(sv, r, jd)[0] in Missing(sv, r, jd);
    }
  }

  // ---- The judge ----

  function AtMostFirst(xs: seq<string>, n: nat): seq<string> {
    if |xs| <= n then xs else xs[..n]
  }

  /**
    The criteria line of the prompt. The API stores thresholds as numbers only, so a stored
    `rubric` is a number: zero is falsy, and any other number has no `keys` (None: AttributeError).
   */
  function Criteria(t: Thresholds): Option<string> {
    match t.rubric
    case None => Some("technical_fit, experience_depth")
    case Some(x) => if x == 0.0 then Some("technical_fit, communication, leadership") else None
  }

  function FallbackJudgement(overlap: real): Judgement {
    var score := Rounding.Round4(overlap);
    Judgement(
      map["technical_fit" := score],
      map["technical_fit" := "LLM judge unavailable; score derived from skill overlap"],
      score,
      ApplyThresholds(score, NO_THRESHOLDS))
  }

  function Judge(sv: Services, prompt: Prompt, overlap: real): Judgement {
    match sv.judge(prompt)
    case Some(j) => j
    case None => FallbackJudgement(overlap)
  }

  // ---- The whole evaluation ----

  /** What `process_candidate` writes and caches. */
  datatype Result =
    | Rejected(reason: Rejection)
    | Scored(verdict: Verdict, score: real, rubric: map<string, real>, reasons: map<string, string>,
             matchedSkills: seq<string>, breakdown: Breakdown, model: string)

  function VerdictOf(r: Result): Verdict {
    match r
    case Rejected(_) => Reject
    case Scored(v, _, _, _, _, _, _) => v
  }

  function JoinWithSpaces(xs: seq<string>): string {
    if xs == [] then "" else if |xs| == 1 then xs[0] else xs[0] + " " + JoinWithSpaces(xs[1..])
  }

  function Similarity(sv: Services, text: string, r: Resume, jd: Jd): real {
    var bullets := if r.bullets != [] then r.bullets else [if |text| <= 500 then text else text[..500]];
    sv.similarity(bullets, JoinWithSpaces(jd.required + jd.preferred + [jd.title]))
  }

  /** Aggregation and thresholds. None: the weights add up to zero. */
  function Finish(sv: Services, signals: Triple, j: Judgement, matched: seq<string>, w: WeightColumn,
        t: Thresholds): Option<Result> {
    var a := AggregateScore(signals, w);
    if a.None? then None
    else Some(Scored(ApplyThresholds(a.value.final, t), a.value.final, j.scores, j.reasons, matched,
      a.value.breakdown, sv.model))
  }

  /** None: the evaluation raises (weights that add up to zero, or a non-zero number stored as rubric). */
  function Evaluate(sv: Services, text: string, r: Resume, jd: Jd, w: WeightColumn, t: Thresholds): Option<Result> {
    var filtered := ApplyFilters(sv, r, jd, t);
    if filtered.Some? then Some(Rejected(filtered.value))
    else
      var skills := jd.required + jd.preferred;
      var overlap := SkillOverlap(sv.tools, r.skills, skills);
      var matched := MatchedSkills(sv.tools, r.skills, skills);
      var bullets := MatchedBullets(sv.tools, matched, r.bullets);
      if Criteria(t).None? then None
      else
        var prompt := Prompt(AtMostFirst(jd.required, 10), AtMostFirst(matched, 10), AtMostFirst(bullets, 5),
          Criteria(t).value);
        var j := Judge(sv, prompt, overlap);
        Finish(sv, Triple(overlap, Similarity(sv, text, r, jd), j.overall), j, matched, w, t)
  }

  ghost predicate AtLeastAsQualified(r: Resume, r': Resume) {
    && MoreSkills(r.skills, r'.skills) && r.yoe <= r'.yoe
    && r.location == r'.location && r.bullets == r'.bullets
  }

  lemma MoreSkillsPassFilters(sv: Services, r: Resume, r': Resume, jd: Jd, t: Thresholds)
    requires AtLeastAsQualified(r, r') && ApplyFilters(sv, r, jd, t).None?
    ensures ApplyFilters(sv, r', jd, t).None?
  {
    FiltersPassIff(sv, r, jd, t);
    FiltersPassIff(sv, r', jd, t);
    forall must | must in jd.mustHaves ensures Covers(sv, r'.skills)(must) {
      assert Covers(sv, r.skills)(must);
    }
  }

  /** The signals of a candidate who passes the filters while the judge is down. */
  function FallbackSignals(sv: Services, text: string, r: Resume, jd: Jd): Triple {
    var overlap := SkillOverlap(sv.tools, r.skills, jd.required + jd.preferred);
    Triple(overlap, Similarity(sv, text, r, jd), Rounding.Round4(overlap))
  }

  lemma FallbackVerdict(sv: Services, text: string, r: Resume, jd: Jd, w: WeightColumn, t: Thresholds)
    requires ApplyFilters(sv, r, jd, t).None? && Criteria(t).Some?
    requires forall p :: sv.judge(p).None?
    requires Total(MergedWeights(w)) != 0.0
    ensures AggregateScore(FallbackSignals(sv, text, r, jd), w).Some? && Evaluate(sv, text, r, jd, w, t).Some?
    ensures VerdictOf(Evaluate(sv, text, r, jd, w, t).value)
         == ApplyThresholds(AggregateScore(FallbackSignals(sv, text, r, jd), w).value.final, t)
  {
    var skills := jd.required + jd.preferred;
    var overlap, matched := SkillOverlap(sv.tools, r.skills, skills), MatchedSkills(sv.tools, r.skills, skills);
    assert Evaluate(sv, text, r, jd, w, t)
        == Finish(sv, FallbackSignals(sv, text, r, jd), FallbackJudgement(overlap), matched, w, t);
  }

  lemma FallbackSignalsMonotone(sv: Services, text: string, r: Resume, r': Resume, jd: Jd)
    requires AtLeastAsQualified(r, r')
    ensures AtMost(FallbackSignals(sv, text, r, jd), FallbackSignals(sv, text, r', jd))
  {
    var skills := jd.required + jd.preferred;
    OverlapMonotone(sv.tools, r.skills, r'.skills, skills);
    Rounding.Round4Monotone(SkillOverlap(sv.tools, r.skills, skills), SkillOverlap(sv.tools, r'.skills, skills));
  }

  lemma FallbackOutcome(sv: Services, text: string, r: Resume, jd: Jd, w: WeightColumn, t: Thresholds)
    returns (score: real)
    requires ProperWeights(MergedWeights(w)) && Criteria(t).Some?
    requires forall p :: sv.judge(p).None?
    ensures AggregateScore(FallbackSignals(sv, text, r, jd), w).Some?
    ensures score == AggregateScore(FallbackSignals(sv, text, r, jd), w).value.final
    ensures Evaluate(sv, text, r, jd, w, t).Some?
    ensures VerdictOf(Evaluate(sv, text, r, jd, w, t).value)
         == if ApplyFilters(sv, r, jd, t).Some? then Reject else ApplyThresholds(score, t)
  {
    ScoreIsAMean(FallbackSignals(sv, text, r, jd), w);
    score := AggregateScore(FallbackSignals(sv, text, r, jd), w).value.final;
    if ApplyFilters(sv, r, jd, t).None? {
      FallbackVerdict(sv, text, r, jd, w, t);
    }
  }

  lemma FallbackScoreMonotone(sv: Services, text: string, r: Resume, r': Resume, jd: Jd, w: WeightColumn)
    requires AtLeastAsQualified(r, r') && ProperWeights(MergedWeights(w))
    ensures AggregateScore(FallbackSignals(sv, text, r, jd), w).Some?
    ensures AggregateScore(FallbackSignals(sv, text, r', jd), w).Some?
    ensures AggregateScore(FallbackSignals(sv, text, r, jd), w).value.final
         <= AggregateScore(FallbackSignals(sv, text, r', jd), w).value.final
  {
    FallbackSignalsMonotone(sv, text, r, r', jd);
    ScoreMonotone(FallbackSignals(sv, text, r, jd), FallbackSignals(sv, text, r', jd), w);
  }

  /** Passing a filter that is passed by the better candidate too, with scores in order, keeps the verdicts in order. */
  lemma VerdictsInOrder(rejected: bool, rejected': bool, score: real, score': real, t: Thresholds, v: Verdict,
        v': Verdict)
    requires (rejected' ==> rejected) && score <= score'
    requires v == (if rejected then Reject else ApplyThresholds(score, t))
    requires v' == (if rejected' then Reject else ApplyThresholds(score', t))
    ensures Rank(v) <= Rank(v')
  {
    VerdictMonotone(score, score', t);
  }

  /** Without a judge, more skills and more years never lower the verdict, from the filters to the thresholds. */
  lemma VerdictMonotoneInQualifications(
      sv: Services, text: string, r: Resume, r': Resume, jd: Jd, w: WeightColumn, t: Thresholds)
    requires AtLeastAsQualified(r, r') && ProperWeights(MergedWeights(w)) && Criteria(t).Some?
    requires forall p :: sv.judge(p).None?
    ensures Evaluate(sv, text, r, jd, w, t).Some? && Evaluate(sv, text, r', jd, w, t).Some?
    ensures Rank(VerdictOf(Evaluate(sv, text, r, jd, w, t).value))
         <= Rank(VerdictOf(Evaluate(sv, text, r', jd, w, t).value))
  {
    var score := FallbackOutcome(sv, text, r, jd, w, t);
    var score' := FallbackOutcome(sv, text, r', jd, w, t);
    FallbackScoreMonotone(sv, text, r, r', jd, w);
    var rejected, rejected' := ApplyFilters(sv, r, jd, t).Some?, ApplyFilters(sv, r', jd, t).Some?;
    if !rejected {
      MoreSkillsPassFilters(sv, r, r', jd, t);
    }
    VerdictsInOrder(rejected, rejected', score, score', t,
      VerdictOf(Evaluate(sv, text, r, jd, w, t).value), VerdictOf(Evaluate(sv, text, r', jd, w, t).value));
  }

  // ---- The same in plain terms ----

  /** Some skill of the candidate contains the must-have or is contained in it, in lower case. */
  ghost predicate Covered(lower: string -> string, skills: seq<string>, must: string) {
    exists s | s in skills :: Contains(lower(s), lower(must)) || Contains(lower(must), lower(s))
  }

  /**
    The three rules and their order: years against the job's own cutoff or the profile's, location only
    when strict and both sides have one, must-haves last; each rejection names what it rejects for.
   */
  lemma FiltersInPlainTerms(sv: Services, r: Resume, jd: Jd, t: Thresholds, years: real, strict: real)
    requires ReadsAs(t.minYoe, jd.minYoe, years) && ReadsAs(t.locationStrict, 0.0, strict)
    ensures
      var f, lower := ApplyFilters(sv, r, jd, t), sv.tools.lower;
      var here, there := Strip(lower(jd.location)), Strip(lower(r.location));
      var tooFew := jd.minYoe > 0.0 && r.yoe < years;
      var clash := strict != 0.0 && jd.location != "" && here != "" && there != ""
                && !Contains(there, here) && !Contains(here, there);
      && (tooFew ==> f == Some(TooFewYears(r.yoe, years)))
      && (!tooFew && clash ==> f == Some(LocationMismatch(r.location, jd.location)))
      && (!tooFew && !clash ==>
            && (f.None? <==> forall must | must in jd.mustHaves :: Covered(lower, r.skills, must))
            && (f.Some? ==> f.value.MissingSkills?)
            && (f.Some? ==> forall must ::
                  must in f.value.skills <==> must in jd.mustHaves && !Covered(lower, r.skills, must)))
  {
    FiltersPassIff(sv, r, jd, t);
    forall must ensures Covers(sv, r.skills)(must) <==> Covered(sv.tools.lower, r.skills, must) {
    }
  }

  /** The first `n` elements, or all when there are fewer. */
  predicate IsHead<T(==)>(head: seq<T>, xs: seq<T>, n: nat) {
    head <= xs && |head| <= n && (|head| == n || head == xs)
  }

  /** What the judge is asked: ten required skills, ten matched ones, five matched bullets, and the criteria. */
  predicate IsPrompt(sv: Services, r: Resume, jd: Jd, t: Thresholds, p: Prompt) {
    var matched := MatchedSkills(sv.tools, r.skills, jd.required + jd.preferred);
    && IsHead(p.required, jd.required, 10)
    && IsHead(p.matchedSkills, matched, 10)
    && IsHead(p.matchedBullets, MatchedBullets(sv.tools, matched, r.bullets), 5)
    && match t.rubric
       case None => p.criteria == "technical_fit, experience_depth"
       case Some(x) => x == 0.0 && p.criteria == "technical_fit, communication, leadership"
  }

  lemma HeadIsUnique<T>(head: seq<T>, head': seq<T>, xs: seq<T>, n: nat)
    requires IsHead(head, xs, n) && IsHead(head', xs, n)
    ensures head == head'
  {
    assert head == xs[..|head|] && head' == xs[..|head'|];
  }

  /** The prompt of the evaluation is the one described. */
  lemma PromptIsUnique(sv: Services, r: Resume, jd: Jd, t: Thresholds, p: Prompt)
    requires IsPrompt(sv, r, jd, t, p)
    ensures
      var matched := MatchedSkills(sv.tools, r.skills, jd.required + jd.preferred);
      var bullets := MatchedBullets(sv.tools, matched, r.bullets);
      && Criteria(t) == Some(p.criteria)
      && p == Prompt(AtMostFirst(jd.required, 10), AtMostFirst(matched, 10), AtMostFirst(bullets, 5), p.criteria)
  {
    var matched := MatchedSkills(sv.tools, r.skills, jd.required + jd.preferred);
    var bullets := MatchedBullets(sv.tools, matched, r.bullets);
    HeadIsUnique(p.required, AtMostFirst(jd.required, 10), jd.required, 10);
    HeadIsUnique(p.matchedSkills, AtMostFirst(matched, 10), matched, 10);
    HeadIsUnique(p.matchedBullets, AtMostFirst(bullets, 5), bullets, 5);
  }

  /** The result of aggregating these signals, with this rubric and these reasons. */
  ghost predicate Aggregates(
      e: Option<Result>, sv: Services, r: Resume, jd: Jd, w: WeightColumn, t: Thresholds,
      signals: Triple, scores: map<string, real>, reasons: map<string, string>) {
    var a := AggregateScore(signals, w);
    && a.Some? && e.Some? && e.value.Scored?
    && e.value.score == a.value.final && e.value.verdict == ApplyThresholds(a.value.final, t)
    && e.value.rubric == scores && e.value.reasons == reasons
    && e.value.matchedSkills == MatchedSkills(sv.tools, r.skills, jd.required + jd.preferred)
    && e.value.breakdown == a.value.breakdown && e.value.model == sv.model
  }

  /** When the judge answers, its score is among the signals, and its rubric and reasons are in the result. */
  lemma JudgedEvaluation(
      sv: Services, text: string, r: Resume, jd: Jd, w: WeightColumn, t: Thresholds, p: Prompt, j: Judgement)
    requires ApplyFilters(sv, r, jd, t).None? && IsPrompt(sv, r, jd, t, p) && sv.judge(p) == Some(j)
    requires Total(MergedWeights(w)) != 0.0
    ensures
      var overlap := SkillOverlap(sv.tools, r.skills, jd.required + jd.preferred);
      Aggregates(Evaluate(sv, text, r, jd, w, t), sv, r, jd, w, t,
                 Triple(overlap, Similarity(sv, text, r, jd), j.overall), j.scores, j.reasons)
  {
    PromptIsUnique(sv, r, jd, t, p);
  }

  /** When the judge fails, the rounded overlap stands in for its score, and the reasons say so. */
  lemma UnjudgedEvaluation(
      sv: Services, text: string, r: Resume, jd: Jd, w: WeightColumn, t: Thresholds, p: Prompt)
    requires ApplyFilters(sv, r, jd, t).None? && IsPrompt(sv, r, jd, t, p) && sv.judge(p).None?
    requires Total(MergedWeights(w)) != 0.0
    ensures
      var overlap := SkillOverlap(sv.tools, r.skills, jd.required + jd.preferred);
      var score := Rounding.Round4(overlap);
      Aggregates(Evaluate(sv, text, r, jd, w, t), sv, r, jd, w, t,
                 Triple(overlap, Similarity(sv, text, r, jd), score), map["technical_fit" := score],
                 map["technical_fit" := "LLM judge unavailable; score derived from skill overlap"])
  {
    PromptIsUnique(sv, r, jd, t, p);
  }

  /** A rejection by the filters stands; past them evaluation raises only for a numeric rubric or zero weights. */
  lemma EvaluationRaisesIff(sv: Services, text: string, r: Resume, jd: Jd, w: WeightColumn, t: Thresholds)
    ensures
      var f, e := ApplyFilters(sv, r, jd, t), Evaluate(sv, text, r, jd, w, t);
      && (f.Some? ==> e == Some(Rejected(f.value)) && VerdictOf(e.value) == Reject)
      && (e.None? <==>
            f.None? && ((t.rubric.Some? && t.rubric.value != 0.0) || Total(MergedWeights(w)) == 0.0))
      && (f.None? && e.Some? ==> e.value.Scored? && VerdictOf(e.value) == e.value.verdict)
  {
  }

  /** The fallback's own verdict uses the fixed cutoffs 0.7 and 0.4. */
  lemma FallbackBands(overlap: real)
    ensures
      var j := FallbackJudgement(overlap);
      && j.overall == Rounding.Round4(overlap)
      && (j.verdict == Fit <==> j.overall >= 0.7) && (j.verdict == Reject <==> j.overall < 0.4)
  {
    VerdictBands(Rounding.Round4(overlap), NO_THRESHOLDS, 0.70, 0.40);
  }

  /** A higher score from the judge never lowers the verdict. */
  lemma VerdictMonotoneInJudgement(
      sv: Services, sv': Services, text: string, r: Resume, jd: Jd, w: WeightColumn, t: Thresholds,
      p: Prompt, j: Judgement, j': Judgement)
    requires sv' == sv.(judge := sv'.judge) && IsPrompt(sv, r, jd, t, p)
    requires sv.judge(p) == Some(j) && sv'.judge(p) == Some(j') && j.overall <= j'.overall
    requires ApplyFilters(sv, r, jd, t).None? && ProperWeights(MergedWeights(w))
    ensures Evaluate(sv, text, r, jd, w, t).Some? && Evaluate(sv', text, r, jd, w, t).Some?
    ensures Rank(VerdictOf(Evaluate(sv, text, r, jd, w, t).value))
         <= Rank(VerdictOf(Evaluate(sv', text, r, jd, w, t).value))
  {
    var overlap := SkillOverlap(sv.tools, r.skills, jd.required + jd.preferred);
    var similarity := Similarity(sv, text, r, jd);
    var low, high := Triple(overlap, similarity, j.overall), Triple(overlap, similarity, j'.overall);
    SameFilters(sv, sv', r, jd, t);
    JudgedEvaluation(sv, text, r, jd, w, t, p, j);
    JudgedEvaluation(sv', text, r, jd, w, t, p, j');
    ScoreMonotone(low, high, w);
    VerdictMonotone(AggregateScore(low, w).value.final, AggregateScore(high, w).value.final, t);
  }

  lemma SameFilters(sv: Services, sv': Services, r: Resume, jd: Jd, t: Thresholds)
    requires sv' == sv.(judge := sv'.judge)
    ensures ApplyFilters(sv, r, jd, t).None? <==> ApplyFilters(sv', r, jd, t).None?
  {
    var years, strict := Or(t.minYoe, jd.minYoe), Or(t.locationStrict, 0.0);
    FiltersInPlainTerms(sv, r, jd, t, years, strict);
    FiltersInPlainTerms(sv', r, jd, t, years, strict);
  }

  /** Embedded are the bullets, or without any the first 500 characters, against the JD's skills and title. */
  lemma SimilarityReads(sv: Services, text: string, r: Resume, jd: Jd, head: string)
    requires IsHead(head, text, 500)
    ensures Similarity(sv, text, r, jd)
         == sv.similarity(if r.bullets == [] then [head] else r.bullets,
                          JoinWithSpaces(jd.required + jd.preferred + [jd.title]))
  {
    HeadIsUnique(head, if |text| <= 500 then text else text[..500], text, 500);
  }

  /** Joining puts one space between neighbours. */
  lemma {:induction false} JoinConcat(xs: seq<string>, ys: seq<string>)
    requires xs != [] && ys != []
    ensures JoinWithSpaces(xs + ys) == JoinWithSpaces(xs) + " " + JoinWithSpaces(ys)
    ensures |xs| == 1 ==> JoinWithSpaces(xs) == xs[0]
  {
    assert (xs + ys)[0] == xs[0] && (xs + ys)[1..] == xs[1..] + ys;
    if |xs| == 1 {
      assert xs + ys == [xs[0]] + ys;
    } else {
      JoinConcat(xs[1..], ys);
    }
  }
}
