/** The verdict cache over the real pipeline, and what an unsafe upload does to it. */
module CachedPipeline {
  import opened Basics
  import opened JsonText
  import opened CacheKey
  import opened Scoring
  import opened Pipeline
  import opened Jobs
  import opened VerdictCache
  import opened UnsafeUploads
  import Matching
  import JsonEquality

  /** The services behind the pipeline, taken as functions of their inputs. */
  datatype Backends = Backends(
    services: Services,
    number: string -> real,           // the float a JSON number literal stands for
    parseResume: string -> Resume,
    parseJd: string -> Jd,
    validateJd: Json -> Option<Jd>,   // None: the stored profile does not validate
    literal: real -> string,          // how Python prints a float
    extract: string -> string,
    digest: string -> string)

  /** Digests do not collide, validation reads a dict by key, and floats are printed as number literals. */
  ghost predicate Faithful(b: Backends) {
    && PrintsNumbers(b.literal)
    && (forall x, y :: b.digest(x) == b.digest(y) ==> x == y)
    && (forall v, w :: Equal(v, w) ==> b.validateJd(v) == b.validateJd(w))
  }

  // ---- Reading the weights and thresholds columns ----

  function NumberAt(b: Backends, column: Json, key: string): Option<real>
    requires column.Obj?
  {
    match Lookup(column.fields, key)
    case Some(Num(x)) => Some(b.number(x))
    case _ => None
  }

  function WeightsOf(b: Backends, column: Json): WeightColumn
    requires column.Obj?
  {
    WeightColumn(NumberAt(b, column, "skill_overlap"), NumberAt(b, column, "cosine"), NumberAt(b, column, "judge"))
  }

  function ThresholdsOf(b: Backends, column: Json): Thresholds
    requires column.Obj?
  {
    Thresholds(NumberAt(b, column, "fit"), NumberAt(b, column, "maybe"), NumberAt(b, column, "min_yoe"),
               NumberAt(b, column, "location_strict"), NumberAt(b, column, "rubric"))
  }

  /** The value is the number stored under the key, and nothing when the key is missing. */
  predicate Reads(b: Backends, column: Json, key: string, value: Option<real>)
    requires column.Obj?
  {
    && (forall f | f in column.fields :: f.key == key && f.value.Num? ==> value == Some(b.number(f.value.literal)))
    && ((forall f | f in column.fields :: f.key != key) ==> value.None?)
  }

  lemma NumberIsRead(b: Backends, column: Json, key: string)
    requires NumbersOnly(column) && WellFormed(column)
    ensures Reads(b, column, key, NumberAt(b, column, key))
  {
    forall f | f in column.fields && f.key == key
      ensures f.value.Num? ==> NumberAt(b, column, key) == Some(b.number(f.value.literal))
    {
      LookupFinds(column.fields, f);
    }
    if Lookup(column.fields, key).Some? {
      var f := LookupFound(column.fields, key);
    }
  }

  /** Each weight is read under its own key. */
  lemma WeightsAreRead(b: Backends, column: Json)
    requires NumbersOnly(column) && WellFormed(column)
    ensures
      var w := WeightsOf(b, column);
      && Reads(b, column, "skill_overlap", w.skillOverlap)
      && Reads(b, column, "cosine", w.cosine) && Reads(b, column, "judge", w.judge)
  {
    NumberIsRead(b, column, "skill_overlap");
    NumberIsRead(b, column, "cosine");
    NumberIsRead(b, column, "judge");
  }

  /** And each threshold. */
  lemma ThresholdsAreRead(b: Backends, column: Json)
    requires NumbersOnly(column) && WellFormed(column)
    ensures
      var t := ThresholdsOf(b, column);
      && Reads(b, column, "fit", t.fit) && Reads(b, column, "maybe", t.maybe)
      && Reads(b, column, "min_yoe", t.minYoe)
      && Reads(b, column, "location_strict", t.locationStrict) && Reads(b, column, "rubric", t.rubric)
  {
    NumberIsRead(b, column, "fit");
    NumberIsRead(b, column, "maybe");
    NumberIsRead(b, column, "min_yoe");
    NumberIsRead(b, column, "location_strict");
    NumberIsRead(b, column, "rubric");
  }

  /** The job profile: the stored one, or a fresh parse of the raw description when nothing is stored. */
  function JobProfile(b: Backends, job: Job): Option<Jd> {
    if job.jd == EMPTY then Some(b.parseJd(job.jdRaw)) else b.validateJd(job.jd)
  }

  function InputsOf(job: Job, text: string): Inputs {
    Inputs(text, job.jd, job.weights, job.thresholds)
  }

  /** The pipeline after the cache check, given the candidate's profile. None: it raises. */
  function Compute(b: Backends, job: Job, text: string, profile: Resume): Option<Result> {
    if !(job.weights.Obj? && job.thresholds.Obj?) then None
    else
      match JobProfile(b, job)
      case None => None
      case Some(jd) => Evaluate(b.services, text, profile, jd, WeightsOf(b, job.weights),
        ThresholdsOf(b, job.thresholds))
  }

  /** For a job as stored: the validated profile evaluated with the job's own numbers; nothing when it is not valid. */
  lemma ComputeEvaluates(b: Backends, job: Job, text: string, profile: Resume, w: WeightColumn, t: Thresholds)
    requires Proper(job) && w == WeightsOf(b, job.weights) && t == ThresholdsOf(b, job.thresholds)
    ensures b.validateJd(job.jd).None? ==> Compute(b, job, text, profile).None?
    ensures b.validateJd(job.jd).Some? ==>
      Compute(b, job, text, profile) == Evaluate(b.services, text, profile, b.validateJd(job.jd).value, w, t)
  {
  }

  function EnvOf(b: Backends): Env {
    Env(
      job => Proper(job),
      (job, text) => b.digest(Payload(InputsOf(job, text))),
      (job, text, profile) => Compute(b, job, text, profile),
      b.parseResume,
      b.parseJd,
      b.literal,
      b.extract)
  }

  /** Whatever requests come, every stored job is proper. */
  lemma JobsAreStoredProper(b: Backends)
    requires Faithful(b)
    ensures StoresProper(EnvOf(b))
  {
    var env := EnvOf(b);
    forall order, available ensures env.proper(Created(env.parseJd, env.literal, order, available)) {
      CreatedIsProper(env.parseJd, env.literal, order, available);
    }
    forall job, profile | env.proper(job) ensures env.proper(Reparsed(env.literal, job, profile)) {
      ReparsedIsProper(env.literal, job, profile);
    }
    forall job, weights, thresholds | env.proper(job) ensures env.proper(Patched(job, weights, thresholds)) {
      PatchedIsProper(job, weights, thresholds);
    }
  }

  /** In every run no stored job has an empty profile, so no job is parsed while a candidate is judged. */
  lemma EveryJobIsProper(b: Backends, steps: seq<Step>, j: Id)
    requires Faithful(b) && ValidRun(EnvOf(b), INITIAL, steps) && j in Run(EnvOf(b), INITIAL, steps).jobs
    ensures var job := Run(EnvOf(b), INITIAL, steps).jobs[j];
      Proper(job) && JobProfile(b, job) == b.validateJd(job.jd)
  {
    JobsAreStoredProper(b);
    JobsStayProper(EnvOf(b), INITIAL, steps);
    assert EnvOf(b).proper(Run(EnvOf(b), INITIAL, steps).jobs[j]);
  }

  // ---- Equal inputs give equal results ----

  lemma LookupCarries(v: Json, w: Json, key: string)
    requires NumbersOnly(v) && WellFormed(w) && w.Obj? && Equal(v, w) && Lookup(v.fields, key).Some?
    ensures Lookup(w.fields, key) == Lookup(v.fields, key)
  {
    var f := LookupFound(v.fields, key);
    var g := JsonEquality.Partner(v.fields, w.fields, f);
    var i :| 0 <= i < |v.fields| && v.fields[i] == f;
    LookupFinds(w.fields, g);
  }

  lemma EqualSymmetric(v: Json, w: Json)
    requires WellFormed(v) && WellFormed(w) && Equal(v, w)
    ensures Equal(w, v)
  {
    JsonEquality.SameTextIffEqual(v, w);
    JsonEquality.SameTextIffEqual(w, v);
  }

  lemma LookupSame(v: Json, w: Json, key: string)
    requires NumbersOnly(v) && NumbersOnly(w) && WellFormed(v) && WellFormed(w) && Equal(v, w)
    ensures Lookup(v.fields, key) == Lookup(w.fields, key)
  {
    EqualSymmetric(v, w);
    if Lookup(v.fields, key).Some? {
      LookupCarries(v, w, key);
    } else if Lookup(w.fields, key).Some? {
      LookupCarries(w, v, key);
    }
  }

  lemma ColumnsSame(b: Backends, v: Json, w: Json)
    requires NumbersOnly(v) && NumbersOnly(w) && WellFormed(v) && WellFormed(w) && Equal(v, w)
    ensures WeightsOf(b, v) == WeightsOf(b, w) && ThresholdsOf(b, v) == ThresholdsOf(b, w)
  {
    LookupSame(v, w, "skill_overlap");
    LookupSame(v, w, "cosine");
    LookupSame(v, w, "judge");
    LookupSame(v, w, "fit");
    LookupSame(v, w, "maybe");
    LookupSame(v, w, "min_yoe");
    LookupSame(v, w, "location_strict");
    LookupSame(v, w, "rubric");
  }

  /** With a stored job profile, the cache key determines what the pipeline gives. */
  lemma KeyDeterminesResult(b: Backends, job: Job, text: string, job': Job, text': string, r: Resume)
    requires Faithful(b) && Proper(job) && Proper(job')
    requires b.digest(Payload(InputsOf(job, text))) == b.digest(Payload(InputsOf(job', text')))
    ensures text == text' && Compute(b, job, text, r) == Compute(b, job', text', r)
  {
    PayloadIdentifiesInputs(InputsOf(job, text), InputsOf(job', text'));
    ColumnsSame(b, job.weights, job'.weights);
    ColumnsSame(b, job.thresholds, job'.thresholds);
    assert JobProfile(b, job) == JobProfile(b, job');
  }

  lemma RealPipelineIsSound(b: Backends)
    requires Faithful(b)
    ensures Sound(EnvOf(b))
  {
    var env := EnvOf(b);
    forall job, text, job', text' | env.proper(job) && env.proper(job') && env.key(job, text) == env.key(job', text')
      ensures Recompute(env, job, text) == Recompute(env, job', text')
    {
      KeyDeterminesResult(b, job, text, job', text', b.parseResume(text));
    }
  }

  /**
    Cache coherence of the service: in every run whose uploads are safe, each verdict written, served
    from the cache or computed, is what parsing the resume afresh and running the pipeline gives for
    the same inputs.
   */
  lemma CachedRunsEqualRecomputation(b: Backends, steps: seq<Step>)
    requires Faithful(b) && ValidRun(EnvOf(b), INITIAL, steps) && SafeUploads(EnvOf(b), INITIAL, steps)
    ensures forall e | e in Run(EnvOf(b), INITIAL, steps).written ::
      Compute(b, e.job, e.text, b.parseResume(e.text)) == Some(e.result)
  {
    var env := EnvOf(b);
    CoherentFromTheStart(b, steps);
    forall e | e in Run(env, INITIAL, steps).written
      ensures Compute(b, e.job, e.text, b.parseResume(e.text)) == Some(e.result)
    {
      assert CorrectFor(env, e.job, e.text, e.result);
      assert Recompute(env, e.job, e.text) == Compute(b, e.job, e.text, b.parseResume(e.text));
    }
  }

  /** So is each verdict in the cache, for every job that can be stored and every text that share its key. */
  lemma CacheEqualsRecomputation(b: Backends, steps: seq<Step>, job: Job, text: string)
    requires Faithful(b) && ValidRun(EnvOf(b), INITIAL, steps) && SafeUploads(EnvOf(b), INITIAL, steps)
    requires Proper(job) && b.digest(Payload(InputsOf(job, text))) in Run(EnvOf(b), INITIAL, steps).cache
    ensures
      var cache := Run(EnvOf(b), INITIAL, steps).cache;
      Compute(b, job, text, b.parseResume(text)) == Some(cache[b.digest(Payload(InputsOf(job, text)))])
  {
    var env, cache := EnvOf(b), Run(EnvOf(b), INITIAL, steps).cache;
    CoherentFromTheStart(b, steps);
    assert env.proper(job) && env.key(job, text) in cache;
    assert CorrectFor(env, job, text, cache[env.key(job, text)]);
    assert Recompute(env, job, text) == Compute(b, job, text, b.parseResume(text));
  }

  lemma CoherentFromTheStart(b: Backends, steps: seq<Step>)
    requires Faithful(b) && ValidRun(EnvOf(b), INITIAL, steps) && SafeUploads(EnvOf(b), INITIAL, steps)
    ensures Sound(EnvOf(b)) && Coherent(EnvOf(b), Run(EnvOf(b), INITIAL, steps))
  {
    RealPipelineIsSound(b);
    JobsAreStoredProper(b);
    InitialIsCoherent(EnvOf(b));
    RunsAreCoherent(EnvOf(b), INITIAL, steps);
  }

  /** And the text of a verdict is the one the candidate stands for when it is written. */
  lemma VerdictsAreForCurrentText(b: Backends, steps: seq<Step>, step: Step)
    requires Faithful(b) && ValidRun(EnvOf(b), INITIAL, steps) && SafeUploads(EnvOf(b), INITIAL, steps)
    requires Enabled(EnvOf(b), Run(EnvOf(b), INITIAL, steps), step) && (step.ServeCached? || step.Score?)
    ensures
      var s := Run(EnvOf(b), INITIAL, steps);
      var after := Apply(EnvOf(b), s, step);
      && |after.written| == |s.written| + 1
      && var e := after.written[|s.written|];
        && e.candidate in s.rows && ResolveText(EnvOf(b), s.rows[e.candidate]) == Some(e.text)
        && Compute(b, e.job, e.text, b.parseResume(e.text)) == Some(e.result)
  {
    CoherentFromTheStart(b, steps);
    WrittenForCurrentText(EnvOf(b), Run(EnvOf(b), INITIAL, steps), step);
  }

  // ---- What a profile of another resume does ----

  /** The years filter decides, and the job does not override it. */
  predicate AsksForYears(b: Backends, job: Job, years: real) {
    && job.weights.Obj? && job.thresholds.Obj? && Lookup(job.thresholds.fields, "min_yoe").None?
    && JobProfile(b, job).Some? && JobProfile(b, job).value.minYoe == years && years > 0.0
  }

  /**
    Why a proper job has a profile: two jobs without one that differ in the raw description alone
    would share every key, and differ in the verdict as soon as one asks for more years than the
    candidate has and the other does not.
   */
  lemma EmptyProfileIsAmbiguous(b: Backends, job: Job, raw: string, text: string, r: Resume, years: real, years': real)
    requires job.jd == EMPTY && AsksForYears(b, job, years) && AsksForYears(b, job.(jdRaw := raw), years')
    requires (r.yoe < years) != (r.yoe < years')
    ensures Payload(InputsOf(job, text)) == Payload(InputsOf(job.(jdRaw := raw), text))
    ensures Compute(b, job, text, r) != Compute(b, job.(jdRaw := raw), text, r)
  {
    YearsDecide(b, job, text, r, years);
    YearsDecide(b, job.(jdRaw := raw), text, r, years');
    assert InputsOf(job, text) == InputsOf(job.(jdRaw := raw), text);
  }

  /** Evaluation raises on no resume: the weights do not add up to zero, and no number is stored as rubric but zero. */
  predicate NeverRaises(b: Backends, job: Job) {
    && Proper(job) && JobProfile(b, job).Some?
    && Total(MergedWeights(WeightsOf(b, job.weights))) != 0.0 && Criteria(ThresholdsOf(b, job.thresholds)).Some?
  }

  lemma NeverRaisesEvaluation(sv: Services, text: string, r: Resume, jd: Jd, w: WeightColumn, t: Thresholds)
    requires Total(MergedWeights(w)) != 0.0 && Criteria(t).Some?
    ensures Evaluate(sv, text, r, jd, w, t).Some?
  {
  }

  lemma ComputeIsSome(b: Backends, job: Job, text: string, r: Resume)
    requires NeverRaises(b, job)
    ensures Compute(b, job, text, r).Some?
  {
    NeverRaisesEvaluation(b.services, text, r, JobProfile(b, job).value, WeightsOf(b, job.weights),
      ThresholdsOf(b, job.thresholds));
  }

  lemma YearsDecide(b: Backends, job: Job, text: string, r: Resume, years: real)
    requires AsksForYears(b, job, years)
    ensures
      var result := Compute(b, job, text, r);
      result.Some? && result.value.Rejected? && result.value.reason.TooFewYears? <==> r.yoe < years
  {
    var jd, w, t := JobProfile(b, job).value, WeightsOf(b, job.weights), ThresholdsOf(b, job.thresholds);
    assert Compute(b, job, text, r) == Evaluate(b.services, text, r, jd, w, t);
    YearsDecideEvaluation(b.services, text, r, jd, w, t);
  }

  lemma YearsDecideEvaluation(sv: Services, text: string, r: Resume, jd: Jd, w: WeightColumn, t: Thresholds)
    requires t.minYoe.None? && jd.minYoe > 0.0
    ensures
      var e := Evaluate(sv, text, r, jd, w, t);
      e.Some? && e.value.Rejected? && e.value.reason.TooFewYears? <==> r.yoe < jd.minYoe
  {
  }

  /**
    A profile left over from an earlier resume changes the verdict: whenever it has too few years
    for the job and the new resume has enough, or the other way round.
   */
  lemma StaleProfileChangesVerdict(b: Backends, job: Job, text: string, stored: Resume, years: real)
    requires AsksForYears(b, job, years) && (stored.yoe < years) != (b.parseResume(text).yoe < years)
    ensures Compute(b, job, text, stored) != Compute(b, job, text, b.parseResume(text))
  {
    YearsDecide(b, job, text, stored, years);
    YearsDecide(b, job, text, b.parseResume(text), years);
  }

  /** A job that asks for years tells apart a resume that has them and one that has not. */
  lemma YearsTellApart(b: Backends, job: Job, years: real, junior: string, senior: string)
    requires AsksForYears(b, job, years) && NeverRaises(b, job)
    requires LongEnough(b.extract(junior)) && LongEnough(b.extract(senior))
    requires b.parseResume(b.extract(junior)).yoe < years <= b.parseResume(b.extract(senior)).yoe
    ensures TellsApart(EnvOf(b), job, junior, senior)
  {
    var env := EnvOf(b);
    forall profile ensures Misjudges(env, job, profile, junior) || Misjudges(env, job, profile, senior) {
      var file := if profile.yoe < years then senior else junior;
      var text := b.extract(file);
      StaleProfileChangesVerdict(b, job, text, profile, years);
      ComputeIsSome(b, job, text, profile);
      assert env.evaluate(job, text, profile) == Compute(b, job, text, profile);
      assert Recompute(env, job, text) == Compute(b, job, text, b.parseResume(text));
    }
  }

  /**
    After an upload over a stored profile that decides otherwise, whichever way, the next worker
    leaves a cache entry that is not what recomputing gives.
   */
  lemma UploadSpoilsCache(b: Backends, s: State, c: Id, file: string, w: Id, years: real)
    requires c in s.rows && s.rows[c].parsed.Some? && s.rows[c].job in s.jobs && w !in s.workers
    requires LongEnough(b.extract(file))
    requires
      var job, stored, current := s.jobs[s.rows[c].job], s.rows[c].parsed.value, b.parseResume(b.extract(file));
      && Proper(job) && AsksForYears(b, job, years) && (stored.yoe < years) != (current.yoe < years)
      && (stored.yoe >= years ==> Compute(b, job, b.extract(file), stored).Some?)
    ensures
      var env, uploaded := EnvOf(b), AfterUpload(s, c, file);
      ValidRun(env, uploaded, WholeJob(w, c)) && !CoherentCache(env, Run(env, uploaded, WholeJob(w, c)).cache)
  {
    var env, job, text, stored := EnvOf(b), s.jobs[s.rows[c].job], b.extract(file), s.rows[c].parsed.value;
    YearsDecide(b, job, text, stored, years);
    StaleProfileChangesVerdict(b, job, text, stored, years);
    UploadJudgesByOldProfile(env, s, c, file, w);
    var after := Run(env, AfterUpload(s, c, file), WholeJob(w, c));
    assert env.key(job, text) in after.cache;
    assert !CorrectFor(env, job, text, after.cache[env.key(job, text)]);
  }

  // ---- A concrete case ----

  function Years(n: real): Resume {
    Resume("", "", n, "", [], [])
  }

  function Asking(n: real): Jd {
    Jd("Engineer", [], [], n, "", [])
  }

  /** A resume of a hundred letters. */
  const LONG_RESUME: string := seq(MIN_RESUME_CHARS, _ => 'x')

  lemma LongResumeIsLong()
    ensures LongEnough(LONG_RESUME)
  {
    var s := LONG_RESUME;
    assert StripLeft(s) == s && StripRight(s) == s;
  }

  /** The text of another resume. */
  const OTHER_RESUME: string := seq(MIN_RESUME_CHARS, _ => 'y')

  lemma OtherResumeIsLong()
    ensures LongEnough(OTHER_RESUME) && OTHER_RESUME != LONG_RESUME
  {
    var s := OTHER_RESUME;
    assert StripLeft(s) == s && StripRight(s) == s;
    assert OTHER_RESUME[0] != LONG_RESUME[0];
  }

  /** One resume file shows ten years and all others none; every stored job profile asks for three. */
  function SampleBackends(): Backends {
    Backends(
      Services(Matching.TextTools(s => s, s => s), (bullets, jd) => 0.0, p => None, "none"),
      x => 0.0, text => if text == LONG_RESUME then Years(10.0) else Years(0.0),
      raw => Asking(3.0), jd => Some(Asking(3.0)), x => "0.0",
      file => if file == "new.pdf" then LONG_RESUME else OTHER_RESUME, s => s)
  }

  const SAMPLE_ORDER := Order("", None, None, None)

  function SampleJob(): Job {
    Created(SampleBackends().parseJd, SampleBackends().literal, SAMPLE_ORDER, true)
  }

  lemma SampleIsFaithful()
    ensures Faithful(SampleBackends())
  {
    assert IsNumber("0.0");
  }

  lemma SampleJobAsksForYears()
    ensures AsksForYears(SampleBackends(), SampleJob(), 3.0) && NeverRaises(SampleBackends(), SampleJob())
  {
    SampleIsFaithful();
    CreatedIsProper(SampleBackends().parseJd, SampleBackends().literal, SAMPLE_ORDER, true);
  }

  /** The service as modelled does have a job that tells two resumes apart. */
  lemma SampleJobTellsApart()
    ensures TellsApart(EnvOf(SampleBackends()), SampleJob(), "old.pdf", "new.pdf")
  {
    LongResumeIsLong();
    OtherResumeIsLong();
    SampleJobAsksForYears();
    YearsTellApart(SampleBackends(), SampleJob(), 3.0, "old.pdf", "new.pdf");
  }

  /**
    A run from the start: a candidate's resume is parsed, another one is uploaded, and the next worker
    spoils the cache.
   */
  lemma UploadSpoilsCacheFromTheStart() returns (before: seq<Step>, after: seq<Step>)
    ensures
      var env, steps := EnvOf(SampleBackends()), before + [Upload(0, "new.pdf")] + after;
      && Faithful(SampleBackends())
      && ValidRun(env, INITIAL, steps) && !CoherentCache(env, Run(env, INITIAL, steps).cache)
  {
    var env := EnvOf(SampleBackends());
    before, after := Setup(SAMPLE_ORDER, "old.pdf") + PARSE_AND_STOP, WholeJob(1, 0);
    SampleIsFaithful();
    SampleFiles();
    ParsedOnceIsReachable(env, SAMPLE_ORDER, "old.pdf");
    var s := Run(env, INITIAL, before);
    SampleUpload(s);
    UploadThen(env, before, 0, "new.pdf", after);
  }

  lemma SampleFiles()
    ensures
      var b := SampleBackends();
      && LongEnough(b.extract("old.pdf")) && b.parseResume(b.extract("old.pdf")) == Years(0.0)
      && LongEnough(b.extract("new.pdf")) && b.parseResume(b.extract("new.pdf")) == Years(10.0)
  {
    LongResumeIsLong();
    OtherResumeIsLong();
  }

  lemma SampleUpload(s: State)
    requires ParsedOnce(EnvOf(SampleBackends()), SAMPLE_ORDER, "old.pdf", s)
    ensures
      var env, uploaded := EnvOf(SampleBackends()), AfterUpload(s, 0, "new.pdf");
      ValidRun(env, uploaded, WholeJob(1, 0)) && !CoherentCache(env, Run(env, uploaded, WholeJob(1, 0)).cache)
  {
    SampleFiles();
    SampleJobAsksForYears();
    UploadSpoilsCache(SampleBackends(), s, 0, "new.pdf", 1, 3.0);
  }
}
