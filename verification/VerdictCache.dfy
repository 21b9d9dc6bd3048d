/**
  The verdict cache of `process_candidate`: workers run step by step and interleave freely, on the
  same candidate too; jobs are edited, cache entries vanish, workers die anywhere. Every verdict
  written, cached or computed, is the one the uncached pipeline gives for the same inputs.
  The pipeline and the cache key are parameters here; `CachedPipeline` puts the real ones in.
 */
module VerdictCache {
  import opened Basics
  import opened Jobs
  import opened Pipeline

  type Id = nat

  datatype Env = Env(
    proper: Job -> bool,                              // what is known of every stored job
    key: (Job, string) -> string,                     // cache key of a job and a resume text
    evaluate: (Job, string, Resume) -> Option<Result>,  // the pipeline after the cache check; None: it raises
    parseResume: string -> Resume,
    parseJd: string -> Jd,
    literal: real -> string,                          // how Python prints a float
    extract: string -> string)                        // the text of the file a resume_url points to

  /** What the uncached pipeline gives. */
  function Recompute(env: Env, job: Job, text: string): Option<Result> {
    env.evaluate(job, text, env.parseResume(text))
  }

  /** The key determines the result. */
  ghost predicate Sound(env: Env) {
    forall job, text, job', text' | env.proper(job) && env.proper(job') && env.key(job, text) == env.key(job', text') ::
      Recompute(env, job, text) == Recompute(env, job', text')
  }

  /** The ways a job is written keep what is known of it. */
  ghost predicate StoresProper(env: Env) {
    && (forall order, available :: env.proper(Created(env.parseJd, env.literal, order, available)))
    && (forall job, profile | env.proper(job) :: env.proper(Reparsed(env.literal, job, profile)))
    && (forall job, weights, thresholds | env.proper(job) :: env.proper(Patched(job, weights, thresholds)))
  }

  // ---- The protocol ----

  datatype Row = Row(job: Id, text: Option<string>, source: Option<string>, parsed: Option<Resume>)

  const MIN_RESUME_CHARS := 100

  predicate LongEnough(text: string) {
    |Strip(text)| >= MIN_RESUME_CHARS
  }

  /** The stored text if long enough, else the text of the resume file; None when neither will do. */
  function ResolveText(env: Env, row: Row): Option<string> {
    if row.text.Some? && LongEnough(row.text.value) then row.text
    else if row.source.None? then None
    else if LongEnough(env.extract(row.source.value)) then Some(env.extract(row.source.value))
    else None
  }

  /** A worker between two commits, with what its session has read. */
  datatype Worker =
    | Loaded(candidate: Id, row: Row, job: Job)
    | Resolved(candidate: Id, job: Job, text: string, parsed: Option<Resume>)
    | Profiled(candidate: Id, job: Job, text: string, profile: Resume)
    | Storing(job: Job, text: string, result: Result)

  /** An evaluation row, with the inputs it was made from. */
  datatype Written = Written(candidate: Id, job: Job, text: string, result: Result)

  /** `deferred` are the jobs whose description has still to be parsed. */
  datatype State = State(
    jobs: map<Id, Job>, deferred: set<Id>, rows: map<Id, Row>, workers: map<Id, Worker>, cache: map<string, Result>,
    written: seq<Written>)

  const INITIAL := State(map[], {}, map[], map[], map[], [])

  datatype Step =
    | CreateJob(job: Id, order: Order, available: bool)
    | ParseJob(job: Id)
    | PatchJob(job: Id, weights: Option<Floats>, thresholds: Option<Floats>)
    | AddCandidate(candidate: Id, ofJob: Id, source: Option<string>)
    | Upload(candidate: Id, file: string)
    | Start(worker: Id, candidate: Id)
    | Resolve(worker: Id)
    | ServeCached(worker: Id)
    | MakeProfile(worker: Id)
    | Score(worker: Id)
    | Store(worker: Id)
    | Stop(worker: Id)
    | Expire(key: string)

  predicate Holds(w: Worker, c: Id) {
    !w.Storing? && w.candidate == c
  }

  /** A worker that has read a candidate without a usable resume: it can only fail. */
  predicate Idle(env: Env, w: Worker) {
    w.Loaded? && ResolveText(env, w.row).None?
  }

  /** A new resume may replace the old one only while there is no profile of an old one, stored or about to be. */
  predicate UploadIsSafe(env: Env, s: State, c: Id)
    requires c in s.rows
  {
    s.rows[c].parsed.None? && forall w | w in s.workers && Holds(s.workers[w], c) :: Idle(env, s.workers[w])
  }

  /** `create_job`: without a profile and without the language model the parse is deferred. */
  function AfterCreateJob(env: Env, s: State, j: Id, order: Order, available: bool): State {
    var deferred := if order.override.None? && !available then s.deferred + {j} else s.deferred;
    s.(jobs := s.jobs[j := Created(env.parseJd, env.literal, order, available)], deferred := deferred)
  }

  /** `upload_candidate_resume`: new file, no text, and `parsed` left as it was. */
  function AfterUpload(s: State, c: Id, file: string): State
    requires c in s.rows
  {
    s.(rows := s.rows[c := s.rows[c].(source := Some(file), text := None)])
  }

  function AfterStart(s: State, w: Id, c: Id): State
    requires c in s.rows && s.rows[c].job in s.jobs
  {
    s.(workers := s.workers[w := Loaded(c, s.rows[c], s.jobs[s.rows[c].job])])
  }

  predicate CanResolve(env: Env, s: State, w: Id) {
    && w in s.workers && s.workers[w].Loaded? && s.workers[w].candidate in s.rows
    && ResolveText(env, s.workers[w].row).Some?
  }

  /** The resume text is settled; it is committed when it differs from the one read. */
  function AfterResolve(env: Env, s: State, w: Id): State
    requires CanResolve(env, s, w)
  {
    var p := s.workers[w];
    var text := ResolveText(env, p.row);
    var s' := s.(workers := s.workers[w := Resolved(p.candidate, p.job, text.value, p.row.parsed)]);
    if text == p.row.text then s' else s'.(rows := s.rows[p.candidate := s.rows[p.candidate].(text := text)])
  }

  predicate Hit(env: Env, s: State, w: Id) {
    w in s.workers && s.workers[w].Resolved? && env.key(s.workers[w].job, s.workers[w].text) in s.cache
  }

  function AfterServeCached(env: Env, s: State, w: Id): State
    requires Hit(env, s, w)
  {
    var p := s.workers[w];
    s.(written := s.written + [Written(p.candidate, p.job, p.text, s.cache[env.key(p.job, p.text)])],
      workers := s.workers - {w})
  }

  predicate CanProfile(s: State, w: Id) {
    w in s.workers && s.workers[w].Resolved? && s.workers[w].candidate in s.rows
  }

  /** The profile read from the row, or a fresh parse, which is committed to the row. */
  function AfterMakeProfile(env: Env, s: State, w: Id): State
    requires CanProfile(s, w)
  {
    var p := s.workers[w];
    var profile := if p.parsed.Some? then p.parsed.value else env.parseResume(p.text);
    var s' := s.(workers := s.workers[w := Profiled(p.candidate, p.job, p.text, profile)]);
    if p.parsed.Some? then s' else s'.(rows := s.rows[p.candidate := s.rows[p.candidate].(parsed := Some(profile))])
  }

  predicate CanScore(env: Env, s: State, w: Id) {
    && w in s.workers && s.workers[w].Profiled?
    && env.evaluate(s.workers[w].job, s.workers[w].text, s.workers[w].profile).Some?
  }

  function AfterScore(env: Env, s: State, w: Id): State
    requires CanScore(env, s, w)
  {
    var p := s.workers[w];
    var result := env.evaluate(p.job, p.text, p.profile).value;
    s.(written := s.written + [Written(p.candidate, p.job, p.text, result)],
       workers := s.workers[w := Storing(p.job, p.text, result)])
  }

  function AfterStore(env: Env, s: State, w: Id): State
    requires w in s.workers && s.workers[w].Storing?
  {
    var p := s.workers[w];
    s.(cache := s.cache[env.key(p.job, p.text) := p.result], workers := s.workers - {w})
  }

  predicate Enabled(env: Env, s: State, step: Step) {
    match step
    case CreateJob(j, _, _) => j !in s.jobs
    case ParseJob(j) => j in s.jobs && j in s.deferred
    case PatchJob(j, _, _) => j in s.jobs
    case AddCandidate(c, j, _) => c !in s.rows && j in s.jobs
    case Upload(c, _) => c in s.rows
    case Start(w, c) => w !in s.workers && c in s.rows && s.rows[c].job in s.jobs
    case Resolve(w) => CanResolve(env, s, w)
    case ServeCached(w) => Hit(env, s, w)
    case MakeProfile(w) => CanProfile(s, w)
    case Score(w) => CanScore(env, s, w)
    case Store(w) => w in s.workers && s.workers[w].Storing?
    case Stop(w) => w in s.workers
    case Expire(_) => true
  }

  function Apply(env: Env, s: State, step: Step): State
    requires Enabled(env, s, step)
  {
    match step
    case CreateJob(j, order, available) => AfterCreateJob(env, s, j, order, available)
    case ParseJob(j) =>
      s.(jobs := s.jobs[j := Reparsed(env.literal, s.jobs[j], env.parseJd(s.jobs[j].jdRaw))],
        deferred := s.deferred - {j})
    case PatchJob(j, weights, thresholds) => s.(jobs := s.jobs[j := Patched(s.jobs[j], weights, thresholds)])
    case AddCandidate(c, j, source) => s.(rows := s.rows[c := Row(j, None, source, None)])
    case Upload(c, file) => AfterUpload(s, c, file)
    case Start(w, c) => AfterStart(s, w, c)
    case Resolve(w) => AfterResolve(env, s, w)
    case ServeCached(w) => AfterServeCached(env, s, w)
    case MakeProfile(w) => AfterMakeProfile(env, s, w)
    case Score(w) => AfterScore(env, s, w)
    case Store(w) => AfterStore(env, s, w)
    case Stop(w) => s.(workers := s.workers - {w})
    case Expire(key) => s.(cache := s.cache - {key})
  }

  predicate ValidRun(env: Env, s: State, steps: seq<Step>)
    decreases |steps|
  {
    steps == [] || (Enabled(env, s, steps[0]) && ValidRun(env, Apply(env, s, steps[0]), steps[1..]))
  }

  function Run(env: Env, s: State, steps: seq<Step>): State
    requires ValidRun(env, s, steps)
    decreases |steps|
  {
    if steps == [] then s else Run(env, Apply(env, s, steps[0]), steps[1..])
  }

  /** Every upload of the run is safe when it comes. */
  predicate SafeUploads(env: Env, s: State, steps: seq<Step>)
    requires ValidRun(env, s, steps)
    decreases |steps|
  {
    steps == []
    || (&& (steps[0].Upload? ==> UploadIsSafe(env, s, steps[0].candidate))
        && SafeUploads(env, Apply(env, s, steps[0]), steps[1..]))
  }

  // ---- Coherence ----

  /** A stored profile is the parse of the text the candidate stands for. */
  predicate FreshProfile(env: Env, row: Row) {
    row.parsed.Some? ==> ResolveText(env, row).Some? && row.parsed.value == env.parseResume(ResolveText(env, row).value)
  }

  /** `result` is what the uncached pipeline gives. */
  predicate CorrectFor(env: Env, job: Job, text: string, result: Result) {
    env.proper(job) && Recompute(env, job, text) == Some(result)
  }

  /**
    A worker at work has the text the candidate stands for, and no profile but that text's; the row has
    one if it has.
   */
  predicate CoherentWorker(env: Env, rows: map<Id, Row>, w: Worker) {
    match w
    case Loaded(c, row, job) =>
      && env.proper(job) && FreshProfile(env, row) && c in rows
      && (ResolveText(env, row).Some? ==> ResolveText(env, row) == ResolveText(env, rows[c]))
      && (row.parsed.Some? ==> rows[c].parsed.Some?)
    case Resolved(c, job, text, parsed) =>
      && env.proper(job) && c in rows && ResolveText(env, rows[c]) == Some(text)
      && (parsed.Some? ==> parsed.value == env.parseResume(text) && rows[c].parsed.Some?)
    case Profiled(c, job, text, profile) =>
      && env.proper(job) && c in rows && ResolveText(env, rows[c]) == Some(text)
      && profile == env.parseResume(text) && rows[c].parsed.Some?
    case Storing(job, text, result) => CorrectFor(env, job, text, result)
  }

  predicate ProperJobs(env: Env, jobs: map<Id, Job>) {
    forall j | j in jobs :: env.proper(jobs[j])
  }

  predicate FreshRows(env: Env, rows: map<Id, Row>) {
    forall c | c in rows :: FreshProfile(env, rows[c])
  }

  predicate CoherentWorkers(env: Env, rows: map<Id, Row>, workers: map<Id, Worker>) {
    forall w | w in workers :: CoherentWorker(env, rows, workers[w])
  }

  ghost predicate CoherentCache(env: Env, cache: map<string, Result>) {
    forall job, text | env.proper(job) && env.key(job, text) in cache ::
      CorrectFor(env, job, text, cache[env.key(job, text)])
  }

  predicate CorrectHistory(env: Env, written: seq<Written>) {
    forall e | e in written :: CorrectFor(env, e.job, e.text, e.result)
  }

  ghost predicate Coherent(env: Env, s: State) {
    && ProperJobs(env, s.jobs) && FreshRows(env, s.rows) && CoherentWorkers(env, s.rows, s.workers)
    && CoherentCache(env, s.cache) && CorrectHistory(env, s.written)
  }

  /** A worker's commit to a row keeps the text the candidate stands for, so it disturbs no other worker. */
  lemma RowCommit(env: Env, rows: map<Id, Row>, workers: map<Id, Worker>, c: Id, row: Row)
    requires FreshRows(env, rows) && CoherentWorkers(env, rows, workers) && c in rows
    requires ResolveText(env, row) == ResolveText(env, rows[c]) && FreshProfile(env, row)
    requires rows[c].parsed.Some? ==> row.parsed.Some?
    ensures FreshRows(env, rows[c := row]) && CoherentWorkers(env, rows[c := row], workers)
  {
    forall w | w in workers ensures CoherentWorker(env, rows[c := row], workers[w]) {
      assert CoherentWorker(env, rows, workers[w]);
    }
  }

  lemma WorkerCommit(env: Env, rows: map<Id, Row>, workers: map<Id, Worker>, w: Id, p: Worker)
    requires CoherentWorkers(env, rows, workers) && CoherentWorker(env, rows, p)
    ensures CoherentWorkers(env, rows, workers[w := p])
  {
  }

  lemma StoreKeepsCache(env: Env, cache: map<string, Result>, job: Job, text: string, result: Result)
    requires Sound(env) && CoherentCache(env, cache) && CorrectFor(env, job, text, result)
    ensures CoherentCache(env, cache[env.key(job, text) := result])
  {
  }

  lemma HistoryGrows(env: Env, written: seq<Written>, e: Written)
    requires CorrectHistory(env, written) && CorrectFor(env, e.job, e.text, e.result)
    ensures CorrectHistory(env, written + [e])
  {
  }

  lemma AddCandidateKeeps(env: Env, s: State, c: Id, j: Id, source: Option<string>)
    requires Coherent(env, s) && c !in s.rows
    ensures Coherent(env, s.(rows := s.rows[c := Row(j, None, source, None)]))
  {
    var rows := s.rows[c := Row(j, None, source, None)];
    forall w | w in s.workers ensures CoherentWorker(env, rows, s.workers[w]) {
      assert CoherentWorker(env, s.rows, s.workers[w]);
    }
  }

  lemma UploadKeeps(env: Env, s: State, c: Id, file: string)
    requires Coherent(env, s) && c in s.rows && UploadIsSafe(env, s, c)
    ensures Coherent(env, AfterUpload(s, c, file))
  {
    var s' := AfterUpload(s, c, file);
    forall w | w in s'.workers ensures CoherentWorker(env, s'.rows, s'.workers[w]) {
      assert CoherentWorker(env, s.rows, s.workers[w]);
      assert Holds(s.workers[w], c) ==> Idle(env, s.workers[w]);
    }
  }

  lemma StartKeeps(env: Env, s: State, w: Id, c: Id)
    requires Coherent(env, s) && c in s.rows && s.rows[c].job in s.jobs
    ensures Coherent(env, AfterStart(s, w, c))
  {
    assert FreshProfile(env, s.rows[c]) && env.proper(s.jobs[s.rows[c].job]);
    WorkerCommit(env, s.rows, s.workers, w, Loaded(c, s.rows[c], s.jobs[s.rows[c].job]));
  }

  lemma ResolveKeeps(env: Env, s: State, w: Id)
    requires Coherent(env, s) && CanResolve(env, s, w)
    ensures Coherent(env, AfterResolve(env, s, w))
  {
    var p := s.workers[w];
    assert CoherentWorker(env, s.rows, p) && FreshProfile(env, s.rows[p.candidate]);
    var text := ResolveText(env, p.row);
    RowCommit(env, s.rows, s.workers, p.candidate, s.rows[p.candidate].(text := text));
    WorkerCommit(env, AfterResolve(env, s, w).rows, s.workers, w,
      Resolved(p.candidate, p.job, text.value, p.row.parsed));
  }

  /** A verdict served from the cache is the verdict the pipeline would have computed. */
  lemma ServedIsCorrect(env: Env, s: State, w: Id)
    requires Coherent(env, s) && Hit(env, s, w)
    ensures
      var p := s.workers[w];
      CorrectFor(env, p.job, p.text, s.cache[env.key(p.job, p.text)])
  {
    assert CoherentWorker(env, s.rows, s.workers[w]);
  }

  lemma ServeCachedKeeps(env: Env, s: State, w: Id)
    requires Coherent(env, s) && Hit(env, s, w)
    ensures Coherent(env, AfterServeCached(env, s, w))
  {
    var p := s.workers[w];
    ServedIsCorrect(env, s, w);
    HistoryGrows(env, s.written, Written(p.candidate, p.job, p.text, s.cache[env.key(p.job, p.text)]));
  }

  lemma MakeProfileKeeps(env: Env, s: State, w: Id)
    requires Coherent(env, s) && CanProfile(s, w)
    ensures Coherent(env, AfterMakeProfile(env, s, w))
  {
    var p := s.workers[w];
    assert CoherentWorker(env, s.rows, p);
    var profile := env.parseResume(p.text);
    RowCommit(env, s.rows, s.workers, p.candidate, s.rows[p.candidate].(parsed := Some(profile)));
    WorkerCommit(env, AfterMakeProfile(env, s, w).rows, s.workers, w, Profiled(p.candidate, p.job, p.text, profile));
  }

  lemma ScoreKeeps(env: Env, s: State, w: Id)
    requires Coherent(env, s) && CanScore(env, s, w)
    ensures Coherent(env, AfterScore(env, s, w))
  {
    var p := s.workers[w];
    assert CoherentWorker(env, s.rows, p);
    var result := env.evaluate(p.job, p.text, p.profile).value;
    HistoryGrows(env, s.written, Written(p.candidate, p.job, p.text, result));
    WorkerCommit(env, s.rows, s.workers, w, Storing(p.job, p.text, result));
  }

  lemma StoreKeeps(env: Env, s: State, w: Id)
    requires Sound(env) && Coherent(env, s) && w in s.workers && s.workers[w].Storing?
    ensures Coherent(env, AfterStore(env, s, w))
  {
    assert CoherentWorker(env, s.rows, s.workers[w]);
    StoreKeepsCache(env, s.cache, s.workers[w].job, s.workers[w].text, s.workers[w].result);
  }

  lemma JobStepIsProper(env: Env, s: State, step: Step)
    requires StoresProper(env) && ProperJobs(env, s.jobs) && Enabled(env, s, step)
    ensures ProperJobs(env, Apply(env, s, step).jobs)
  {
    match step
    case CreateJob(j, order, available) =>
      assert env.proper(Created(env.parseJd, env.literal, order, available));
    case ParseJob(j) =>
      assert env.proper(Reparsed(env.literal, s.jobs[j], env.parseJd(s.jobs[j].jdRaw)));
    case PatchJob(j, weights, thresholds) =>
      assert env.proper(Patched(s.jobs[j], weights, thresholds));
    case _ =>
  }

  lemma {:induction false} JobsStayProper(env: Env, s: State, steps: seq<Step>)
    requires StoresProper(env) && ProperJobs(env, s.jobs) && ValidRun(env, s, steps)
    ensures ProperJobs(env, Run(env, s, steps).jobs)
    decreases |steps|
  {
    if steps != [] {
      JobStepIsProper(env, s, steps[0]);
      JobsStayProper(env, Apply(env, s, steps[0]), steps[1..]);
    }
  }

  lemma JobStepKeeps(env: Env, s: State, step: Step)
    requires StoresProper(env) && Coherent(env, s) && Enabled(env, s, step)
    requires step.CreateJob? || step.ParseJob? || step.PatchJob?
    ensures Coherent(env, Apply(env, s, step))
  {
    JobStepIsProper(env, s, step);
  }

  lemma StepKeepsCoherence(env: Env, s: State, step: Step)
    requires Sound(env) && StoresProper(env) && Coherent(env, s) && Enabled(env, s, step)
    requires step.Upload? ==> UploadIsSafe(env, s, step.candidate)
    ensures Coherent(env, Apply(env, s, step))
  {
    match step
    case CreateJob(_, _, _) => JobStepKeeps(env, s, step);
    case ParseJob(_) => JobStepKeeps(env, s, step);
    case PatchJob(_, _, _) => JobStepKeeps(env, s, step);
    case AddCandidate(c, j, source) => AddCandidateKeeps(env, s, c, j, source);
    case Upload(c, file) => UploadKeeps(env, s, c, file);
    case Start(w, c) => StartKeeps(env, s, w, c);
    case Resolve(w) => ResolveKeeps(env, s, w);
    case ServeCached(w) => ServeCachedKeeps(env, s, w);
    case MakeProfile(w) => MakeProfileKeeps(env, s, w);
    case Score(w) => ScoreKeeps(env, s, w);
    case Store(w) => StoreKeeps(env, s, w);
    case _ =>
  }

  /** Over every run with safe uploads: all cached and all written verdicts are those of the uncached pipeline. */
  lemma {:induction false} RunsAreCoherent(env: Env, s: State, steps: seq<Step>)
    requires Sound(env) && StoresProper(env) && Coherent(env, s) && ValidRun(env, s, steps)
    requires SafeUploads(env, s, steps)
    ensures Coherent(env, Run(env, s, steps))
    decreases |steps|
  {
    if steps != [] {
      StepKeepsCoherence(env, s, steps[0]);
      RunsAreCoherent(env, Apply(env, s, steps[0]), steps[1..]);
    }
  }

  lemma InitialIsCoherent(env: Env)
    ensures Coherent(env, INITIAL)
  {
  }

  /** A verdict is written for the text the candidate stands for at that moment, and is right for it. */
  lemma WrittenForCurrentText(env: Env, s: State, step: Step)
    requires Sound(env) && Coherent(env, s) && Enabled(env, s, step) && (step.ServeCached? || step.Score?)
    ensures
      var after := Apply(env, s, step);
      && |after.written| == |s.written| + 1
      && var e := after.written[|s.written|];
        && e.candidate in s.rows && ResolveText(env, s.rows[e.candidate]) == Some(e.text)
        && CorrectFor(env, e.job, e.text, e.result)
  {
    assert CoherentWorker(env, s.rows, s.workers[step.worker]);
    if step.ServeCached? {
      ServedIsCorrect(env, s, step.worker);
    }
  }

  // ---- The text that is judged ----

  /** The stored text if it has 100 characters without the whitespace around them, else the file's if it has. */
  predicate StandsFor(env: Env, row: Row, text: string) {
    && |Strip(text)| >= 100
    && (|| row.text == Some(text)
        || ((row.text.None? || |Strip(row.text.value)| < 100)
            && row.source.Some? && text == env.extract(row.source.value)))
  }

  lemma ResolvedIff(env: Env, row: Row, text: string)
    ensures ResolveText(env, row) == Some(text) <==> StandsFor(env, row, text)
  {
  }

  /** Neither the stored text nor the file's is long enough exactly when nothing is resolved. */
  lemma UnresolvedIff(env: Env, row: Row)
    ensures ResolveText(env, row).None? <==>
            && (row.text.None? || |Strip(row.text.value)| < 100)
            && (row.source.None? || |Strip(env.extract(row.source.value))| < 100)
  {
  }

  predicate HasUsableText(w: Worker) {
    match w
    case Loaded(_, _, _) => true
    case Resolved(_, _, text, _) => |Strip(text)| >= 100
    case Profiled(_, _, text, _) => |Strip(text)| >= 100
    case Storing(_, text, _) => |Strip(text)| >= 100
  }

  predicate UsableTexts(s: State) {
    && (forall w | w in s.workers :: HasUsableText(s.workers[w]))
    && (forall e | e in s.written :: |Strip(e.text)| >= 100)
  }

  lemma StepKeepsUsableTexts(env: Env, s: State, step: Step)
    requires UsableTexts(s) && Enabled(env, s, step)
    ensures UsableTexts(Apply(env, s, step))
  {
    match step
    case Resolve(w) => UnresolvedIff(env, s.workers[w].row);
    case ServeCached(w) => assert HasUsableText(s.workers[w]);
    case MakeProfile(w) => assert HasUsableText(s.workers[w]);
    case Score(w) => assert HasUsableText(s.workers[w]);
    case _ =>
  }

  lemma {:induction false} RunKeepsUsableTexts(env: Env, s: State, steps: seq<Step>)
    requires UsableTexts(s) && ValidRun(env, s, steps)
    ensures UsableTexts(Run(env, s, steps))
    decreases |steps|
  {
    hide Apply, Enabled;
    if steps != [] {
      StepKeepsUsableTexts(env, s, steps[0]);
      RunKeepsUsableTexts(env, Apply(env, s, steps[0]), steps[1..]);
    }
  }

  /** In every run, unsafe uploads and all, no verdict is written for a text of fewer than a hundred characters. */
  lemma ShortTextsAreNeverJudged(env: Env, steps: seq<Step>, e: Written)
    requires ValidRun(env, INITIAL, steps) && e in Run(env, INITIAL, steps).written
    ensures |Strip(e.text)| >= 100
  {
    RunKeepsUsableTexts(env, INITIAL, steps);
  }

  /** What a worker's commits and the cache do, step by step. */
  lemma StepEffects(env: Env, s: State, w: Id, key: string)
    ensures CanResolve(env, s, w) ==>
      var p, after := s.workers[w], Apply(env, s, Resolve(w));
      && after.workers[w].Resolved? && StandsFor(env, p.row, after.workers[w].text)
      && after.workers[w].parsed == p.row.parsed && after.workers[w].job == p.job
      && (p.row.text != Some(after.workers[w].text) ==>
            after.rows == s.rows[p.candidate := s.rows[p.candidate].(text := Some(after.workers[w].text))])
      && (p.row.text == Some(after.workers[w].text) ==> after.rows == s.rows)
    ensures Hit(env, s, w) ==>
      var p, after := s.workers[w], Apply(env, s, ServeCached(w));
      && after.written == s.written + [Written(p.candidate, p.job, p.text, s.cache[env.key(p.job, p.text)])]
      && w !in after.workers && after.cache == s.cache && after.rows == s.rows
    ensures w in s.workers ==> Apply(env, s, Stop(w)) == s.(workers := s.workers - {w})
    ensures var after := Apply(env, s, Expire(key));
      key !in after.cache && forall k | k in s.cache && k != key :: k in after.cache && after.cache[k] == s.cache[k]
  {
    if CanResolve(env, s, w) {
      ResolvedIff(env, s.workers[w].row, ResolveText(env, s.workers[w].row).value);
    }
  }

  /** A job without a reviewed profile that the model could not parse is to be parsed; parsing it once is enough. */
  lemma JobEffects(env: Env, s: State, j: Id, other: Id, order: Order, available: bool)
    ensures j !in s.jobs ==>
      var after := Apply(env, s, CreateJob(j, order, available));
      && after == s.(jobs := s.jobs[j := Created(env.parseJd, env.literal, order, available)],
                     deferred := after.deferred)
      && (other in after.deferred <==>
            other in s.deferred || (other == j && order.override.None? && !available))
    ensures j in s.jobs && j in s.deferred ==>
      var after := Apply(env, s, ParseJob(j));
      && after == s.(jobs := s.jobs[j := Reparsed(env.literal, s.jobs[j], env.parseJd(s.jobs[j].jdRaw))],
                     deferred := after.deferred)
      && (other in after.deferred <==> other in s.deferred && other != j)
  {
  }

  /** A candidate comes without text and profile; an upload drops the text alone. */
  lemma RowEffects(env: Env, s: State, c: Id, j: Id, source: Option<string>, file: string)
    ensures c !in s.rows && j in s.jobs ==>
      Apply(env, s, AddCandidate(c, j, source)) == s.(rows := s.rows[c := Row(j, None, source, None)])
    ensures c in s.rows ==>
      var row := s.rows[c];
      Apply(env, s, Upload(c, file)) == s.(rows := s.rows[c := Row(row.job, None, Some(file), row.parsed)])
  {
  }

  /** A worker keeps what it has read, commits a fresh profile, writes what it evaluates, and caches what it wrote. */
  lemma WorkerEffects(env: Env, s: State, w: Id, c: Id)
    ensures w !in s.workers && c in s.rows && s.rows[c].job in s.jobs ==>
      Apply(env, s, Start(w, c)) == s.(workers := s.workers[w := Loaded(c, s.rows[c], s.jobs[s.rows[c].job])])
    ensures CanProfile(s, w) ==>
      var p, after := s.workers[w], Apply(env, s, MakeProfile(w));
      && (p.parsed.Some? ==>
            after == s.(workers := s.workers[w := Profiled(p.candidate, p.job, p.text, p.parsed.value)]))
      && (p.parsed.None? ==>
            && after.workers == s.workers[w := Profiled(p.candidate, p.job, p.text, env.parseResume(p.text))]
            && after.rows == s.rows[p.candidate := s.rows[p.candidate].(parsed := Some(env.parseResume(p.text)))]
            && after == s.(rows := after.rows, workers := after.workers))
    ensures w in s.workers && s.workers[w].Profiled? && Enabled(env, s, Score(w)) ==>
      var p, after := s.workers[w], Apply(env, s, Score(w));
      && env.evaluate(p.job, p.text, p.profile) == Some(after.workers[w].result)
      && after.workers == s.workers[w := Storing(p.job, p.text, after.workers[w].result)]
      && after == s.(workers := after.workers,
                     written := s.written + [Written(p.candidate, p.job, p.text, after.workers[w].result)])
    ensures w in s.workers && s.workers[w].Storing? ==>
      var p := s.workers[w];
      Apply(env, s, Store(w)) == s.(cache := s.cache[env.key(p.job, p.text) := p.result], workers := s.workers - {w})
  {
  }
}
