/**
  `upload_candidate_resume` keeps the parsed profile of the old resume (`app/api/ingest.py`): exactly
  when that leads to wrong verdicts, and a wrong run for each way it can.
 */
module UnsafeUploads {
  import opened Basics
  import opened Jobs
  import opened Pipeline
  import opened VerdictCache

  // ---- A candidate with the profile of another resume ----

  /** The profile gives the text of the file a verdict for the job, and not the right one. */
  predicate Misjudges(env: Env, job: Job, profile: Resume, file: string) {
    var text := env.extract(file);
    && LongEnough(text)
    && env.evaluate(job, text, profile).Some?
    && env.evaluate(job, text, profile) != Recompute(env, job, text)
  }

  /** The job tells two resume files apart: no profile is right for both. */
  ghost predicate TellsApart(env: Env, job: Job, a: string, b: string) {
    forall profile :: Misjudges(env, job, profile, a) || Misjudges(env, job, profile, b)
  }

  /** The candidate stands for the text of the file, and this profile is stored for it. */
  predicate HasProfile(env: Env, s: State, c: Id, profile: Resume, file: string) {
    && c in s.rows && s.rows[c].job in s.jobs
    && s.rows[c].source == Some(file) && s.rows[c].parsed == Some(profile)
    && LongEnough(env.extract(file)) && ResolveText(env, s.rows[c]) == Some(env.extract(file))
  }

  lemma RunStep(env: Env, s: State, step: Step, rest: seq<Step>)
    requires Enabled(env, s, step) && ValidRun(env, Apply(env, s, step), rest)
    ensures ValidRun(env, s, [step] + rest) && Run(env, s, [step] + rest) == Run(env, Apply(env, s, step), rest)
  {
    assert ([step] + rest)[1..] == rest;
  }

  lemma {:induction false} RunConcat(env: Env, s: State, steps: seq<Step>, more: seq<Step>)
    requires ValidRun(env, s, steps) && ValidRun(env, Run(env, s, steps), more)
    ensures ValidRun(env, s, steps + more) && Run(env, s, steps + more) == Run(env, Run(env, s, steps), more)
    decreases |steps|
  {
    if steps == [] {
      assert steps + more == more;
    } else {
      RunConcat(env, Apply(env, s, steps[0]), steps[1..], more);
      assert (steps + more)[0] == steps[0] && (steps + more)[1..] == steps[1..] + more;
    }
  }

  function WholeJob(w: Id, c: Id): seq<Step> {
    [Start(w, c), Resolve(w), MakeProfile(w), Score(w), Store(w)]
  }

  /** The next worker judges the text by the stored profile, and caches that verdict. */
  lemma StoredProfileJudges(env: Env, s: State, c: Id, profile: Resume, file: string, w: Id)
    requires HasProfile(env, s, c, profile, file) && w !in s.workers
    requires env.evaluate(s.jobs[s.rows[c].job], env.extract(file), profile).Some?
    ensures ValidRun(env, s, WholeJob(w, c))
    ensures
      var job, text, after := s.jobs[s.rows[c].job], env.extract(file), Run(env, s, WholeJob(w, c));
      var result := env.evaluate(job, text, profile).value;
      && after.written == s.written + [Written(c, job, text, result)]
      && after.cache == s.cache[env.key(job, text) := result]
  {
    var s1 := Apply(env, s, Start(w, c));
    var s2 := Apply(env, s1, Resolve(w));
    var s3 := Apply(env, s2, MakeProfile(w));
    var s4 := Apply(env, s3, Score(w));
    var s5 := Apply(env, s4, Store(w));
    RunStep(env, s4, Store(w), []);
    RunStep(env, s3, Score(w), [Store(w)]);
    RunStep(env, s2, MakeProfile(w), [Score(w), Store(w)]);
    RunStep(env, s1, Resolve(w), [MakeProfile(w), Score(w), Store(w)]);
    RunStep(env, s, Start(w, c), [Resolve(w), MakeProfile(w), Score(w), Store(w)]);
  }

  /**
    After an upload over a stored profile the next worker writes and caches that profile's verdict for
    the new text.
   */
  lemma UploadJudgesByOldProfile(env: Env, s: State, c: Id, file: string, w: Id)
    requires c in s.rows && s.rows[c].parsed.Some? && s.rows[c].job in s.jobs && w !in s.workers
    requires LongEnough(env.extract(file))
    requires env.evaluate(s.jobs[s.rows[c].job], env.extract(file), s.rows[c].parsed.value).Some?
    ensures
      var job, text, uploaded := s.jobs[s.rows[c].job], env.extract(file), AfterUpload(s, c, file);
      var stale := env.evaluate(job, text, s.rows[c].parsed.value).value;
      && ValidRun(env, uploaded, WholeJob(w, c))
      && var after := Run(env, uploaded, WholeJob(w, c));
        && after.written == s.written + [Written(c, job, text, stale)]
        && after.cache == s.cache[env.key(job, text) := stale]
  {
    StoredProfileJudges(env, AfterUpload(s, c, file), c, s.rows[c].parsed.value, file, w);
  }

  // ---- Runs that go wrong ----

  /** No upload comes in the run, and it writes and caches a verdict the uncached pipeline does not give. */
  ghost predicate GoesWrong(env: Env, s: State, steps: seq<Step>) {
    && ValidRun(env, s, steps) && (forall i | 0 <= i < |steps| :: !steps[i].Upload?)
    && !CorrectHistory(env, Run(env, s, steps).written) && !CoherentCache(env, Run(env, s, steps).cache)
  }

  lemma {:induction false} NoUploads(env: Env, s: State, steps: seq<Step>)
    requires ValidRun(env, s, steps) && forall i | 0 <= i < |steps| :: !steps[i].Upload?
    ensures SafeUploads(env, s, steps)
    decreases |steps|
  {
    if steps != [] {
      NoUploads(env, Apply(env, s, steps[0]), steps[1..]);
    }
  }

  lemma Above(ids: set<Id>) returns (w: Id)
    ensures forall i | i in ids :: i < w
  {
    if ids == {} {
      w := 0;
    } else {
      var i :| i in ids;
      var rest := Above(ids - {i});
      assert forall j | j in ids :: j == i || j in ids - {i};
      w := if rest <= i then i + 1 else rest;
    }
  }

  lemma FreshWorker(workers: map<Id, Worker>) returns (w: Id)
    ensures w !in workers
  {
    w := Above(workers.Keys);
  }

  lemma MisjudgedProfileGoesWrong(env: Env, s: State, c: Id, profile: Resume, file: string) returns (steps: seq<Step>)
    requires HasProfile(env, s, c, profile, file)
    requires Misjudges(env, s.jobs[s.rows[c].job], profile, file) && env.proper(s.jobs[s.rows[c].job])
    ensures GoesWrong(env, s, steps)
  {
    var w := FreshWorker(s.workers);
    var job, text := s.jobs[s.rows[c].job], env.extract(file);
    steps := WholeJob(w, c);
    StoredProfileJudges(env, s, c, profile, file, w);
    var after := Run(env, s, steps);
    var e := Written(c, job, text, env.evaluate(job, text, profile).value);
    assert !CorrectFor(env, job, text, e.result);
    assert e in after.written;
    assert env.key(job, text) in after.cache;
  }

  lemma PrefixGoesWrong(env: Env, s: State, steps: seq<Step>, more: seq<Step>)
    requires ValidRun(env, s, steps) && (forall i | 0 <= i < |steps| :: !steps[i].Upload?)
    requires GoesWrong(env, Run(env, s, steps), more)
    ensures GoesWrong(env, s, steps + more)
  {
    RunConcat(env, s, steps, more);
  }

  /** A worker past the resume text commits the profile of its own text. */
  lemma ResolvedWorkerCommits(env: Env, s: State, c: Id, file: string, w: Id)
    requires c in s.rows && s.rows[c].job in s.jobs && s.rows[c].source == Some(file) && LongEnough(env.extract(file))
    requires ResolveText(env, s.rows[c]) == Some(env.extract(file))
    requires w in s.workers && s.workers[w].Resolved? && s.workers[w].candidate == c && s.workers[w].parsed.None?
    ensures ValidRun(env, s, [MakeProfile(w)])
    ensures
      var after := Run(env, s, [MakeProfile(w)]);
      after.jobs == s.jobs && HasProfile(env, after, c, env.parseResume(s.workers[w].text), file)
      && after.rows[c].job == s.rows[c].job
  {
    RunStep(env, s, MakeProfile(w), []);
    assert [MakeProfile(w)] + [] == [MakeProfile(w)];
  }

  /** A worker that still has to settle its text is overtaken by one that has read the new resume. */
  function Overtaken(w: Id, v: Id, c: Id): seq<Step> {
    [Start(v, c), Resolve(w), Resolve(v), MakeProfile(w)]
  }

  lemma LoadedWorkerCommits(env: Env, s: State, c: Id, file: string, w: Id, v: Id)
    requires c in s.rows && s.rows[c].job in s.jobs && s.rows[c].source == Some(file) && s.rows[c].text.None?
    requires LongEnough(env.extract(file)) && v !in s.workers
    requires w in s.workers && s.workers[w].Loaded? && s.workers[w].candidate == c
    requires s.workers[w].row.parsed.None? && ResolveText(env, s.workers[w].row).Some?
    ensures ValidRun(env, s, Overtaken(w, v, c))
    ensures
      var after, text := Run(env, s, Overtaken(w, v, c)), ResolveText(env, s.workers[w].row).value;
      && after.jobs == s.jobs && HasProfile(env, after, c, env.parseResume(text), file)
      && after.rows[c].job == s.rows[c].job
  {
    var s1 := Apply(env, s, Start(v, c));
    var s2 := Apply(env, s1, Resolve(w));
    var s3 := Apply(env, s2, Resolve(v));
    ResolvedWorkerCommits(env, s3, c, file, w);
    RunStep(env, s2, Resolve(v), [MakeProfile(w)]);
    RunStep(env, s1, Resolve(w), [Resolve(v), MakeProfile(w)]);
    RunStep(env, s, Start(v, c), [Resolve(w), Resolve(v), MakeProfile(w)]);
  }

  /** The profile of an old resume that an unsafe upload leaves behind, in the row or with a worker. */
  ghost predicate LeftBehind(env: Env, s: State, c: Id, profile: Resume)
    requires c in s.rows
  {
    if s.rows[c].parsed.Some? then s.rows[c].parsed == Some(profile)
    else exists w | w in s.workers && Holds(s.workers[w], c) && !Idle(env, s.workers[w]) ::
      OldText(env, s.workers[w]).Some? && profile == env.parseResume(OldText(env, s.workers[w]).value)
  }

  /** The text a worker judges, or will. */
  function OldText(env: Env, w: Worker): Option<string> {
    match w
    case Loaded(_, row, _) => ResolveText(env, row)
    case Resolved(_, _, text, _) => Some(text)
    case Profiled(_, _, text, _) => Some(text)
    case Storing(_, text, _) => Some(text)
  }

  /** Each kind of leftover, and the run in which it gives the new file the old profile. */
  lemma LeftoverGoesWrong(env: Env, s: State, c: Id, profile: Resume, file: string) returns (steps: seq<Step>)
    requires Coherent(env, s) && c in s.rows && s.rows[c].job in s.jobs && LeftBehind(env, s, c, profile)
    requires Misjudges(env, s.jobs[s.rows[c].job], profile, file)
    ensures GoesWrong(env, AfterUpload(s, c, file), steps)
  {
    var uploaded := AfterUpload(s, c, file);
    var prefix: seq<Step> := [];
    assert env.proper(s.jobs[s.rows[c].job]);
    if s.rows[c].parsed.None? {
      var w :| w in s.workers && Holds(s.workers[w], c) && !Idle(env, s.workers[w])
            && OldText(env, s.workers[w]).Some? && profile == env.parseResume(OldText(env, s.workers[w]).value);
      assert CoherentWorker(env, s.rows, s.workers[w]);
      if s.workers[w].Resolved? {
        prefix := [MakeProfile(w)];
        ResolvedWorkerCommits(env, uploaded, c, file, w);
      } else {
        var v := FreshWorker(s.workers);
        prefix := Overtaken(w, v, c);
        LoadedWorkerCommits(env, uploaded, c, file, w, v);
      }
    }
    var wrong := MisjudgedProfileGoesWrong(env, Run(env, uploaded, prefix), c, profile, file);
    PrefixGoesWrong(env, uploaded, prefix, wrong);
    steps := prefix + wrong;
  }

  lemma UnsafeLeavesProfile(env: Env, s: State, c: Id) returns (profile: Resume)
    requires Coherent(env, s) && c in s.rows && !UploadIsSafe(env, s, c)
    ensures LeftBehind(env, s, c, profile)
  {
    if s.rows[c].parsed.Some? {
      profile := s.rows[c].parsed.value;
    } else {
      var w :| w in s.workers && Holds(s.workers[w], c) && !Idle(env, s.workers[w]);
      profile := env.parseResume(OldText(env, s.workers[w]).value);
    }
  }

  // ---- When an upload is safe ----

  /** In every run with safe uploads, all verdicts written and cached are those of the uncached pipeline. */
  ghost predicate StaysCorrect(env: Env, s: State) {
    forall steps | ValidRun(env, s, steps) && SafeUploads(env, s, steps) ::
      CorrectHistory(env, Run(env, s, steps).written) && CoherentCache(env, Run(env, s, steps).cache)
  }

  /**
    Where the candidate's job tells two resumes apart: all verdicts stay right after an upload,
    whatever the file, exactly when the row has no profile and every worker holding the candidate
    has found no resume to work on.
   */
  lemma UploadIsSafeIff(env: Env, s: State, c: Id, a: string, b: string)
    requires Sound(env) && StoresProper(env) && Coherent(env, s)
    requires c in s.rows && s.rows[c].job in s.jobs && TellsApart(env, s.jobs[s.rows[c].job], a, b)
    ensures (forall file :: StaysCorrect(env, AfterUpload(s, c, file))) <==> UploadIsSafe(env, s, c)
  {
    if UploadIsSafe(env, s, c) {
      forall file ensures StaysCorrect(env, AfterUpload(s, c, file)) {
        SafeUploadStaysCorrect(env, s, c, file);
      }
    } else {
      var profile := UnsafeLeavesProfile(env, s, c);
      var file := if Misjudges(env, s.jobs[s.rows[c].job], profile, a) then a else b;
      var steps := LeftoverGoesWrong(env, s, c, profile, file);
      NoUploads(env, AfterUpload(s, c, file), steps);
      assert !StaysCorrect(env, AfterUpload(s, c, file));
    }
  }

  lemma SafeUploadStaysCorrect(env: Env, s: State, c: Id, file: string)
    requires Sound(env) && StoresProper(env) && Coherent(env, s) && c in s.rows && UploadIsSafe(env, s, c)
    ensures StaysCorrect(env, AfterUpload(s, c, file))
  {
    var uploaded := AfterUpload(s, c, file);
    UploadKeeps(env, s, c, file);
    forall steps | ValidRun(env, uploaded, steps) && SafeUploads(env, uploaded, steps)
      ensures CorrectHistory(env, Run(env, uploaded, steps).written)
      ensures CoherentCache(env, Run(env, uploaded, steps).cache)
    {
      RunsAreCoherent(env, uploaded, steps);
    }
  }

  // ---- From the start ----

  /** One job and one candidate, whose resume file has been read and parsed. */
  ghost predicate ParsedOnce(env: Env, order: Order, file: string, s: State) {
    && s.workers == map[] && s.jobs == map[0 := Created(env.parseJd, env.literal, order, true)]
    && 0 in s.rows && s.rows[0].job == 0 && s.rows[0].parsed == Some(env.parseResume(env.extract(file)))
  }

  function Setup(order: Order, file: string): seq<Step> {
    [CreateJob(0, order, true), AddCandidate(0, 0, Some(file))]
  }

  function SetUp(env: Env, order: Order, file: string): State {
    INITIAL.(jobs := map[0 := Created(env.parseJd, env.literal, order, true)],
      rows := map[0 := Row(0, None, Some(file), None)])
  }

  lemma SetupRuns(env: Env, order: Order, file: string)
    ensures ValidRun(env, INITIAL, Setup(order, file))
    ensures Run(env, INITIAL, Setup(order, file)) == SetUp(env, order, file)
  {
    var s := Apply(env, INITIAL, CreateJob(0, order, true));
    RunStep(env, s, AddCandidate(0, 0, Some(file)), []);
    RunStep(env, INITIAL, CreateJob(0, order, true), [AddCandidate(0, 0, Some(file))]);
  }

  const PARSE_AND_STOP := [Start(0, 0), Resolve(0), MakeProfile(0), Stop(0)]

  lemma ParsingRuns(env: Env, order: Order, file: string)
    requires LongEnough(env.extract(file))
    ensures ValidRun(env, SetUp(env, order, file), PARSE_AND_STOP)
    ensures ParsedOnce(env, order, file, Run(env, SetUp(env, order, file), PARSE_AND_STOP))
  {
    var s := SetUp(env, order, file);
    var s1 := Apply(env, s, Start(0, 0));
    var s2 := Apply(env, s1, Resolve(0));
    var s3 := Apply(env, s2, MakeProfile(0));
    RunStep(env, s3, Stop(0), []);
    RunStep(env, s2, MakeProfile(0), [Stop(0)]);
    RunStep(env, s1, Resolve(0), [MakeProfile(0), Stop(0)]);
    RunStep(env, s, Start(0, 0), [Resolve(0), MakeProfile(0), Stop(0)]);
  }

  lemma ParsedOnceIsReachable(env: Env, order: Order, file: string)
    requires LongEnough(env.extract(file))
    ensures ValidRun(env, INITIAL, Setup(order, file) + PARSE_AND_STOP)
    ensures ParsedOnce(env, order, file, Run(env, INITIAL, Setup(order, file) + PARSE_AND_STOP))
  {
    SetupRuns(env, order, file);
    ParsingRuns(env, order, file);
    RunConcat(env, INITIAL, Setup(order, file), PARSE_AND_STOP);
  }

  lemma UploadThen(env: Env, before: seq<Step>, c: Id, file: string, after: seq<Step>)
    requires ValidRun(env, INITIAL, before) && c in Run(env, INITIAL, before).rows
    requires ValidRun(env, AfterUpload(Run(env, INITIAL, before), c, file), after)
    ensures ValidRun(env, INITIAL, before + [Upload(c, file)] + after)
    ensures Run(env, INITIAL, before + [Upload(c, file)] + after)
         == Run(env, AfterUpload(Run(env, INITIAL, before), c, file), after)
  {
    var s := Run(env, INITIAL, before);
    RunStep(env, s, Upload(c, file), after);
    RunConcat(env, INITIAL, before, [Upload(c, file)] + after);
    assert before + ([Upload(c, file)] + after) == before + [Upload(c, file)] + after;
  }
}
