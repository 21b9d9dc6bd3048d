/**
  `retry_candidate` and `retry_failed_candidates` make two commits when the queue refuses: `pending`
  before the enqueue and `failed` after it. What happens to the agreement of status and shown
  verdict when other steps come in between.
 */
module SplitRetry {
  import opened Basics
  import opened Scoring
  import opened Lifecycle
  import opened StatusAgreement

  predicate Finishes(step: Step, c: Id) {
    step.WorkerFinishes? && step.candidate == c
  }

  /** The step gives the candidate an evaluation without a verdict. */
  predicate Fails(cfg: Config, s: System, step: Step, c: Id)
    requires Enabled(s, step)
  {
    match step
    case WorkerFails(d, _) => d == c
    case CancelPending(u, j, _) => Owns(s.db, u, j) && c in Select(s.db, j, Pending)
    case IngestSheet(u, j, ids, _, accepts, _) =>
      Owns(s.db, u, j) && j !in s.db.parsing && s.db.credits[u] >= |ids| && c in Refused(ids, accepts)
    case SweepContinues(w, accepted, _) =>
      s.sweeps[w][0].candidate == c && (s.sweeps[w][0].retries >= cfg.maxStaleRetries || !accepted)
    case _ => false
  }

  lemma NothingRefused(accepts: set<Id>)
    ensures Refused([], accepts) == []
  {
  }

  lemma IngestShows(db: Db, user: Id, job: Id, ids: seq<Id>, withUrl: set<Id>, accepts: set<Id>, now: int, c: Id)
    ensures
      var reply := Ingest(db, user, job, ids, withUrl, accepts, now);
      ShownVerdict(reply.db, c) ==
        if Owns(db, user, job) && job !in db.parsing && db.credits[user] >= |ids| && c in Refused(ids, accepts)
        then Unprocessed
        else ShownVerdict(db, c)
  {
    var reply := Ingest(db, user, job, ids, withUrl, accepts, now);
    NothingRefused(accepts);
    if reply.db.evals == db.evals + Failures(Refused(ids, accepts), "error") {
      FailAllShows(db, Refused(ids, accepts), "error", now, c);
    }
  }

  lemma SweepShows(cfg: Config, db: Db, row: Stuck, accepted: bool, now: int, c: Id)
    requires row.candidate in db.candidates
    ensures ShownVerdict(SweepOne(cfg, db, row, accepted, now), c) ==
      if row.candidate == c && (row.retries >= cfg.maxStaleRetries || !accepted) then Unprocessed
      else ShownVerdict(db, c)
  {
    FailAllShows(db, [row.candidate], "watchdog_timeout", now, c);
  }

  lemma FinishShows(db: Db, d: Id, verdict: Verdict, now: int, c: Id)
    ensures ShownVerdict(Finish(db, d, verdict, now), c) == if d == c then Assessed(verdict) else ShownVerdict(db, c)
  {
    assert (db.evals + [Evaluation(d, Some(verdict), "judge")])[..|db.evals|] == db.evals;
  }

  lemma SilentStepShows(cfg: Config, s: System, step: Step, c: Id)
    requires Enabled(s, step) && !step.IngestSheet? && !step.CancelPending? && !step.WorkerFinishes?
    requires !step.WorkerFails?
    requires !step.SweepContinues?
    ensures ShownVerdict(ApplyDb(cfg, s, step), c) == ShownVerdict(s.db, c)
  {
    assert ApplyDb(cfg, s, step).evals == s.db.evals;
  }

  /** A step shows a candidate differently only by finishing or failing it. */
  lemma StepShows(cfg: Config, s: System, step: Step, c: Id)
    requires Enabled(s, step)
    ensures ShownVerdict(ApplyDb(cfg, s, step), c) ==
      if Finishes(step, c) then Assessed(step.verdict)
      else if Fails(cfg, s, step, c) then Unprocessed
      else ShownVerdict(s.db, c)
  {
    match step
    case IngestSheet(u, j, ids, withUrl, accepts, now) => IngestShows(s.db, u, j, ids, withUrl, accepts, now, c);
    case CancelPending(u, j, now) => FailAllShows(s.db, Select(s.db, j, Pending), "cancelled", now, c);
    case WorkerFinishes(d, verdict, now) => FinishShows(s.db, d, verdict, now, c);
    case WorkerFails(d, now) => FailAllShows(s.db, [d], "error", now, c);
    case SweepContinues(w, accepted, now) => SweepShows(cfg, s.db, s.sweeps[w][0], accepted, now, c);
    case _ => SilentStepShows(cfg, s, step, c);
  }

  /** Some step of the run gives the candidate an evaluation. */
  predicate Evaluates(cfg: Config, s: System, steps: seq<Step>, c: Id)
    requires ValidRun(cfg, s, steps)
    decreases |steps|
  {
    steps != []
    && (Finishes(steps[0], c) || Fails(cfg, s, steps[0], c) || Evaluates(cfg, Apply(cfg, s, steps[0]), steps[1..], c))
  }

  /** The last of the candidate's evaluations in the run comes from a worker that finishes. */
  predicate FinishedLast(cfg: Config, s: System, steps: seq<Step>, c: Id)
    requires ValidRun(cfg, s, steps)
    decreases |steps|
  {
    steps != []
    && var s', rest := Apply(cfg, s, steps[0]), steps[1..];
      FinishedLast(cfg, s', rest, c) || (Finishes(steps[0], c) && !Evaluates(cfg, s', rest, c))
  }

  /** What a run shows of a candidate is decided by the last evaluation it adds, if any. */
  lemma {:induction false} RunShows(cfg: Config, s: System, steps: seq<Step>, c: Id)
    requires ValidRun(cfg, s, steps)
    ensures var shown := ShownVerdict(Run(cfg, s, steps).db, c);
      if FinishedLast(cfg, s, steps, c) then shown.Assessed?
      else if Evaluates(cfg, s, steps, c) then shown == Unprocessed
      else shown == ShownVerdict(s.db, c)
    ensures FinishedLast(cfg, s, steps, c) ==> Evaluates(cfg, s, steps, c)
    decreases |steps|
  {
    if steps != [] {
      StepShows(cfg, s, steps[0], c);
      RunShows(cfg, Apply(cfg, s, steps[0]), steps[1..], c);
    }
  }

  lemma IngestKeepsCandidate(
      db: Db, user: Id, job: Id, ids: seq<Id>, withUrl: set<Id>, accepts: set<Id>, now: int, c: Id)
    requires c in db.candidates
    ensures c in Ingest(db, user, job, ids, withUrl, accepts, now).db.candidates
  {
  }

  lemma StepKeepsCandidate(cfg: Config, s: System, step: Step, c: Id)
    requires Enabled(s, step) && c in s.db.candidates
    ensures c in ApplyDb(cfg, s, step).candidates
  {
    if step.IngestSheet? {
      IngestKeepsCandidate(s.db, step.user, step.job, step.ids, step.withUrl, step.accepts, step.now, c);
    }
  }

  lemma {:induction false} CandidateStays(cfg: Config, s: System, steps: seq<Step>, c: Id)
    requires ValidRun(cfg, s, steps) && c in s.db.candidates
    ensures c in Run(cfg, s, steps).db.candidates
    decreases |steps|
  {
    if steps != [] {
      StepKeepsCandidate(cfg, s, steps[0], c);
      CandidateStays(cfg, Apply(cfg, s, steps[0]), steps[1..], c);
    }
  }

  // ---- The two commits ----

  /** After the first commit, with the accepted ones of the retried candidates on the queue. */
  function RetryBegun(s: System, retried: seq<Id>, queued: seq<Id>, now: int): System {
    var pending := s.db.(candidates := WithStatus(s.db.candidates, retried, Pending, now));
    s.(db := EnqueueAll(pending, queued, Cause.Retried), waiting := s.waiting + multiset(queued))
  }

  /** The second commit, for the candidates the queue has refused. */
  function RetryEnded(db: Db, refused: seq<Id>, now: int): Db {
    db.(candidates := WithStatus(db.candidates, refused, Failed, now))
  }

  /** With nothing in between the two commits amount to the request as one step. */
  lemma TogetherTheyAreOneRetry(s: System, user: Id, job: Id, c: Id, now: int)
    requires OwnsCandidate(s.db, user, job, c) && CanRetryNow(s.db.candidates[c])
    ensures RetryEnded(RetryBegun(s, [c], [], now).db, [c], now) == Retry(s.db, user, job, c, false, now).db
  {
    var ended := RetryEnded(RetryBegun(s, [c], [], now).db, [c], now);
    assert s.db.queue + Entries([], Cause.Retried) == s.db.queue;
    assert ended.candidates == WithStatus(s.db.candidates, [c], Failed, now);
  }

  predicate CanRetryNow(candidate: Candidate) {
    candidate.status == Failed && candidate.hasResume
  }

  lemma TogetherTheyAreOneBulkRetry(s: System, user: Id, job: Id, accepts: set<Id>, now: int)
    requires Owns(s.db, user, job)
    ensures
      var retried := Retryable(s.db, job);
      RetryEnded(RetryBegun(s, retried, Accepted(retried, accepts), now).db, Refused(retried, accepts), now)
        == RetryFailed(s.db, user, job, accepts, now).db
  {
  }

  lemma QueueingCounts(db: Db, after: Db, queued: seq<Id>, cause: Cause)
    requires after.queue == db.queue + Entries(queued, cause)
    ensures Enqueued(db, after) == multiset(queued)
  {
    assert after.queue[|db.queue|..] == Entries(queued, cause);
    assert IdsOf(Entries(queued, cause)) == queued;
  }

  /** As steps of the whole system, the new jobs included. */
  lemma TogetherTheyAreOneStep(cfg: Config, s: System, user: Id, job: Id, accepts: set<Id>, now: int)
    requires Owns(s.db, user, job)
    ensures
      var retried := Retryable(s.db, job);
      var begun := RetryBegun(s, retried, Accepted(retried, accepts), now);
      begun.(db := RetryEnded(begun.db, Refused(retried, accepts), now))
        == Apply(cfg, s, RetryAll(user, job, accepts, now))
  {
    var queued := Accepted(Retryable(s.db, job), accepts);
    QueueingCounts(s.db, RetryFailed(s.db, user, job, accepts, now).db, queued, Cause.Retried);
  }

  /** An accepted single retry makes only the first commit. */
  lemma AcceptedRetryIsOneCommit(cfg: Config, s: System, user: Id, job: Id, c: Id, now: int)
    requires OwnsCandidate(s.db, user, job, c) && CanRetryNow(s.db.candidates[c])
    ensures RetryBegun(s, [c], [c], now) == Apply(cfg, s, RetryOne(user, job, c, true, now))
  {
    QueueingCounts(s.db, Retry(s.db, user, job, c, true, now).db, [c], Cause.Retried);
  }

  lemma RetryBegunAgrees(s: System, retried: seq<Id>, queued: seq<Id>, now: int)
    requires Agreement(s.db)
    ensures Agreement(RetryBegun(s, retried, queued, now).db)
  {
    StatusOnlyAgrees(s.db, RetryBegun(s, retried, queued, now).db);
  }

  /** Marking candidates failed without new evaluations. */
  lemma SecondFailureAgreesIff(db: Db, refused: seq<Id>, now: int)
    requires Agreement(db) && forall c | c in refused :: c in db.candidates
    ensures Agreement(RetryEnded(db, refused, now)) <==> forall c | c in refused :: ShownVerdict(db, c) == Unprocessed
  {
    var after := RetryEnded(db, refused, now);
    forall c | c in db.candidates && c !in refused ensures Agrees(after, c) {
      assert Agrees(db, c);
    }
    forall c | c in refused ensures Agrees(after, c) <==> ShownVerdict(db, c) == Unprocessed {
    }
    assert Agreement(after) ==> forall c | c in refused :: Agrees(after, c);
  }

  ghost predicate AreFailed(db: Db, ids: seq<Id>) {
    forall c | c in ids :: c in db.candidates && db.candidates[c].status == Failed
  }

  /**
    Whatever run comes between the two commits: the retry leaves the agreement standing exactly when
    for none of the refused candidates the last evaluation in between is a worker's verdict.
   */
  lemma SplitRetryAgreesIff(
      cfg: Config, s: System, retried: seq<Id>, queued: seq<Id>, refused: seq<Id>, now: int, mid: seq<Step>, later: int)
    requires Agreement(s.db) && AreFailed(s.db, refused)
    requires ValidRun(cfg, RetryBegun(s, retried, queued, now), mid)
    ensures
      var begun := RetryBegun(s, retried, queued, now);
      Agreement(RetryEnded(Run(cfg, begun, mid).db, refused, later)) <==>
        forall c | c in refused :: !FinishedLast(cfg, begun, mid, c)
  {
    var begun := RetryBegun(s, retried, queued, now);
    var end := Run(cfg, begun, mid);
    RetryBegunAgrees(s, retried, queued, now);
    RunAgrees(cfg, begun, mid);
    forall c | c in refused
      ensures c in end.db.candidates && (ShownVerdict(end.db, c) == Unprocessed <==> !FinishedLast(cfg, begun, mid, c))
    {
      CandidateStays(cfg, begun, mid, c);
      RunShows(cfg, begun, mid, c);
      assert ShownVerdict(begun.db, c) == ShownVerdict(s.db, c) == Unprocessed by { assert Agrees(s.db, c); }
    }
    SecondFailureAgreesIff(end.db, refused, later);
  }

  // ---- What can be said before the request ----

  /** A job for the candidate is on the queue or at a worker. */
  predicate HasJob(s: System, c: Id) {
    c in s.waiting || c in s.working
  }

  /** No step of the run puts one of these candidates on the queue. */
  predicate NoneQueued(cfg: Config, s: System, steps: seq<Step>, ids: seq<Id>)
    requires ValidRun(cfg, s, steps)
    decreases |steps|
  {
    steps == []
    || (var s' := Apply(cfg, s, steps[0]);
        (forall c | c in ids :: c !in Enqueued(s.db, s'.db)) && NoneQueued(cfg, s', steps[1..], ids))
  }

  lemma StaysIdle(cfg: Config, s: System, step: Step, c: Id)
    requires Enabled(s, step) && !HasJob(s, c) && c !in Enqueued(s.db, Apply(cfg, s, step).db)
    ensures !HasJob(Apply(cfg, s, step), c) && !Finishes(step, c)
  {
  }

  lemma {:induction false} IdleIsNotFinished(cfg: Config, s: System, steps: seq<Step>, ids: seq<Id>, c: Id)
    requires ValidRun(cfg, s, steps) && NoneQueued(cfg, s, steps, ids) && c in ids && !HasJob(s, c)
    ensures !FinishedLast(cfg, s, steps, c)
    decreases |steps|
  {
    if steps != [] {
      StaysIdle(cfg, s, steps[0], c);
      IdleIsNotFinished(cfg, Apply(cfg, s, steps[0]), steps[1..], ids, c);
    }
  }

  lemma NothingEnqueued(db: Db, after: Db)
    requires after.queue == db.queue
    ensures Enqueued(db, after) == multiset{}
  {
    assert after.queue[|db.queue|..] == [];
  }

  lemma WorkingFinishes(cfg: Config, s: System, ids: seq<Id>, c: Id, now: int)
    requires c in s.db.candidates && c in s.working
    ensures
      var mid := [WorkerFinishes(c, Fit, now)];
      ValidRun(cfg, s, mid) && NoneQueued(cfg, s, mid, ids) && FinishedLast(cfg, s, mid, c)
  {
    var step := WorkerFinishes(c, Fit, now);
    RunOne(cfg, s, step);
    assert [step][1..] == [];
    NothingEnqueued(s.db, Apply(cfg, s, step).db);
  }

  /** A job that is left can be worked off to a verdict without anything else happening. */
  lemma LeftoverJobFinishes(cfg: Config, s: System, ids: seq<Id>, c: Id, now: int) returns (mid: seq<Step>)
    requires c in s.db.candidates && HasJob(s, c)
    ensures ValidRun(cfg, s, mid) && NoneQueued(cfg, s, mid, ids) && FinishedLast(cfg, s, mid, c)
  {
    if c in s.working {
      WorkingFinishes(cfg, s, ids, c, now);
      mid := [WorkerFinishes(c, Fit, now)];
    } else {
      var start := WorkerStarts(c, true, now);
      var s' := Apply(cfg, s, start);
      NothingEnqueued(s.db, s'.db);
      WorkingFinishes(cfg, s', ids, c, now);
      mid := [start] + [WorkerFinishes(c, Fit, now)];
      assert mid[1..] == [WorkerFinishes(c, Fit, now)];
    }
  }

  /** Every run between the two commits that does not queue a refused candidate leaves the agreement standing. */
  ghost predicate RetryIsSafe(cfg: Config, s: System, retried: seq<Id>, queued: seq<Id>, refused: seq<Id>, now: int) {
    var begun := RetryBegun(s, retried, queued, now);
    forall mid, later | ValidRun(cfg, begun, mid) && NoneQueued(cfg, begun, mid, refused) ::
      Agreement(RetryEnded(Run(cfg, begun, mid).db, refused, later))
  }

  /**
    A retry is safe exactly when no job for a candidate the queue refuses is left from before: none on
    the queue and none at a worker. A cancelled candidate's job stays on the queue, so this can fail.
   */
  lemma SplitRetryIsSafeIff(cfg: Config, s: System, retried: seq<Id>, queued: seq<Id>, refused: seq<Id>, now: int)
    requires Agreement(s.db) && AreFailed(s.db, refused) && forall c | c in refused :: c !in queued
    ensures RetryIsSafe(cfg, s, retried, queued, refused, now) <==> forall c | c in refused :: !HasJob(s, c)
  {
    var begun := RetryBegun(s, retried, queued, now);
    if c :| c in refused && HasJob(s, c) {
      var mid := LeftoverJobFinishes(cfg, begun, refused, c, now);
      SplitRetryAgreesIff(cfg, s, retried, queued, refused, now, mid, now);
      assert !Agreement(RetryEnded(Run(cfg, begun, mid).db, refused, now));
    } else {
      forall mid, later | ValidRun(cfg, begun, mid) && NoneQueued(cfg, begun, mid, refused)
        ensures Agreement(RetryEnded(Run(cfg, begun, mid).db, refused, later))
      {
        forall c | c in refused ensures !FinishedLast(cfg, begun, mid, c) {
          assert !HasJob(begun, c);
          IdleIsNotFinished(cfg, begun, mid, refused, c);
        }
        SplitRetryAgreesIff(cfg, s, retried, queued, refused, now, mid, later);
      }
    }
  }

  /** A worker left over from an earlier attempt that finishes between the two commits breaks the agreement. */
  lemma RetryMustBeOneStep(db: Db, c: Id, verdict: Verdict, now: int)
    requires Agreement(db) && c in db.candidates && db.candidates[c].status == Failed
    ensures !Agreement(Committed(Finish(Committed(db, c, Pending, now), c, verdict, now), c, Failed, now))
  {
    var begun := Committed(db, c, Pending, now);
    var between := Finish(begun, c, verdict, now);
    StatusOnlyAgrees(db, begun);
    FinishAgrees(begun, c, verdict, now);
    FinishShows(begun, c, verdict, now, c);
    SecondFailureAgreesIff(between, [c], now);
    assert Committed(between, c, Failed, now) == RetryEnded(between, [c], now);
    assert c in [c];
  }

  // ---- From the start ----

  lemma CancelOne(cfg: Config, s: System)
    requires cfg.signupCredits >= 1 && s == OneCandidate(cfg)
    ensures
      var after := Apply(cfg, s, CancelPending(0, 0, 0));
      && OwnsCandidate(after.db, 0, 0, 0) && CanRetryNow(after.db.candidates[0])
      && after.db.order == [0] && after.waiting == multiset{0}
  {
    FilterOne(0, InStatus(s.db.candidates, 0, Pending));
    NothingEnqueued(s.db, Apply(cfg, s, CancelPending(0, 0, 0)).db);
  }

  lemma OneIsRetryable(db: Db)
    requires db.order == [0] && OwnsCandidate(db, 0, 0, 0) && CanRetryNow(db.candidates[0])
    ensures Retryable(db, 0) == [0]
  {
    FilterAll(db.order, InStatus(db.candidates, 0, Failed));
    FilterAll(db.order, HasResume(db.candidates));
  }

  /**
    It does fail: a candidate is ingested and cancelled, its job stays on the queue; a retry, single or
    bulk, makes its first commit, a worker takes the old job and finishes, and the queue refuses the retry.
   */
  lemma SplitRetryFailsFromTheStart(cfg: Config) returns (before: seq<Step>, mid: seq<Step>)
    requires cfg.signupCredits >= 1
    ensures ValidRun(cfg, INITIAL, before)
    ensures
      var s := Run(cfg, INITIAL, before);
      && OwnsCandidate(s.db, 0, 0, 0) && CanRetryNow(s.db.candidates[0]) && Retryable(s.db, 0) == [0]
      && var begun := RetryBegun(s, [0], [], 0);
        ValidRun(cfg, begun, mid) && !Agreement(RetryEnded(Run(cfg, begun, mid).db, [0], 0))
  {
    var ingest := OneCandidateIsReachable(cfg, INITIAL);
    var cancel := CancelPending(0, 0, 0);
    RunThen(cfg, INITIAL, ingest, cancel);
    before := ingest + [cancel];
    CancelOne(cfg, Run(cfg, INITIAL, ingest));
    var s := Run(cfg, INITIAL, before);
    OneIsRetryable(s.db);
    RunAgrees(cfg, INITIAL, before);
    var begun := RetryBegun(s, [0], [], 0);
    mid := LeftoverJobFinishes(cfg, begun, [0], 0, 0);
    SplitRetryAgreesIff(cfg, s, [0], [], [0], 0, mid, 0);
    assert 0 in [0];
  }
}
