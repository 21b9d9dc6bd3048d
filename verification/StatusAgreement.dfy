/**
  In every reachable state a failed candidate's latest evaluation has no verdict and a done
  candidate's has one, so a failed candidate is never shown as assessed (`app/api/results.py`).
 */
module StatusAgreement {
  import opened Basics
  import opened Scoring
  import opened Lifecycle

  /** The latest evaluation of a candidate: evaluations are in order of creation. */
  function Latest(evals: seq<Evaluation>, c: Id): Option<Evaluation> {
    if evals == [] then None
    else if evals[|evals| - 1].candidate == c then Some(evals[|evals| - 1])
    else Latest(evals[..|evals| - 1], c)
  }

  /** What the results page shows of a candidate (`_build_reasoning_card`, `export_results_csv`). */
  datatype Shown = NotEvaluated | Unprocessed | Assessed(verdict: Verdict)

  function ShownVerdict(db: Db, c: Id): Shown {
    match Latest(db.evals, c)
    case None => NotEvaluated
    case Some(e) => if e.verdict.None? then Unprocessed else Assessed(e.verdict.value)
  }

  predicate Agrees(db: Db, c: Id)
    requires c in db.candidates
  {
    match db.candidates[c].status
    case Failed => ShownVerdict(db, c) == Unprocessed
    case Done => ShownVerdict(db, c).Assessed?
    case _ => true
  }

  predicate Agreement(db: Db) {
    forall c | c in db.candidates :: Agrees(db, c)
  }

  lemma {:induction false} LatestConcat(evals: seq<Evaluation>, more: seq<Evaluation>, c: Id)
    ensures Latest(evals + more, c) == if Latest(more, c).Some? then Latest(more, c) else Latest(evals, c)
  {
    if more == [] {
      assert evals + more == evals;
    } else {
      var init, last := more[..|more| - 1], more[|more| - 1];
      assert (evals + more)[..|evals + more| - 1] == evals + init;
      assert (evals + more)[|evals + more| - 1] == last;
      LatestConcat(evals, init, c);
    }
  }

  lemma {:induction false} LatestFailure(ids: seq<Id>, model: string, c: Id)
    ensures Latest(Failures(ids, model), c) == if c in ids then Some(Evaluation(c, None, model)) else None
  {
    if ids != [] {
      var init := ids[..|ids| - 1];
      LatestFailure(init, model, c);
      assert Failures(ids, model)[..|ids| - 1] == Failures(init, model);
      assert ids == init + [ids[|ids| - 1]];
    }
  }

  /** Failing candidates shows them as unprocessed and shows nobody else differently. */
  lemma FailAllShows(db: Db, ids: seq<Id>, model: string, now: int, c: Id)
    ensures ShownVerdict(FailAll(db, ids, model, now), c) == if c in ids then Unprocessed else ShownVerdict(db, c)
  {
    LatestConcat(db.evals, Failures(ids, model), c);
    LatestFailure(ids, model, c);
  }

  /** Failing candidates brings them into agreement and leaves the others alone. */
  lemma FailAllAgrees(db: Db, ids: seq<Id>, model: string, now: int)
    requires forall c | c in db.candidates && c !in ids :: Agrees(db, c)
    ensures Agreement(FailAll(db, ids, model, now))
  {
    var db' := FailAll(db, ids, model, now);
    forall c | c in db'.candidates ensures Agrees(db', c) {
      FailAllShows(db, ids, model, now, c);
    }
  }

  lemma IngestAgrees(db: Db, user: Id, job: Id, ids: seq<Id>, withUrl: set<Id>, accepts: set<Id>, now: int)
    requires Agreement(db) && forall c | c in ids :: c !in db.candidates
    ensures Agreement(Ingest(db, user, job, ids, withUrl, accepts, now).db)
  {
    if Ingest(db, user, job, ids, withUrl, accepts, now).db != db {
      var added := db.(order := db.order + ids, candidates := db.candidates + NewRows(ids, job, withUrl, now));
      var enqueued := EnqueueAll(added, Accepted(ids, accepts), Ingested(user));
      forall c | c in enqueued.candidates ensures Agrees(enqueued, c) {
        assert c in db.candidates ==> Agrees(db, c);
      }
      FailAllAgrees(enqueued, Refused(ids, accepts), "error", now);
    }
  }

  lemma CancelAgrees(db: Db, user: Id, job: Id, now: int)
    requires Agreement(db)
    ensures Agreement(Cancel(db, user, job, now).db)
  {
    FailAllAgrees(db, Select(db, job, Pending), "cancelled", now);
  }

  lemma RetryFailedAgrees(db: Db, user: Id, job: Id, accepts: set<Id>, now: int)
    requires Agreement(db)
    ensures Agreement(RetryFailed(db, user, job, accepts, now).db)
  {
    FilterMembers(db.order, InStatus(db.candidates, job, Failed));
    FilterMembers(Select(db, job, Failed), HasResume(db.candidates));
    FilterMembers(Retryable(db, job), NotTakenBy(accepts));
    var db' := RetryFailed(db, user, job, accepts, now).db;
    forall c | c in db'.candidates ensures Agrees(db', c) {
      assert Agrees(db, c);
    }
  }

  lemma SweepOneAgrees(cfg: Config, db: Db, row: Stuck, accepted: bool, now: int)
    requires Agreement(db) && row.candidate in db.candidates
    ensures Agreement(SweepOne(cfg, db, row, accepted, now))
  {
    var c := row.candidate;
    if row.retries >= cfg.maxStaleRetries {
      FailAllAgrees(db, [c], "watchdog_timeout", now);
    } else {
      var status := if row.status == Pending then db.candidates[c].status else Pending;
      var retried := db.candidates[c].(staleRetries := row.retries + 1, updatedAt := now, status := status);
      var db' := db.(candidates := db.candidates[c := retried]);
      forall d | d in db'.candidates ensures Agrees(db', d) {
        assert Agrees(db, d);
      }
      FailAllAgrees(db', [c], "watchdog_timeout", now);
    }
  }

  lemma FinishAgrees(db: Db, c: Id, verdict: Verdict, now: int)
    requires Agreement(db) && c in db.candidates
    ensures Agreement(Finish(db, c, verdict, now))
  {
    var e := Evaluation(c, Some(verdict), "judge");
    var db' := Finish(db, c, verdict, now);
    forall d | d in db'.candidates ensures Agrees(db', d) {
      assert Agrees(db, d);
      assert (db.evals + [e])[..|db.evals|] == db.evals;
    }
  }

  /** Changing no evaluation, and no status except to pending or processing or to what it was. */
  predicate StatusOnly(db: Db, db': Db) {
    && db'.evals == db.evals
    && forall c | c in db'.candidates ::
      && c in db.candidates
      && var status := db'.candidates[c].status;
        status == db.candidates[c].status || status == Pending || status == Processing
  }

  lemma StatusOnlyAgrees(db: Db, db': Db)
    requires Agreement(db) && StatusOnly(db, db')
    ensures Agreement(db')
  {
    forall c | c in db'.candidates ensures Agrees(db', c) {
      assert Agrees(db, c);
    }
  }

  lemma RequestAgrees(cfg: Config, s: System, step: Step)
    requires Agreement(s.db) && Enabled(s, step)
    requires step.RetryOne? || step.UploadResume? || step.WorkerStarts? || step.WorkerTouches? || step.WorkerDies?
          || step.SweepBegins? || step.SweepStops? || step.SweepDies?
          || step.Signup? || step.CreateJob? || step.JdParsed? || step.GrantCredits?
    ensures Agreement(ApplyDb(cfg, s, step))
  {
    StatusOnlyAgrees(s.db, ApplyDb(cfg, s, step));
  }

  lemma StepAgrees(cfg: Config, s: System, step: Step)
    requires Agreement(s.db) && Enabled(s, step)
    ensures Agreement(Apply(cfg, s, step).db)
  {
    match step
    case IngestSheet(u, j, ids, withUrl, accepts, now) => IngestAgrees(s.db, u, j, ids, withUrl, accepts, now);
    case CancelPending(u, j, now) => CancelAgrees(s.db, u, j, now);
    case RetryAll(u, j, accepts, now) => RetryFailedAgrees(s.db, u, j, accepts, now);
    case WorkerFinishes(c, verdict, now) => FinishAgrees(s.db, c, verdict, now);
    case WorkerFails(c, now) => FailAllAgrees(s.db, [c], "error", now);
    case SweepContinues(w, accepted, now) => SweepOneAgrees(cfg, s.db, s.sweeps[w][0], accepted, now);
    case _ => RequestAgrees(cfg, s, step);
  }

  lemma {:induction false} RunAgrees(cfg: Config, s: System, steps: seq<Step>)
    requires Agreement(s.db) && ValidRun(cfg, s, steps)
    ensures Agreement(Run(cfg, s, steps).db)
    decreases |steps|
  {
    if steps != [] {
      StepAgrees(cfg, s, steps[0]);
      RunAgrees(cfg, Apply(cfg, s, steps[0]), steps[1..]);
    }
  }

  /** Whatever happens, a failed candidate is shown as unprocessed and a done one with a verdict. */
  lemma FailedIsNeverShownAsRejected(cfg: Config, steps: seq<Step>, c: Id)
    requires ValidRun(cfg, INITIAL, steps) && c in Run(cfg, INITIAL, steps).db.candidates
    ensures
      var db := Run(cfg, INITIAL, steps).db;
      && (db.candidates[c].status == Failed ==> ShownVerdict(db, c) == Unprocessed)
      && (db.candidates[c].status == Done ==> ShownVerdict(db, c).Assessed?)
  {
    RunAgrees(cfg, INITIAL, steps);
    assert Agrees(Run(cfg, INITIAL, steps).db, c);
  }
}
