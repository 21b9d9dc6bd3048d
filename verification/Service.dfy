/**
  The request handlers, the worker's commits and the watchdog as they run: statements that change
  the stored rows, balances and queue in place, each proved to do what its specification in
  `Lifecycle` (or `Sweeping`) says.
 */
module Service {
  import opened Basics
  import opened Scoring
  import opened Ledger
  import opened Lifecycle
  import opened Sweeping

  lemma FailuresSnoc(ids: seq<Id>, i: nat, model: string)
    requires i < |ids|
    ensures Failures(ids[..i + 1], model) == Failures(ids[..i], model) + [Evaluation(ids[i], None, model)]
  {
  }

  lemma FilterSnoc(ids: seq<Id>, i: nat, p: Id -> bool)
    requires i < |ids|
    ensures Filter(ids[..i + 1], p) == Filter(ids[..i], p) + if p(ids[i]) then [ids[i]] else []
  {
    assert ids[..i + 1] == ids[..i] + [ids[i]];
    FilterConcat(ids[..i], [ids[i]], p);
  }

  lemma EntriesSnoc(ids: seq<Id>, c: Id, cause: Cause)
    ensures Entries(ids + [c], cause) == Entries(ids, cause) + [Entry(c, cause)]
  {
  }

  lemma NewRowsSnoc(ids: seq<Id>, i: nat, job: Id, withUrl: set<Id>, now: int)
    requires i < |ids|
    ensures NewRows(ids[..i + 1], job, withUrl, now)
         == NewRows(ids[..i], job, withUrl, now)[ids[i] := Candidate(job, ids[i] in withUrl, Pending, now, 0)]
  {
    assert ids[..i + 1] == ids[..i] + [ids[i]];
  }

  lemma NewRowsAdd(candidates: map<Id, Candidate>, ids: seq<Id>, i: nat, job: Id, withUrl: set<Id>, now: int)
    requires i < |ids|
    ensures (candidates + NewRows(ids[..i], job, withUrl, now))
              [ids[i] := Candidate(job, ids[i] in withUrl, Pending, now, 0)]
         == candidates + NewRows(ids[..i + 1], job, withUrl, now)
  {
    NewRowsSnoc(ids, i, job, withUrl, now);
  }

  lemma StatusOfNone(candidates: map<Id, Candidate>, status: Status, now: int)
    ensures WithStatus(candidates, [], status, now) == candidates
  {
  }

  lemma StatusTwice(candidates: map<Id, Candidate>, c: Id, first: Status, second: Status, now: int)
    ensures WithStatus(WithStatus(candidates, [c], first, now), [c], second, now)
         == WithStatus(candidates, [c], second, now)
  {
  }

  lemma StatusOfOne(candidates: map<Id, Candidate>, c: Id, status: Status, now: int)
    requires c in candidates
    ensures WithStatus(candidates, [c], status, now)
         == candidates[c := candidates[c].(status := status, updatedAt := now)]
  {
  }

  lemma NextRow(cfg: Config, db: Db, rows: seq<Stuck>, i: nat, accepts: set<Id>, now: int)
    requires i < |rows| && forall r | r in rows[i..] :: r.candidate in db.candidates
    ensures
      var db' := SweepOne(cfg, db, rows[i], rows[i].candidate in accepts, now);
      && (forall r | r in rows[i + 1..] :: r.candidate in db'.candidates)
      && SweepRows(cfg, db, rows[i..], accepts, now) == SweepRows(cfg, db', rows[i + 1..], accepts, now)
    ensures |RequeuedIds(cfg, rows[i..], accepts)|
         == (if Requeued(cfg, rows[i], accepts) then 1 else 0) + |RequeuedIds(cfg, rows[i + 1..], accepts)|
    ensures |GivenUpIds(cfg, rows[i..], accepts)|
         == (if Requeued(cfg, rows[i], accepts) then 0 else 1) + |GivenUpIds(cfg, rows[i + 1..], accepts)|
  {
    assert rows[i] in rows[i..] && rows[i..][1..] == rows[i + 1..];
  }

  function Balance(db: Db, u: Id): int {
    if u in db.credits then db.credits[u] else 0
  }

  /** The user, and nobody else, has been granted this much more and has this much more to spend. */
  ghost predicate Given(before: Db, after: Db, user: Id, amount: int) {
    && after.credits.Keys == before.credits.Keys + {user}
    && forall u ::
      && Granted(after.grants, u) == Granted(before.grants, u) + (if u == user then amount else 0)
      && Balance(after, u) == Balance(before, u) + (if u == user then amount else 0)
  }

  function Credited(db: Db, user: Id, amount: int): Db {
    db.(credits := db.credits[user := Balance(db, user) + amount], grants := db.grants + [Grant(user, amount)])
  }

  lemma CreditingKeepsBooks(db: Db, user: Id, amount: int)
    ensures amount >= 0 && Balanced(db) ==> Balanced(Credited(db, user, amount))
    ensures Given(db, Credited(db, user, amount), user, amount)
  {
    var db' := Credited(db, user, amount);
    if amount >= 0 && Balanced(db) {
      GivenBalances(db, db', Grant(user, amount));
    }
    forall u ensures Granted(db'.grants, u) == Granted(db.grants, u) + if u == user then amount else 0 {
      GrantAppended(db.grants, Grant(user, amount), u);
    }
  }

  /** The step leads from one database to the other, whatever the configuration. */
  ghost predicate Leads(before: Db, step: Step, after: Db) {
    Enabled(AtRest(before), step) && forall cfg :: ApplyDb(cfg, AtRest(before), step) == after
  }

  lemma GrantLeads(db: Db, user: Id, amount: int)
    requires user in db.credits && amount >= 0
    ensures Leads(db, Step.GrantCredits(user, amount), Credited(db, user, amount))
  {
  }

  lemma SignupCredits(cfg: Config, db: Db, user: Id)
    requires user !in db.credits
    ensures ApplyDb(cfg, AtRest(db), Step.Signup(user)) == Credited(db, user, cfg.signupCredits)
  {
  }

  class Backend {
    var owner: map<Id, Id>
    var parsing: set<Id>
    var credits: map<Id, int>
    ghost var grants: seq<Grant>
    var order: seq<Id>
    var candidates: map<Id, Candidate>
    var evals: seq<Evaluation>
    var queue: seq<Entry>

    ghost function State(): Db
      reads this
    {
      Db(owner, parsing, credits, grants, order, candidates, evals, queue)
    }

    constructor ()
      ensures State() == EMPTY_DB
    {
      owner, parsing, credits, grants := map[], {}, map[], [];
      order, candidates, evals, queue := [], map[], [], [];
    }

    predicate OwnsJob(user: Id, job: Id)
      reads this
      ensures OwnsJob(user, job) == Owns(State(), user, job)
    {
      job in owner && owner[job] == user && user in credits
    }

    predicate OwnsRow(user: Id, job: Id, c: Id)
      reads this
      ensures OwnsRow(user, job, c) == OwnsCandidate(State(), user, job, c)
    {
      OwnsJob(user, job) && c in candidates && candidates[c].job == job
    }

    // ---- Accounts ----

    /** `signup`, with an account known by its e-mail address. */
    method Signup(cfg: Config, user: Id) returns (response: Response)
      modifies `credits, `grants
      ensures old(Balanced(State())) ==> Balanced(State())
      ensures response == if user in old(credits) then Conflict else Ok(0)
      ensures response.Conflict? ==> State() == old(State())
      ensures response.Ok? ==>
        && State() == ApplyDb(cfg, AtRest(old(State())), Step.Signup(user))
        && Given(old(State()), State(), user, cfg.signupCredits)
    {
      hide Given, Balanced, ApplyDb;
      if user in credits {
        return Conflict;
      }
      ghost var before := State();
      CreditingKeepsBooks(before, user, cfg.signupCredits);
      SignupCredits(cfg, before, user);
      credits := credits[user := cfg.signupCredits];
      grants := grants + [Grant(user, cfg.signupCredits)];
      assert State() == Credited(before, user, cfg.signupCredits);
      response := Ok(0);
    }

    /** `admin_grant_credits` */
    method AdminGrantCredits(user: Id, amount: int) returns (response: Response)
      modifies `credits, `grants
      ensures amount >= 0 && old(Balanced(State())) ==> Balanced(State())
      ensures response == if user in old(credits) then Ok(0) else NotFound
      ensures response.NotFound? ==> State() == old(State())
      ensures response.Ok? ==> Given(old(State()), State(), user, amount)
      ensures response.Ok? && amount >= 0 ==> Leads(old(State()), Step.GrantCredits(user, amount), State())
    {
      hide Given, Balanced, Leads;
      if user !in credits {
        return NotFound;
      }
      ghost var before := State();
      CreditingKeepsBooks(before, user, amount);
      if amount >= 0 {
        GrantLeads(before, user, amount);
      }
      credits := credits[user := credits[user] + amount];
      grants := grants + [Grant(user, amount)];
      assert State() == Credited(before, user, amount);
      response := Ok(0);
    }

    // ---- Requests ----

    /** `_enqueue_candidates`; the queue takes the candidates in `accepts`. */
    method EnqueueCandidates(ids: seq<Id>, accepts: set<Id>, cause: Cause) returns (queued: seq<Id>, refused: seq<Id>)
      modifies `queue
      ensures queued == Accepted(ids, accepts) && refused == Refused(ids, accepts)
      ensures queue == old(queue) + Entries(queued, cause)
    {
      queued, refused := [], [];
      var i := 0;
      while i < |ids|
        invariant i <= |ids|
        invariant queued == Accepted(ids[..i], accepts) && refused == Refused(ids[..i], accepts)
        invariant queue == old(queue) + Entries(queued, cause)
      {
        FilterSnoc(ids, i, TakenBy(accepts));
        FilterSnoc(ids, i, NotTakenBy(accepts));
        if ids[i] in accepts {
          EntriesSnoc(queued, ids[i], cause);
          queue := queue + [Entry(ids[i], cause)];
          queued := queued + [ids[i]];
        } else {
          refused := refused + [ids[i]];
        }
        i := i + 1;
      }
      assert ids[..i] == ids;
    }

    /** One evaluation without a verdict for each candidate. */
    method AddFailures(ids: seq<Id>, model: string)
      modifies `evals
      ensures evals == old(evals) + Failures(ids, model)
    {
      var i := 0;
      while i < |ids|
        invariant i <= |ids|
        invariant evals == old(evals) + Failures(ids[..i], model)
      {
        FailuresSnoc(ids, i, model);
        evals := evals + [Evaluation(ids[i], None, model)];
        i := i + 1;
      }
      assert ids[..i] == ids;
    }

    /** The rows of the sheet become pending candidates. */
    method AddCandidates(job: Id, ids: seq<Id>, withUrl: set<Id>, now: int)
      modifies `order, `candidates
      ensures order == old(order) + ids
      ensures candidates == old(candidates) + NewRows(ids, job, withUrl, now)
    {
      var i := 0;
      while i < |ids|
        invariant i <= |ids|
        invariant order == old(order) + ids[..i]
        invariant candidates == old(candidates) + NewRows(ids[..i], job, withUrl, now)
      {
        NewRowsAdd(old(candidates), ids, i, job, withUrl, now);
        candidates := candidates[ids[i] := Candidate(job, ids[i] in withUrl, Pending, now, 0)];
        order := order + [ids[i]];
        i := i + 1;
      }
      assert ids[..i] == ids;
    }

    /** The candidates the queue has refused are failed. */
    method FailRefused(refused: seq<Id>, now: int)
      modifies `candidates, `evals
      ensures State() == FailAll(old(State()), refused, "error", now)
    {
      if refused != [] {
        candidates := WithStatus(candidates, refused, Failed, now);
        AddFailures(refused, "error");
      } else {
        StatusOfNone(candidates, Failed, now);
      }
    }

    /** `ingest_candidates` */
    method IngestCandidates(user: Id, job: Id, ids: seq<Id>, withUrl: set<Id>, accepts: set<Id>, now: int)
      returns (response: Response)
      modifies this
      ensures Reply(State(), response) == Ingest(old(State()), user, job, ids, withUrl, accepts, now)
    {
      if !OwnsJob(user, job) {
        return NotFound;
      }
      if job in parsing {
        return Conflict;
      }
      if ids == [] {
        return Unprocessable;
      }
      if credits[user] < |ids| {
        return PaymentRequired;
      }
      AddCandidates(job, ids, withUrl, now);
      var queued, refused := EnqueueCandidates(ids, accepts, Ingested(user));
      FailRefused(refused, now);
      credits := credits[user := credits[user] - |queued|];
      if queued == [] && refused != [] {
        return Unavailable;
      }
      response := Ok(|queued|);
    }

    /** `cancel_pending_candidates` */
    method CancelPendingCandidates(user: Id, job: Id, now: int) returns (response: Response)
      modifies this
      ensures Reply(State(), response) == Cancel(old(State()), user, job, now)
    {
      if !OwnsJob(user, job) {
        return NotFound;
      }
      var pending := Filter(order, InStatus(candidates, job, Pending));
      if pending == [] {
        StatusOfNone(candidates, Failed, now);
        return Ok(0);
      }
      candidates := WithStatus(candidates, pending, Failed, now);
      AddFailures(pending, "cancelled");
      response := Ok(|pending|);
    }

    /** `retry_candidate` */
    method RetryCandidate(user: Id, job: Id, c: Id, accepts: set<Id>, now: int) returns (response: Response)
      modifies this
      ensures Reply(State(), response) == Retry(old(State()), user, job, c, c in accepts, now)
    {
      if !OwnsRow(user, job, c) {
        return NotFound;
      }
      if candidates[c].status != Failed {
        return BadRequest;
      }
      if !candidates[c].hasResume {
        return BadRequest;
      }
      candidates := WithStatus(candidates, [c], Pending, now);
      var _, refused := EnqueueCandidates([c], accepts, Retried);
      FilterOne(c, TakenBy(accepts));
      FilterOne(c, NotTakenBy(accepts));
      if refused != [] {
        StatusTwice(old(candidates), c, Pending, Failed, now);
        candidates := WithStatus(candidates, [c], Failed, now);
        return Unavailable;
      }
      response := Ok(1);
    }

    /** `retry_failed_candidates` */
    method RetryFailedCandidates(user: Id, job: Id, accepts: set<Id>, now: int) returns (response: Response)
      modifies this
      ensures Reply(State(), response) == RetryFailed(old(State()), user, job, accepts, now)
    {
      if !OwnsJob(user, job) {
        return NotFound;
      }
      var failed := Filter(order, InStatus(candidates, job, Failed));
      var retryable := Filter(failed, HasResume(candidates));
      if retryable == [] {
        StatusOfNone(candidates, Pending, now);
        StatusOfNone(candidates, Failed, now);
        return Ok(0);
      }
      candidates := WithStatus(candidates, retryable, Pending, now);
      var queued, refused := EnqueueCandidates(retryable, accepts, Retried);
      if refused != [] {
        candidates := WithStatus(candidates, refused, Failed, now);
      } else {
        StatusOfNone(candidates, Failed, now);
      }
      response := Ok(|queued|);
    }

    /** `upload_candidate_resume`: the credit is taken first and given back if the queue refuses. */
    method UploadCandidateResume(user: Id, job: Id, c: Id, accepts: set<Id>, now: int) returns (response: Response)
      modifies this
      ensures Reply(State(), response) == Upload(old(State()), user, job, c, c in accepts, now)
    {
      if !OwnsRow(user, job, c) {
        return NotFound;
      }
      if credits[user] < 1 {
        return PaymentRequired;
      }
      candidates := candidates[c := candidates[c].(hasResume := true, status := Pending, updatedAt := now)];
      credits := credits[user := credits[user] - 1];
      var _, refused := EnqueueCandidates([c], accepts, Uploaded(user));
      FilterOne(c, TakenBy(accepts));
      FilterOne(c, NotTakenBy(accepts));
      if refused != [] {
        credits := credits[user := credits[user] + 1];
        return Unavailable;
      }
      response := Ok(1);
    }

    // ---- Commits of workers and watchdog ----

    /** `_write_evaluation` */
    method WriteEvaluation(c: Id, verdict: Verdict, now: int)
      requires c in candidates
      modifies `evals, `candidates
      ensures State() == Finish(old(State()), c, verdict, now)
    {
      evals := evals + [Evaluation(c, Some(verdict), "judge")];
      StatusOfOne(candidates, c, Done, now);
      candidates := candidates[c := candidates[c].(status := Done, updatedAt := now)];
    }

    /** One candidate is failed, with an evaluation that has no verdict. */
    method Fail(c: Id, model: string, now: int)
      requires c in candidates
      modifies `evals, `candidates
      ensures State() == FailAll(old(State()), [c], model, now)
    {
      StatusOfOne(candidates, c, Failed, now);
      candidates := candidates[c := candidates[c].(status := Failed, updatedAt := now)];
      evals := evals + [Evaluation(c, None, model)];
    }

    /** The body of the sweep loop; the answer says whether the candidate is back on the queue. */
    method SweepCandidate(cfg: Config, row: Stuck, accepted: bool, now: int) returns (requeued: bool)
      requires row.candidate in candidates
      modifies `evals, `candidates, `queue
      ensures State() == SweepOne(cfg, old(State()), row, accepted, now)
      ensures requeued == (row.retries < cfg.maxStaleRetries && accepted)
    {
      var c := row.candidate;
      if row.retries >= cfg.maxStaleRetries {
        Fail(c, "watchdog_timeout", now);
        return false;
      }
      candidates := candidates[c := candidates[c].(staleRetries := row.retries + 1, updatedAt := now)];
      if row.status != Pending {
        candidates := candidates[c := candidates[c].(status := Pending)];
      }
      if accepted {
        queue := queue + [Entry(c, Swept)];
        return true;
      }
      Fail(c, "watchdog_timeout", now);
      return false;
    }

    /** `sweep_stale_candidates` */
    method SweepStaleCandidates(cfg: Config, cutoff: int, accepts: set<Id>, now: int)
      returns (requeued: nat, failed: nat)
      modifies `evals, `candidates, `queue
      ensures State() == Sweep(cfg, old(State()), cutoff, accepts, now)
      ensures requeued == |RequeuedIds(cfg, StaleRows(old(State()), cutoff), accepts)|
      ensures failed == |GivenUpIds(cfg, StaleRows(old(State()), cutoff), accepts)|
      ensures requeued + failed == |StaleRows(old(State()), cutoff)|
    {
      requeued, failed := 0, 0;
      var rows := Load(candidates, Filter(order, StaleAt(candidates, cutoff)));
      assert rows == StaleRows(State(), cutoff);
      var i := 0;
      while i < |rows|
        invariant i <= |rows| && requeued + failed == i
        invariant forall r | r in rows[i..] :: r.candidate in candidates
        invariant SweepRows(cfg, State(), rows[i..], accepts, now) == SweepRows(cfg, old(State()), rows, accepts, now)
        invariant requeued + |RequeuedIds(cfg, rows[i..], accepts)| == |RequeuedIds(cfg, rows, accepts)|
        invariant failed + |GivenUpIds(cfg, rows[i..], accepts)| == |GivenUpIds(cfg, rows, accepts)|
      {
        var row := rows[i];
        NextRow(cfg, State(), rows, i, accepts, now);
        var ok := SweepCandidate(cfg, row, row.candidate in accepts, now);
        if ok {
          requeued := requeued + 1;
        } else {
          failed := failed + 1;
        }
        i := i + 1;
      }
    }
  }
}
