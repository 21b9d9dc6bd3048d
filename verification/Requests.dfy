/**
  What the bulk requests do to every single candidate, whatever the scan order: ingesting a sheet,
  cancelling what is pending, retrying what has failed (`app/api/ingest.py`).
 */
module Requests {
  import opened Basics
  import opened Scoring
  import opened Lifecycle
  import opened StatusAgreement
  import opened Watchdog

  function Members(ids: seq<Id>): set<Id> {
    set c | c in ids
  }

  /** The candidates of a sheet the queue takes. */
  function Taken(ids: seq<Id>, accepts: set<Id>): set<Id> {
    set c | c in ids && c in accepts
  }

  lemma {:induction false} DistinctCount(ids: seq<Id>)
    requires Distinct(ids)
    ensures |Members(ids)| == |ids|
  {
    if ids == [] {
    } else {
      DistinctCount(ids[1..]);
      assert ids[0] !in ids[1..];
      assert Members(ids) == {ids[0]} + Members(ids[1..]);
    }
  }

  lemma NoMembers(ids: seq<Id>)
    ensures ids == [] <==> forall c :: c !in ids
  {
    assert ids != [] ==> ids[0] in ids;
  }

  lemma CountIs(ids: seq<Id>, s: set<Id>)
    requires Distinct(ids) && forall c :: c in ids <==> c in s
    ensures |ids| == |s|
  {
    DistinctCount(ids);
    assert Members(ids) == s;
  }

  /** The entries a request has added to the queue. */
  function Added(before: Db, after: Db): seq<Entry>
    requires |before.queue| <= |after.queue|
  {
    after.queue[|before.queue|..]
  }

  /** Exactly these candidates were put on the queue, each once. */
  ghost predicate Queues(before: Db, after: Db, candidates: set<Id>, cause: Cause) {
    && before.queue <= after.queue
    && Distinct(Added(before, after))
    && forall e :: e in Added(before, after) <==> e.candidate in candidates && e.cause == cause
  }

  lemma EntriesQueued(db: Db, db': Db, ids: seq<Id>, candidates: set<Id>, cause: Cause)
    requires db'.queue == db.queue + Entries(ids, cause)
    requires Distinct(ids) && forall c :: c in ids <==> c in candidates
    ensures Queues(db, db', candidates, cause)
  {
    assert Added(db, db') == Entries(ids, cause);
    forall e ensures e in Entries(ids, cause) <==> e.candidate in candidates && e.cause == cause {
      if e.candidate in ids && e.cause == cause {
        var i :| 0 <= i < |ids| && ids[i] == e.candidate;
        assert Entries(ids, cause)[i] == e;
      }
    }
  }

  // ---- Cancelling ----

  predicate InJob(db: Db, job: Id, status: Status, c: Id) {
    c in db.candidates && db.candidates[c].job == job && db.candidates[c].status == status
  }

  lemma SelectedIff(db: Db, job: Id, status: Status)
    requires Listed(db)
    ensures Distinct(Select(db, job, status)) && forall c :: c in Select(db, job, status) <==> InJob(db, job, status, c)
  {
    FilterDistinct(db.order, InStatus(db.candidates, job, status));
    FilterMembers(db.order, InStatus(db.candidates, job, status));
  }

  function CandidatesInJob(db: Db, job: Id, status: Status): set<Id> {
    set c | c in db.candidates && InJob(db, job, status, c)
  }

  function Cancelled(candidate: Candidate, now: int): Candidate {
    candidate.(status := Failed, updatedAt := now)
  }

  /**
    The pending candidates of the job, and nobody else, are failed; the answer says how many; nobody is
    charged or refunded.
   */
  lemma CancelContract(db: Db, user: Id, job: Id, now: int)
    requires Listed(db) && Owns(db, user, job)
    ensures
      var after := Cancel(db, user, job, now).db;
      && after.candidates.Keys == db.candidates.Keys && after.queue == db.queue && after.credits == db.credits
      && forall c | c in db.candidates ::
        var hit := InJob(db, job, Pending, c);
        && after.candidates[c] == (if hit then Cancelled(db.candidates[c], now) else db.candidates[c])
        && ShownVerdict(after, c) == (if hit then Unprocessed else ShownVerdict(db, c))
    ensures Cancel(db, user, job, now).response == Ok(|CandidatesInJob(db, job, Pending)|)
  {
    var pending := Select(db, job, Pending);
    SelectedIff(db, job, Pending);
    forall c | c in db.candidates
      ensures ShownVerdict(Cancel(db, user, job, now).db, c)
           == if InJob(db, job, Pending, c) then Unprocessed else ShownVerdict(db, c)
    {
      FailAllShows(db, pending, "cancelled", now, c);
    }
    CountIs(pending, CandidatesInJob(db, job, Pending));
  }

  // ---- Retrying ----

  predicate CanRetry(db: Db, job: Id, c: Id) {
    InJob(db, job, Failed, c) && db.candidates[c].hasResume
  }

  lemma RetryableIff(db: Db, job: Id)
    requires Listed(db)
    ensures Distinct(Retryable(db, job)) && forall c :: c in Retryable(db, job) <==> CanRetry(db, job, c)
  {
    SelectedIff(db, job, Failed);
    FilterDistinct(Select(db, job, Failed), HasResume(db.candidates));
    FilterMembers(Select(db, job, Failed), HasResume(db.candidates));
  }

  lemma AcceptedIff(ids: seq<Id>, accepts: set<Id>)
    requires Distinct(ids)
    ensures Distinct(Accepted(ids, accepts)) && forall c :: c in Accepted(ids, accepts) <==> c in ids && c in accepts
    ensures forall c :: c in Refused(ids, accepts) <==> c in ids && c !in accepts
  {
    FilterDistinct(ids, TakenBy(accepts));
    FilterMembers(ids, TakenBy(accepts));
    FilterMembers(ids, NotTakenBy(accepts));
  }

  function RetriedNow(db: Db, job: Id, accepts: set<Id>): set<Id> {
    set c | c in db.candidates && CanRetry(db, job, c) && c in accepts
  }

  function AfterRetry(candidate: Candidate, accepted: bool, now: int): Candidate {
    candidate.(status := if accepted then Pending else Failed, updatedAt := now)
  }

  /**
    The failed candidates with a resume go back to pending where the queue takes them; nothing else
    changes and nobody pays.
   */
  lemma RetryFailedContract(db: Db, user: Id, job: Id, accepts: set<Id>, now: int)
    requires Listed(db) && Owns(db, user, job)
    ensures
      var after, retried := RetryFailed(db, user, job, accepts, now).db, RetriedNow(db, job, accepts);
      && after.candidates.Keys == db.candidates.Keys && after.credits == db.credits && after.evals == db.evals
      && Queues(db, after, retried, Retried)
      && (forall c | c in db.candidates ::
            after.candidates[c] ==
              if CanRetry(db, job, c) then AfterRetry(db.candidates[c], c in accepts, now) else db.candidates[c])
      && RetryFailed(db, user, job, accepts, now).response == Ok(|retried|)
  {
    var ids, retried := Retryable(db, job), RetriedNow(db, job, accepts);
    RetryableIff(db, job);
    AcceptedIff(ids, accepts);
    EntriesQueued(db, RetryFailed(db, user, job, accepts, now).db, Accepted(ids, accepts), retried, Retried);
    CountIs(Accepted(ids, accepts), retried);
  }

  // ---- Ingesting ----

  /** The checks before anything is stored. */
  predicate Admitted(db: Db, user: Id, job: Id, ids: seq<Id>) {
    Owns(db, user, job) && job !in db.parsing && ids != [] && db.credits[user] >= |ids|
  }

  /** A sheet that is not admitted changes nothing. */
  lemma IngestRefuses(db: Db, user: Id, job: Id, ids: seq<Id>, withUrl: set<Id>, accepts: set<Id>, now: int)
    requires !Admitted(db, user, job, ids)
    ensures
      var reply := Ingest(db, user, job, ids, withUrl, accepts, now);
      reply.db == db && !reply.response.Ok? && !reply.response.Unavailable?
  {
  }

  /** An admitted one is answered 503 exactly when the queue takes none of it, and otherwise with the number taken. */
  lemma IngestAnswers(db: Db, user: Id, job: Id, ids: seq<Id>, withUrl: set<Id>, accepts: set<Id>, now: int)
    requires Distinct(ids) && Admitted(db, user, job, ids)
    ensures Ingest(db, user, job, ids, withUrl, accepts, now).response
         == if forall c | c in ids :: c !in accepts then Unavailable else Ok(|Taken(ids, accepts)|)
  {
    var queued, refused := Accepted(ids, accepts), Refused(ids, accepts);
    AcceptedIff(ids, accepts);
    CountIs(queued, Taken(ids, accepts));
    if forall c | c in ids :: c !in accepts {
      assert ids[0] in refused;
      NoMembers(queued);
    } else {
      var c :| c in ids && c in accepts;
      assert c in queued;
    }
  }

  function NewCandidate(job: Id, withUrl: bool, accepted: bool, now: int): Candidate {
    Candidate(job, withUrl, if accepted then Pending else Failed, now, 0)
  }

  lemma IngestedRows(candidates: map<Id, Candidate>, job: Id, ids: seq<Id>, withUrl: set<Id>, accepts: set<Id>,
        now: int)
    requires Distinct(ids) && forall c | c in ids :: c !in candidates
    ensures
      var rows := WithStatus(candidates + NewRows(ids, job, withUrl, now), Refused(ids, accepts), Failed, now);
      && (forall c | c in ids :: c in rows && rows[c] == NewCandidate(job, c in withUrl, c in accepts, now))
      && (forall c | c in candidates :: c in rows && rows[c] == candidates[c])
  {
    AcceptedIff(ids, accepts);
  }

  lemma IngestParts(db: Db, user: Id, job: Id, ids: seq<Id>, withUrl: set<Id>, accepts: set<Id>, now: int)
    requires Admitted(db, user, job, ids)
    ensures
      var after := Ingest(db, user, job, ids, withUrl, accepts, now).db;
      && after.queue == db.queue + Entries(Accepted(ids, accepts), Ingested(user))
      && after.credits == db.credits[user := db.credits[user] - |Accepted(ids, accepts)|]
      && after.candidates
         == WithStatus(db.candidates + NewRows(ids, job, withUrl, now), Refused(ids, accepts), Failed, now)
      && after.evals == db.evals + Failures(Refused(ids, accepts), "error")
  {
  }

  lemma IngestShows(db: Db, user: Id, job: Id, ids: seq<Id>, withUrl: set<Id>, accepts: set<Id>, now: int)
    requires Distinct(ids) && Admitted(db, user, job, ids)
    ensures
      var after := Ingest(db, user, job, ids, withUrl, accepts, now).db;
      forall c :: ShownVerdict(after, c) == if c in ids && c !in accepts then Unprocessed else ShownVerdict(db, c)
  {
    var after := Ingest(db, user, job, ids, withUrl, accepts, now).db;
    IngestParts(db, user, job, ids, withUrl, accepts, now);
    AcceptedIff(ids, accepts);
    forall c ensures ShownVerdict(after, c) == if c in ids && c !in accepts then Unprocessed else ShownVerdict(db, c) {
      FailAllShows(db, Refused(ids, accepts), "error", now, c);
      assert after.evals == FailAll(db, Refused(ids, accepts), "error", now).evals;
    }
  }

  lemma IngestCharges(db: Db, user: Id, job: Id, ids: seq<Id>, withUrl: set<Id>, accepts: set<Id>, now: int)
    requires Distinct(ids) && Admitted(db, user, job, ids)
    ensures
      var after := Ingest(db, user, job, ids, withUrl, accepts, now).db;
      && Queues(db, after, Taken(ids, accepts), Ingested(user))
      && after.credits == db.credits[user := db.credits[user] - |Taken(ids, accepts)|]
  {
    IngestParts(db, user, job, ids, withUrl, accepts, now);
    AcceptedIff(ids, accepts);
    CountIs(Accepted(ids, accepts), Taken(ids, accepts));
    EntriesQueued(db, Ingest(db, user, job, ids, withUrl, accepts, now).db,
      Accepted(ids, accepts), Taken(ids, accepts), Ingested(user));
  }

  /** Each row becomes a candidate: queued once and paid for, or failed, shown as unprocessed and not paid for. */
  lemma IngestContract(db: Db, user: Id, job: Id, ids: seq<Id>, withUrl: set<Id>, accepts: set<Id>, now: int)
    requires Distinct(ids) && Admitted(db, user, job, ids) && forall c | c in ids :: c !in db.candidates
    ensures
      var after := Ingest(db, user, job, ids, withUrl, accepts, now).db;
      && Queues(db, after, Taken(ids, accepts), Ingested(user))
      && after.credits == db.credits[user := db.credits[user] - |Taken(ids, accepts)|]
      && (forall c | c in ids ::
            c in after.candidates && after.candidates[c] == NewCandidate(job, c in withUrl, c in accepts, now))
      && (forall c | c in db.candidates :: c in after.candidates && after.candidates[c] == db.candidates[c])
      && forall c :: ShownVerdict(after, c) == if c in ids && c !in accepts then Unprocessed else ShownVerdict(db, c)
  {
    IngestCharges(db, user, job, ids, withUrl, accepts, now);
    IngestShows(db, user, job, ids, withUrl, accepts, now);
    IngestParts(db, user, job, ids, withUrl, accepts, now);
    IngestedRows(db.candidates, job, ids, withUrl, accepts, now);
  }

  // ---- When the queue refuses ----

  /** A retry the queue refuses changes nothing but the time stamp. */
  lemma RefusedRetryIsUndone(db: Db, user: Id, job: Id, c: Id, now: int)
    requires c in db.candidates
    ensures
      var reply := Retry(db, user, job, c, false, now);
      !reply.response.Ok? && (reply.db == db || reply.db == Touched(db, c, now))
  {
    var reply := Retry(db, user, job, c, false, now);
    if reply.response.Unavailable? {
      assert reply.db.candidates == Touched(db, c, now).candidates;
    }
  }

  /** An upload the queue refuses charges nothing, but leaves the candidate pending with no job for it on the queue. */
  lemma RefusedUploadStaysPending(db: Db, user: Id, job: Id, c: Id, now: int)
    requires OwnsCandidate(db, user, job, c) && db.credits[user] >= 1
    ensures
      var reply := Upload(db, user, job, c, false, now);
      && reply.response.Unavailable? && reply.db.candidates[c].status == Pending
      && reply.db.queue == db.queue && reply.db.credits == db.credits && reply.db.evals == db.evals
  {
  }

  // ---- Single requests ----

  /**
    An accepted upload: a resume on file, pending again, one job on the queue, one credit less; the
    candidate is shown as before and nobody else changes.
   */
  lemma UploadContract(db: Db, user: Id, job: Id, c: Id, now: int)
    requires OwnsCandidate(db, user, job, c) && db.credits[user] >= 1
    ensures
      var reply := Upload(db, user, job, c, true, now);
      && reply.response == Ok(1)
      && reply.db.candidates
         == db.candidates[c := db.candidates[c].(hasResume := true, status := Pending, updatedAt := now)]
      && Queues(db, reply.db, {c}, Uploaded(user))
      && reply.db.credits == db.credits[user := db.credits[user] - 1]
      && reply.db.evals == db.evals && (forall d :: ShownVerdict(reply.db, d) == ShownVerdict(db, d))
      && reply.db == db.(candidates := reply.db.candidates, queue := reply.db.queue, credits := reply.db.credits)
  {
    var after := Upload(db, user, job, c, true, now).db;
    EntriesQueued(db, after, [c], {c}, Uploaded(user));
  }

  /** A refused upload stores the same row and charges nothing. */
  lemma RefusedUploadContract(db: Db, user: Id, job: Id, c: Id, now: int)
    requires OwnsCandidate(db, user, job, c) && db.credits[user] >= 1
    ensures
      var reply := Upload(db, user, job, c, false, now);
      && reply.response == Unavailable
      && reply.db.candidates
         == db.candidates[c := db.candidates[c].(hasResume := true, status := Pending, updatedAt := now)]
      && reply.db == db.(candidates := reply.db.candidates)
  {
  }

  /** An accepted retry: pending again and one job on the queue, at no charge, and nothing else. */
  lemma RetryContract(db: Db, user: Id, job: Id, c: Id, now: int)
    requires OwnsCandidate(db, user, job, c) && db.candidates[c].status == Failed && db.candidates[c].hasResume
    ensures
      var reply := Retry(db, user, job, c, true, now);
      && reply.response == Ok(1)
      && reply.db.candidates == db.candidates[c := db.candidates[c].(status := Pending, updatedAt := now)]
      && Queues(db, reply.db, {c}, Retried)
      && reply.db == db.(candidates := reply.db.candidates, queue := reply.db.queue)
  {
    var after := Retry(db, user, job, c, true, now).db;
    EntriesQueued(db, after, [c], {c}, Retried);
    assert after.candidates == db.candidates[c := db.candidates[c].(status := Pending, updatedAt := now)];
  }

  /** The requests for one candidate that are turned away, with what answer; they change nothing. */
  lemma SingleRefusals(db: Db, user: Id, job: Id, c: Id, accepted: bool, now: int)
    ensures
      var retry, upload := Retry(db, user, job, c, accepted, now), Upload(db, user, job, c, accepted, now);
      var mine := job in db.owner && db.owner[job] == user && user in db.credits
               && c in db.candidates && db.candidates[c].job == job;
      && (!mine ==> retry == Reply(db, NotFound) && upload == Reply(db, NotFound))
      && (mine && (db.candidates[c].status != Failed || !db.candidates[c].hasResume) ==> retry == Reply(db, BadRequest))
      && (mine && db.credits[user] < 1 ==> upload == Reply(db, PaymentRequired))
  {
  }

  /** The bulk requests that are turned away, in the order of the checks. */
  lemma BulkRefusals(
      db: Db, user: Id, job: Id, ids: seq<Id>, withUrl: set<Id>, accepts: set<Id>, now: int)
    ensures
      var mine := job in db.owner && db.owner[job] == user && user in db.credits;
      var ingest := Ingest(db, user, job, ids, withUrl, accepts, now);
      && (!mine ==> ingest == Reply(db, NotFound) && Cancel(db, user, job, now) == Reply(db, NotFound)
                    && RetryFailed(db, user, job, accepts, now) == Reply(db, NotFound))
      && (mine && job in db.parsing ==> ingest == Reply(db, Conflict))
      && (mine && job !in db.parsing && ids == [] ==> ingest == Reply(db, Unprocessable))
      && (mine && job !in db.parsing && ids != [] && db.credits[user] < |ids| ==> ingest == Reply(db, PaymentRequired))
  {
  }

  // ---- Steps of accounts, jobs and workers ----

  /** A row's change by one commit: status and time stamp, nothing else of it, and no other row. */
  predicate RowChange(db: Db, after: Db, c: Id, status: Status, now: int)
    requires c in db.candidates
  {
    after.candidates == db.candidates[c := db.candidates[c].(status := status, updatedAt := now)]
  }

  /** What each commit of a worker does to the candidate and to what is shown. */
  lemma WorkerCommits(cfg: Config, s: System, c: Id, verdict: Verdict, now: int)
    requires c in s.db.candidates && c in s.working && c in s.waiting
    ensures
      var db, touched := s.db, ApplyDb(cfg, s, WorkerTouches(c, now));
      var emitted, silent := ApplyDb(cfg, s, WorkerStarts(c, true, now)), ApplyDb(cfg, s, WorkerStarts(c, false, now));
      && RowChange(db, emitted, c, Processing, now) && emitted == db.(candidates := emitted.candidates)
      && silent == db
      && RowChange(db, touched, c, db.candidates[c].status, now) && touched == db.(candidates := touched.candidates)
    ensures
      var db, finished := s.db, ApplyDb(cfg, s, WorkerFinishes(c, verdict, now));
      var failed := ApplyDb(cfg, s, WorkerFails(c, now));
      && RowChange(db, finished, c, Done, now)
      && finished == db.(candidates := finished.candidates, evals := finished.evals)
      && |finished.evals| == |db.evals| + 1 && ShownVerdict(finished, c) == Assessed(verdict)
      && (forall d | d != c :: ShownVerdict(finished, d) == ShownVerdict(db, d))
      && RowChange(db, failed, c, Failed, now)
      && failed == db.(candidates := failed.candidates, evals := failed.evals)
      && |failed.evals| == |db.evals| + 1 && ShownVerdict(failed, c) == Unprocessed
      && (forall d | d != c :: ShownVerdict(failed, d) == ShownVerdict(db, d))
  {
    OneRow(s.db.candidates, c, Processing, now);
    OneRow(s.db.candidates, c, Done, now);
    OneRow(s.db.candidates, c, Failed, now);
    var finished := ApplyDb(cfg, s, WorkerFinishes(c, verdict, now));
    assert finished.evals[..|s.db.evals|] == s.db.evals;
    forall d
      ensures ShownVerdict(ApplyDb(cfg, s, WorkerFails(c, now)), d)
           == if d == c then Unprocessed else ShownVerdict(s.db, d)
    {
      FailAllShows(s.db, [c], "error", now, d);
    }
  }

  lemma OneRow(candidates: map<Id, Candidate>, c: Id, status: Status, now: int)
    requires c in candidates
    ensures WithStatus(candidates, [c], status, now)
         == candidates[c := candidates[c].(status := status, updatedAt := now)]
  {
  }

  /** Creating a job makes its creator the owner; a deferred parse keeps it from ingesting until it is parsed. */
  lemma JobSteps(cfg: Config, s: System, user: Id, job: Id, deferred: bool)
    requires user in s.db.credits && job !in s.db.owner && job !in s.db.parsing
    ensures
      var created := ApplyDb(cfg, s, CreateJob(user, job, deferred));
      && Owns(created, user, job) && (job in created.parsing <==> deferred)
      && created == s.db.(owner := created.owner, parsing := created.parsing)
      && (forall j | j != job ::
            (j in created.owner <==> j in s.db.owner) && (j in created.parsing <==> j in s.db.parsing))
      && (forall j | j in s.db.owner :: created.owner[j] == s.db.owner[j])
  {
  }

  /** Parsing a job late lets it ingest, and no other. */
  lemma ParsedJobs(cfg: Config, s: System, job: Id, other: Id)
    ensures
      var parsed := ApplyDb(cfg, s, JdParsed(job));
      && parsed == s.db.(parsing := parsed.parsing)
      && (other in parsed.parsing <==> other in s.db.parsing && other != job)
  {
  }
}
