/**
  Candidates, their evaluations and the owner's credits, as the API requests and the workers'
  commits change them (`app/api/ingest.py`, `app/workers/tasks.py`, `app/api/billing.py`,
  `app/api/auth.py`). A request is one step; worker and watchdog commits come in between.
 */
module Lifecycle {
  import opened Basics
  import opened Scoring

  type Id = nat

  datatype Status = Pending | Processing | Done | Failed

  datatype Candidate = Candidate(job: Id, hasResume: bool, status: Status, updatedAt: int, staleRetries: nat)

  datatype Evaluation = Evaluation(candidate: Id, verdict: Option<Verdict>, model: string)

  /** Why a candidate was put on the queue, and who pays for it. */
  datatype Cause = Ingested(payer: Id) | Uploaded(payer: Id) | Retried | Swept

  datatype Entry = Entry(candidate: Id, cause: Cause)

  datatype Grant = Grant(user: Id, amount: int)

  /**
    `order` is the order in which a table scan meets the candidates, `evals` is in order of
    creation, `queue` records every job ever put on the queue, `grants` every credit ever given.
   */
  datatype Db = Db(
    owner: map<Id, Id>, parsing: set<Id>, credits: map<Id, int>, grants: seq<Grant>,
    order: seq<Id>, candidates: map<Id, Candidate>, evals: seq<Evaluation>, queue: seq<Entry>)

  const EMPTY_DB := Db(map[], {}, map[], [], [], map[], [], [])

  datatype Config = Config(maxStaleRetries: nat, signupCredits: nat)

  // ---- Bulk changes ----

  function WithStatus(candidates: map<Id, Candidate>, ids: seq<Id>, status: Status, now: int): map<Id, Candidate> {
    map c | c in candidates :: if c in ids then candidates[c].(status := status, updatedAt := now) else candidates[c]
  }

  function NewRows(ids: seq<Id>, job: Id, withUrl: set<Id>, now: int): map<Id, Candidate> {
    map c | c in ids :: Candidate(job, c in withUrl, Pending, now, 0)
  }

  /** Evaluations that record a failure: no verdict. */
  function Failures(ids: seq<Id>, model: string): seq<Evaluation> {
    seq(|ids|, i requires 0 <= i < |ids| => Evaluation(ids[i], None, model))
  }

  function Entries(ids: seq<Id>, cause: Cause): seq<Entry> {
    seq(|ids|, i requires 0 <= i < |ids| => Entry(ids[i], cause))
  }

  function TakenBy(accepts: set<Id>): Id -> bool {
    c => c in accepts
  }

  function NotTakenBy(accepts: set<Id>): Id -> bool {
    c => c !in accepts
  }

  function Accepted(ids: seq<Id>, accepts: set<Id>): seq<Id> {
    Filter(ids, TakenBy(accepts))
  }

  function Refused(ids: seq<Id>, accepts: set<Id>): seq<Id> {
    Filter(ids, NotTakenBy(accepts))
  }

  function InStatus(candidates: map<Id, Candidate>, job: Id, status: Status): Id -> bool {
    c => c in candidates && candidates[c].job == job && candidates[c].status == status
  }

  /** The job's candidates of one status, in scan order. */
  function Select(db: Db, job: Id, status: Status): seq<Id> {
    Filter(db.order, InStatus(db.candidates, job, status))
  }

  function HasResume(candidates: map<Id, Candidate>): Id -> bool {
    c => c in candidates && candidates[c].hasResume
  }

  /** The failed candidates of a job that have a resume on file. */
  function Retryable(db: Db, job: Id): seq<Id> {
    Filter(Select(db, job, Failed), HasResume(db.candidates))
  }

  function FailAll(db: Db, ids: seq<Id>, model: string, now: int): Db {
    db.(candidates := WithStatus(db.candidates, ids, Failed, now), evals := db.evals + Failures(ids, model))
  }

  function EnqueueAll(db: Db, ids: seq<Id>, cause: Cause): Db {
    db.(queue := db.queue + Entries(ids, cause))
  }

  function Pay(db: Db, user: Id, amount: int): Db
    requires user in db.credits
  {
    db.(credits := db.credits[user := db.credits[user] - amount])
  }

  // ---- Requests ----

  datatype Response = Ok(count: nat) | NotFound | BadRequest | PaymentRequired | Conflict | Unprocessable | Unavailable

  datatype Reply = Reply(db: Db, response: Response)

  /** The request is made by the owner of the job. */
  predicate Owns(db: Db, user: Id, job: Id) {
    job in db.owner && db.owner[job] == user && user in db.credits
  }

  predicate OwnsCandidate(db: Db, user: Id, job: Id, c: Id) {
    Owns(db, user, job) && c in db.candidates && db.candidates[c].job == job
  }

  /** `ingest_candidates`, one id for every row of the sheet; `accepts` are the candidates the queue takes. */
  function Ingest(db: Db, user: Id, job: Id, ids: seq<Id>, withUrl: set<Id>, accepts: set<Id>, now: int): Reply {
    if !Owns(db, user, job) then Reply(db, NotFound)
    else if job in db.parsing then Reply(db, Conflict)
    else if ids == [] then Reply(db, Unprocessable)
    else if db.credits[user] < |ids| then Reply(db, PaymentRequired)
    else
      var added := db.(order := db.order + ids, candidates := db.candidates + NewRows(ids, job, withUrl, now));
      var queued, refused := Accepted(ids, accepts), Refused(ids, accepts);
      var db' := Pay(FailAll(EnqueueAll(added, queued, Ingested(user)), refused, "error", now), user, |queued|);
      Reply(db', if queued == [] && refused != [] then Unavailable else Ok(|queued|))
  }

  /** `cancel_pending_candidates` */
  function Cancel(db: Db, user: Id, job: Id, now: int): Reply {
    if !Owns(db, user, job) then Reply(db, NotFound)
    else
      var pending := Select(db, job, Pending);
      Reply(FailAll(db, pending, "cancelled", now), Ok(|pending|))
  }

  /** `retry_candidate` */
  function Retry(db: Db, user: Id, job: Id, c: Id, accepted: bool, now: int): Reply {
    if !OwnsCandidate(db, user, job, c) then Reply(db, NotFound)
    else if db.candidates[c].status != Failed || !db.candidates[c].hasResume then Reply(db, BadRequest)
    else if accepted then
      Reply(EnqueueAll(db.(candidates := WithStatus(db.candidates, [c], Pending, now)), [c], Retried), Ok(1))
    else Reply(db.(candidates := WithStatus(db.candidates, [c], Failed, now)), Unavailable)
  }

  /** `retry_failed_candidates` */
  function RetryFailed(db: Db, user: Id, job: Id, accepts: set<Id>, now: int): Reply {
    if !Owns(db, user, job) then Reply(db, NotFound)
    else
      var retryable := Retryable(db, job);
      var queued, refused := Accepted(retryable, accepts), Refused(retryable, accepts);
      var pending := WithStatus(db.candidates, retryable, Pending, now);
      Reply(EnqueueAll(db.(candidates := WithStatus(pending, refused, Failed, now)), queued, Retried), Ok(|queued|))
  }

  /** `upload_candidate_resume` */
  function Upload(db: Db, user: Id, job: Id, c: Id, accepted: bool, now: int): Reply {
    if !OwnsCandidate(db, user, job, c) then Reply(db, NotFound)
    else if db.credits[user] < 1 then Reply(db, PaymentRequired)
    else
      var reset := db.candidates[c].(hasResume := true, status := Pending, updatedAt := now);
      var db' := db.(candidates := db.candidates[c := reset]);
      if accepted then Reply(Pay(EnqueueAll(db', [c], Uploaded(user)), user, 1), Ok(1))
      else Reply(db', Unavailable)
  }

  // ---- Commits of workers and watchdog ----

  function Committed(db: Db, c: Id, status: Status, now: int): Db {
    db.(candidates := WithStatus(db.candidates, [c], status, now))
  }

  /** `_write_evaluation`: the evaluation and the status in one commit. */
  function Finish(db: Db, c: Id, verdict: Verdict, now: int): Db {
    Committed(db, c, Done, now).(evals := db.evals + [Evaluation(c, Some(verdict), "judge")])
  }

  /** What the sweep has read of a stuck candidate. */
  datatype Stuck = Stuck(candidate: Id, status: Status, retries: nat)

  predicate IsStale(c: Candidate, cutoff: int) {
    (c.status == Pending || c.status == Processing) && c.updatedAt < cutoff
  }

  function StaleAt(candidates: map<Id, Candidate>, cutoff: int): Id -> bool {
    c => c in candidates && IsStale(candidates[c], cutoff)
  }

  function StaleIds(db: Db, cutoff: int): seq<Id> {
    Filter(db.order, StaleAt(db.candidates, cutoff))
  }

  function Row(candidates: map<Id, Candidate>, c: Id): Stuck
    requires c in candidates
  {
    Stuck(c, candidates[c].status, candidates[c].staleRetries)
  }

  function Load(candidates: map<Id, Candidate>, ids: seq<Id>): seq<Stuck> {
    if ids == [] then []
    else (if ids[0] in candidates then [Row(candidates, ids[0])] else []) + Load(candidates, ids[1..])
  }

  /**
    One round of the sweep loop. Only changed columns are written: a candidate read as pending
    keeps whatever status it has by now, and its retry counter is the one read plus one.
   */
  function SweepOne(cfg: Config, db: Db, row: Stuck, accepted: bool, now: int): Db
    requires row.candidate in db.candidates
  {
    var c := row.candidate;
    if row.retries >= cfg.maxStaleRetries then FailAll(db, [c], "watchdog_timeout", now)
    else
      var status := if row.status == Pending then db.candidates[c].status else Pending;
      var retried := db.candidates[c].(staleRetries := row.retries + 1, updatedAt := now, status := status);
      var db' := db.(candidates := db.candidates[c := retried]);
      if accepted then EnqueueAll(db', [c], Swept) else FailAll(db', [c], "watchdog_timeout", now)
  }

  // ---- Runs ----

  /**
    The database, the rows each running sweep has still to treat, the candidates with jobs waiting on
    the queue and those with workers at work, as often as they have any.
   */
  datatype System = System(db: Db, sweeps: map<Id, seq<Stuck>>, waiting: multiset<Id>, working: multiset<Id>)

  /** Nothing is going on. */
  function AtRest(db: Db): System {
    System(db, map[], multiset{}, multiset{})
  }

  datatype Step =
    | Signup(user: Id)
    | CreateJob(user: Id, job: Id, deferred: bool)
    | JdParsed(job: Id)
    | GrantCredits(user: Id, amount: int)
    | IngestSheet(user: Id, job: Id, ids: seq<Id>, withUrl: set<Id>, accepts: set<Id>, now: int)
    | CancelPending(user: Id, job: Id, now: int)
    | RetryOne(user: Id, job: Id, candidate: Id, accepted: bool, now: int)
    | RetryAll(user: Id, job: Id, accepts: set<Id>, now: int)
    | UploadResume(user: Id, job: Id, candidate: Id, accepted: bool, now: int)
    | WorkerStarts(candidate: Id, emitted: bool, now: int)
    | WorkerTouches(candidate: Id, now: int)
    | WorkerFinishes(candidate: Id, verdict: Verdict, now: int)
    | WorkerFails(candidate: Id, now: int)
    | WorkerDies(candidate: Id, requeued: bool)
    | SweepBegins(sweep: Id, cutoff: int)
    | SweepContinues(sweep: Id, accepted: bool, now: int)
    | SweepStops(sweep: Id)
    | SweepDies(sweep: Id)

  /** The sweep has a row left, and the row's candidate is still stored. */
  predicate HasRound(s: System, w: Id) {
    w in s.sweeps && s.sweeps[w] != [] && s.sweeps[w][0].candidate in s.db.candidates
  }

  /**
    Ids of new users, jobs, candidates and sweeps are new. A worker takes a job from the queue and
    works until it finishes, fails or dies; the queue may hand the job of a dead worker out again.
    Any number of sweeps may run at once. A sweep may stop between two rounds, at its end or before,
    and it may die inside a round, after the enqueue and before the commit.
   */
  predicate Enabled(s: System, step: Step) {
    match step
    case Signup(u) => u !in s.db.credits
    case CreateJob(u, j, _) => u in s.db.credits && j !in s.db.owner
    case JdParsed(_) => true
    case GrantCredits(u, n) => u in s.db.credits && n >= 0
    case IngestSheet(_, _, ids, _, _, _) => Distinct(ids) && forall c | c in ids :: c !in s.db.candidates
    case CancelPending(_, _, _) => true
    case RetryOne(_, _, _, _, _) => true
    case RetryAll(_, _, _, _) => true
    case UploadResume(_, _, _, _, _) => true
    case WorkerStarts(c, _, _) => c in s.waiting && c in s.db.candidates
    case WorkerTouches(c, _) => c in s.working && c in s.db.candidates
    case WorkerFinishes(c, _, _) => c in s.working && c in s.db.candidates
    case WorkerFails(c, _) => c in s.working && c in s.db.candidates
    case WorkerDies(c, _) => c in s.working
    case SweepBegins(w, _) => w !in s.sweeps
    case SweepContinues(w, _, _) => HasRound(s, w)
    case SweepStops(w) => w in s.sweeps
    case SweepDies(w) => HasRound(s, w)
  }

  /** A worker's first commit writes `processing`, unless that is what it read. */
  function Started(db: Db, c: Id, emitted: bool, now: int): Db {
    if emitted then Committed(db, c, Processing, now) else db
  }

  /** A commit of other columns only bumps `updated_at`. */
  function Touched(db: Db, c: Id, now: int): Db
    requires c in db.candidates
  {
    db.(candidates := db.candidates[c := db.candidates[c].(updatedAt := now)])
  }

  /** What is left of a round that dies before its commit: the job, if it got to put one on the queue. */
  function HalfRound(cfg: Config, db: Db, row: Stuck): Db {
    if row.retries < cfg.maxStaleRetries then EnqueueAll(db, [row.candidate], Swept) else db
  }

  function ApplyDb(cfg: Config, s: System, step: Step): Db
    requires Enabled(s, step)
  {
    var db := s.db;
    match step
    case Signup(u) => db.(credits := db.credits[u := cfg.signupCredits],
      grants := db.grants + [Grant(u, cfg.signupCredits)])
    case CreateJob(u, j, deferred) =>
      db.(owner := db.owner[j := u], parsing := if deferred then db.parsing + {j} else db.parsing)
    case JdParsed(j) => db.(parsing := db.parsing - {j})
    case GrantCredits(u, n) => db.(credits := db.credits[u := db.credits[u] + n], grants := db.grants + [Grant(u, n)])
    case IngestSheet(u, j, ids, withUrl, accepts, now) => Ingest(db, u, j, ids, withUrl, accepts, now).db
    case CancelPending(u, j, now) => Cancel(db, u, j, now).db
    case RetryOne(u, j, c, accepted, now) => Retry(db, u, j, c, accepted, now).db
    case RetryAll(u, j, accepts, now) => RetryFailed(db, u, j, accepts, now).db
    case UploadResume(u, j, c, accepted, now) => Upload(db, u, j, c, accepted, now).db
    case WorkerStarts(c, emitted, now) => Started(db, c, emitted, now)
    case WorkerTouches(c, now) => Touched(db, c, now)
    case WorkerFinishes(c, verdict, now) => Finish(db, c, verdict, now)
    case WorkerFails(c, now) => FailAll(db, [c], "error", now)
    case WorkerDies(_, _) => db
    case SweepBegins(_, _) => db
    case SweepContinues(w, accepted, now) => SweepOne(cfg, db, s.sweeps[w][0], accepted, now)
    case SweepStops(_) => db
    case SweepDies(w) => HalfRound(cfg, db, s.sweeps[w][0])
  }

  /** The candidates that have been put on the queue between two states. */
  function Enqueued(before: Db, after: Db): multiset<Id> {
    if |before.queue| <= |after.queue| then CandidatesOf(after.queue[|before.queue|..]) else multiset{}
  }

  function IdsOf(entries: seq<Entry>): seq<Id> {
    seq(|entries|, i requires 0 <= i < |entries| => entries[i].candidate)
  }

  function CandidatesOf(entries: seq<Entry>): multiset<Id> {
    multiset(IdsOf(entries))
  }

  function WaitingAfter(s: System, step: Step, db: Db): multiset<Id> {
    match step
    case WorkerStarts(c, _, _) => s.waiting - multiset{c}
    case WorkerDies(c, requeued) => if requeued then s.waiting + multiset{c} else s.waiting
    case _ => s.waiting + Enqueued(s.db, db)
  }

  function WorkingAfter(s: System, step: Step): multiset<Id> {
    match step
    case WorkerStarts(c, _, _) => s.working + multiset{c}
    case WorkerFinishes(c, _, _) => s.working - multiset{c}
    case WorkerFails(c, _) => s.working - multiset{c}
    case WorkerDies(c, _) => s.working - multiset{c}
    case _ => s.working
  }

  function SweepsAfter(s: System, step: Step): map<Id, seq<Stuck>>
    requires Enabled(s, step)
  {
    match step
    case SweepBegins(w, cutoff) => s.sweeps[w := Load(s.db.candidates, StaleIds(s.db, cutoff))]
    case SweepContinues(w, _, _) => s.sweeps[w := s.sweeps[w][1..]]
    case SweepStops(w) => s.sweeps - {w}
    case SweepDies(w) => s.sweeps - {w}
    case _ => s.sweeps
  }

  function Apply(cfg: Config, s: System, step: Step): System
    requires Enabled(s, step)
  {
    var db := ApplyDb(cfg, s, step);
    System(db, SweepsAfter(s, step), WaitingAfter(s, step, db), WorkingAfter(s, step))
  }

  predicate ValidRun(cfg: Config, s: System, steps: seq<Step>)
    decreases |steps|
  {
    steps == [] || (Enabled(s, steps[0]) && ValidRun(cfg, Apply(cfg, s, steps[0]), steps[1..]))
  }

  function Run(cfg: Config, s: System, steps: seq<Step>): System
    requires ValidRun(cfg, s, steps)
    decreases |steps|
  {
    if steps == [] then s else Run(cfg, Apply(cfg, s, steps[0]), steps[1..])
  }

  const INITIAL := AtRest(EMPTY_DB)

  lemma RunCons(cfg: Config, s: System, s': System, step: Step, rest: seq<Step>)
    requires Enabled(s, step) && s' == Apply(cfg, s, step) && ValidRun(cfg, s', rest)
    ensures ValidRun(cfg, s, [step] + rest) && Run(cfg, s, [step] + rest) == Run(cfg, s', rest)
  {
    assert ([step] + rest)[0] == step && ([step] + rest)[1..] == rest;
  }

  lemma {:induction false} RunConcat(cfg: Config, s: System, steps: seq<Step>, more: seq<Step>)
    requires ValidRun(cfg, s, steps) && ValidRun(cfg, Run(cfg, s, steps), more)
    ensures ValidRun(cfg, s, steps + more) && Run(cfg, s, steps + more) == Run(cfg, Run(cfg, s, steps), more)
    decreases |steps|
  {
    hide Apply, Enabled;
    if steps == [] {
      assert steps + more == more;
    } else {
      var s' := Apply(cfg, s, steps[0]);
      RunConcat(cfg, s', steps[1..], more);
      RunCons(cfg, s, s', steps[0], steps[1..] + more);
      assert steps + more == [steps[0]] + (steps[1..] + more);
    }
  }

  lemma RunOne(cfg: Config, s: System, step: Step)
    requires Enabled(s, step)
    ensures ValidRun(cfg, s, [step]) && Run(cfg, s, [step]) == Apply(cfg, s, step)
  {
    RunCons(cfg, s, Apply(cfg, s, step), step, []);
    assert [step] + [] == [step];
  }

  lemma RunThen(cfg: Config, s: System, steps: seq<Step>, step: Step)
    requires ValidRun(cfg, s, steps) && Enabled(Run(cfg, s, steps), step)
    ensures ValidRun(cfg, s, steps + [step]) && Run(cfg, s, steps + [step]) == Apply(cfg, Run(cfg, s, steps), step)
  {
    RunOne(cfg, Run(cfg, s, steps), step);
    RunConcat(cfg, s, steps, [step]);
  }

  // ---- A small reachable state ----

  /** One account, one job, one pending candidate with a resume, queued and paid for. */
  function OneCandidate(cfg: Config): System
    requires cfg.signupCredits >= 1
  {
    System(Db(map[0 := 0], {}, map[0 := cfg.signupCredits - 1], [Grant(0, cfg.signupCredits)],
              [0], map[0 := Candidate(0, true, Pending, 0, 0)], [], [Entry(0, Ingested(0))]),
           map[], multiset{0}, multiset{})
  }

  lemma IngestOne(db: Db)
    requires db.owner == map[0 := 0] && db.parsing == {} && 0 in db.credits && db.credits[0] >= 1
    requires db.order == [] && db.candidates == map[] && db.evals == [] && db.queue == []
    ensures Ingest(db, 0, 0, [0], {0}, {0}, 0).db
         == db.(credits := db.credits[0 := db.credits[0] - 1], order := [0],
                candidates := map[0 := Candidate(0, true, Pending, 0, 0)], queue := [Entry(0, Ingested(0))])
  {
    FilterOne(0, TakenBy({0}));
    FilterOne(0, NotTakenBy({0}));
  }

  function OneJob(cfg: Config): System {
    AtRest(EMPTY_DB.(owner := map[0 := 0], credits := map[0 := cfg.signupCredits],
                     grants := [Grant(0, cfg.signupCredits)]))
  }

  lemma OneJobIsReachable(cfg: Config, s: System) returns (steps: seq<Step>)
    requires s == INITIAL
    ensures ValidRun(cfg, s, steps) && Run(cfg, s, steps) == OneJob(cfg)
    ensures forall i | 0 <= i < |steps| :: !steps[i].SweepBegins?
  {
    var signup, create := Signup(0), CreateJob(0, 0, false);
    RunOne(cfg, s, signup);
    RunThen(cfg, s, [signup], create);
    steps := [signup] + [create];
    assert Apply(cfg, Apply(cfg, s, signup), create) == OneJob(cfg);
  }

  lemma OneJobTakesOneCandidate(cfg: Config, s: System)
    requires cfg.signupCredits >= 1 && s == OneJob(cfg)
    ensures
      var ingest := IngestSheet(0, 0, [0], {0}, {0}, 0);
      Enabled(s, ingest) && Apply(cfg, s, ingest) == OneCandidate(cfg)
  {
    hide Apply, ApplyDb, Ingest, Enqueued, Enabled;
    var db := Ingest(s.db, 0, 0, [0], {0}, {0}, 0).db;
    IngestOne(s.db);
    OneWaits(s.db, db);
    IngestStep(cfg, s, 0, 0, [0], {0}, {0}, 0);
  }

  lemma IngestStep(
      cfg: Config, s: System, user: Id, job: Id, ids: seq<Id>, withUrl: set<Id>, accepts: set<Id>, now: int)
    requires Distinct(ids) && forall c | c in ids :: c !in s.db.candidates
    ensures
      var step := IngestSheet(user, job, ids, withUrl, accepts, now);
      var db := Ingest(s.db, user, job, ids, withUrl, accepts, now).db;
      Enabled(s, step) && Apply(cfg, s, step) == s.(db := db, waiting := s.waiting + Enqueued(s.db, db))
  {
  }

  lemma OneWaits(before: Db, after: Db)
    requires before.queue == [] && after.queue == [Entry(0, Ingested(0))]
    ensures Enqueued(before, after) == multiset{0}
  {
    assert after.queue[|before.queue|..] == after.queue;
    assert IdsOf(after.queue) == [0];
  }

  lemma OneCandidateIsReachable(cfg: Config, s: System) returns (steps: seq<Step>)
    requires cfg.signupCredits >= 1 && s == INITIAL
    ensures ValidRun(cfg, s, steps) && Run(cfg, s, steps) == OneCandidate(cfg)
    ensures forall i | 0 <= i < |steps| :: !steps[i].SweepBegins?
  {
    hide Apply, Enabled, OneCandidate;
    var setup := OneJobIsReachable(cfg, s);
    var ingest := IngestSheet(0, 0, [0], {0}, {0}, 0);
    OneJobTakesOneCandidate(cfg, Run(cfg, s, setup));
    RunThen(cfg, s, setup, ingest);
    steps := setup + [ingest];
  }

  // ---- Jobs are conserved ----

  /** The step ends a job: its worker is done with it, or dies and the queue does not hand it out again. */
  function Ends(step: Step): multiset<Id> {
    match step
    case WorkerFinishes(c, _, _) => multiset{c}
    case WorkerFails(c, _) => multiset{c}
    case WorkerDies(c, requeued) => if requeued then multiset{} else multiset{c}
    case _ => multiset{}
  }

  function Ended(steps: seq<Step>): multiset<Id> {
    if steps == [] then multiset{} else Ends(steps[0]) + Ended(steps[1..])
  }

  lemma EnqueuedIsNew(before: Db, after: Db)
    requires before.queue <= after.queue
    ensures CandidatesOf(after.queue) == CandidatesOf(before.queue) + Enqueued(before, after)
  {
    var added := after.queue[|before.queue|..];
    assert IdsOf(after.queue) == IdsOf(before.queue) + IdsOf(added);
  }

  lemma QueueGrows(cfg: Config, s: System, step: Step)
    requires Enabled(s, step)
    ensures s.db.queue <= ApplyDb(cfg, s, step).queue
    ensures step.WorkerStarts? || step.WorkerDies? ==> ApplyDb(cfg, s, step).queue == s.db.queue
  {
  }

  /** The jobs there are for a candidate, on the queue or at workers. */
  function Jobs(s: System, c: Id): nat {
    s.waiting[c] + s.working[c]
  }

  /** A job a step takes from the queue or from a worker goes to the other one or has ended; new ones wait. */
  lemma StepMovesJobs(s: System, step: Step, db: Db, c: Id)
    requires Enabled(s, step)
    ensures
      var more := if step.WorkerStarts? || step.WorkerDies? then 0 else Enqueued(s.db, db)[c];
      WaitingAfter(s, step, db)[c] + WorkingAfter(s, step)[c] + Ends(step)[c] == Jobs(s, c) + more
  {
    hide Enqueued, HasRound;
    assert (s.waiting + Enqueued(s.db, db))[c] == s.waiting[c] + Enqueued(s.db, db)[c];
  }

  lemma StepConservesJobs(cfg: Config, s: System, step: Step, c: Id)
    requires Enabled(s, step)
    ensures
      var after := Apply(cfg, s, step);
      Jobs(after, c) + Ends(step)[c] + CandidatesOf(s.db.queue)[c] == Jobs(s, c) + CandidatesOf(after.db.queue)[c]
  {
    var db := ApplyDb(cfg, s, step);
    QueueGrows(cfg, s, step);
    EnqueuedIsNew(s.db, db);
    hide ApplyDb, Enabled, CandidatesOf, Enqueued, Ends, WaitingAfter, WorkingAfter;
    StepMovesJobs(s, step, db, c);
    assert (CandidatesOf(s.db.queue) + Enqueued(s.db, db))[c]
        == CandidatesOf(s.db.queue)[c] + Enqueued(s.db, db)[c];
  }

  lemma {:induction false} RunConservesJobs(cfg: Config, s: System, steps: seq<Step>, c: Id)
    requires ValidRun(cfg, s, steps)
    ensures
      var after := Run(cfg, s, steps);
      Jobs(after, c) + Ended(steps)[c] + CandidatesOf(s.db.queue)[c] == Jobs(s, c) + CandidatesOf(after.db.queue)[c]
    decreases |steps|
  {
    hide Apply, Enabled, Ends, CandidatesOf;
    if steps != [] {
      var mid := Apply(cfg, s, steps[0]);
      StepConservesJobs(cfg, s, steps[0], c);
      RunConservesJobs(cfg, mid, steps[1..], c);
      assert (Ends(steps[0]) + Ended(steps[1..]))[c] == Ends(steps[0])[c] + Ended(steps[1..])[c];
    }
  }

  /** In every run each job ever put on the queue for a candidate is waiting there, at a worker, or ended. */
  lemma JobsAreConserved(cfg: Config, steps: seq<Step>, c: Id)
    requires ValidRun(cfg, INITIAL, steps)
    ensures
      var after := Run(cfg, INITIAL, steps);
      CandidatesOf(after.db.queue)[c] == after.waiting[c] + after.working[c] + Ended(steps)[c]
  {
    RunConservesJobs(cfg, INITIAL, steps, c);
    assert IdsOf(EMPTY_DB.queue) == [];
  }
}
