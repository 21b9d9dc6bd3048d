/**
  The stale-candidate watchdog (`sweep_stale_candidates`): how often it can requeue a candidate, with
  sweeps one after the other and with sweeps that overlap, and that it gives up on a candidate whose
  workers always die.
 */
module Watchdog {
  import opened Basics
  import opened Lifecycle

  /** How often the watchdog has put a candidate back on the queue. */
  function Requeues(queue: seq<Entry>, c: Id): nat {
    if queue == [] then 0
    else Requeues(queue[..|queue| - 1], c) + if queue[|queue| - 1] == Entry(c, Swept) then 1 else 0
  }

  lemma {:induction false} PaidEntriesAreNoRequeues(queue: seq<Entry>, ids: seq<Id>, cause: Cause, c: Id)
    requires cause != Swept
    ensures Requeues(queue + Entries(ids, cause), c) == Requeues(queue, c)
  {
    if ids == [] {
      assert queue + Entries(ids, cause) == queue;
    } else {
      var init := ids[..|ids| - 1];
      PaidEntriesAreNoRequeues(queue, init, cause, c);
      var all := queue + Entries(ids, cause);
      assert all[..|all| - 1] == queue + Entries(init, cause);
      assert all[|all| - 1] == Entry(ids[|ids| - 1], cause);
    }
  }

  lemma RequeueCounts(queue: seq<Entry>, d: Id, c: Id)
    ensures Requeues(queue + Entries([d], Swept), c) == Requeues(queue, c) + if d == c then 1 else 0
  {
    assert (queue + Entries([d], Swept))[..|queue|] == queue;
  }

  lemma NoEntries(queue: seq<Entry>, cause: Cause)
    ensures queue + Entries([], cause) == queue
  {
  }

  // ---- One step ----

  function Retries(s: System, c: Id): nat {
    if c in s.db.candidates then s.db.candidates[c].staleRetries else 0
  }

  /** A step visits a candidate when a sweep treats it. */
  predicate VisitedBy(s: System, step: Step, c: Id) {
    step.SweepContinues? && HasRound(s, step.sweep) && s.sweeps[step.sweep][0].candidate == c
  }

  /** The counter the visiting sweep has read. */
  function CounterRead(s: System, step: Step, c: Id): nat
    requires VisitedBy(s, step, c)
  {
    s.sweeps[step.sweep][0].retries
  }

  /** The visit tries the candidate again, as it has retries left by what the sweep has read. */
  predicate Tried(cfg: Config, s: System, step: Step, c: Id) {
    VisitedBy(s, step, c) && CounterRead(s, step, c) < cfg.maxStaleRetries
  }

  /** A sweep puts the candidate on the queue again and dies before the commit that would count it. */
  predicate Uncounted(cfg: Config, s: System, step: Step, c: Id) {
    && step.SweepDies? && HasRound(s, step.sweep)
    && s.sweeps[step.sweep][0].candidate == c && s.sweeps[step.sweep][0].retries < cfg.maxStaleRetries
  }

  /** By how much the counter the sweep writes back ignores what was counted since it read it. */
  function Overwritten(cfg: Config, s: System, step: Step, c: Id): int {
    if Tried(cfg, s, step, c) then Retries(s, c) - CounterRead(s, step, c) else 0
  }

  /** No counter changes and no candidate disappears. */
  predicate Elsewhere(db: Db, db': Db) {
    && db'.order == db.order && db'.candidates.Keys == db.candidates.Keys
    && (forall c | c in db.candidates :: db'.candidates[c].staleRetries == db.candidates[c].staleRetries)
  }

  lemma RetryElsewhere(db: Db, user: Id, job: Id, c: Id, accepted: bool, now: int)
    ensures Elsewhere(db, Retry(db, user, job, c, accepted, now).db)
  {
  }

  lemma RetryFailedElsewhere(db: Db, user: Id, job: Id, accepts: set<Id>, now: int)
    ensures Elsewhere(db, RetryFailed(db, user, job, accepts, now).db)
  {
  }

  lemma UploadElsewhere(db: Db, user: Id, job: Id, c: Id, accepted: bool, now: int)
    ensures Elsewhere(db, Upload(db, user, job, c, accepted, now).db)
  {
  }

  /** Only an ingest adds candidates and only the sweep moves counters. */
  lemma QuietStep(cfg: Config, s: System, step: Step)
    requires Enabled(s, step) && !step.IngestSheet? && !step.SweepContinues?
    ensures Elsewhere(s.db, ApplyDb(cfg, s, step))
  {
    match step
    case RetryOne(u, j, c, accepted, now) => RetryElsewhere(s.db, u, j, c, accepted, now);
    case RetryAll(u, j, accepts, now) => RetryFailedElsewhere(s.db, u, j, accepts, now);
    case UploadResume(u, j, c, accepted, now) => UploadElsewhere(s.db, u, j, c, accepted, now);
    case _ =>
  }

  /** One round changes one candidate only, and writes back the counter it has read plus one. */
  /** One round, whatever has become of the candidate since it was read. */
  lemma SweepOneEffect(cfg: Config, db: Db, row: Stuck, accepted: bool, now: int)
    requires row.candidate in db.candidates
    ensures
      var c, db' := row.candidate, SweepOne(cfg, db, row, accepted, now);
      var again := row.retries < cfg.maxStaleRetries;
      && db'.order == db.order && db'.candidates.Keys == db.candidates.Keys
      && (forall d | d in db.candidates && d != c :: db'.candidates[d] == db.candidates[d])
      && db'.candidates[c].staleRetries == (if again then row.retries + 1 else db.candidates[c].staleRetries)
      && db'.candidates[c].updatedAt == now
      && db'.candidates[c].job == db.candidates[c].job && db'.candidates[c].hasResume == db.candidates[c].hasResume
      && (again && accepted && row.status == Pending ==> db'.candidates[c].status == db.candidates[c].status)
      && (again && accepted && row.status != Pending ==> db'.candidates[c].status == Pending)
      && (again && accepted ==> db'.queue == db.queue + Entries([c], Swept))
      && (!(again && accepted) ==> db'.queue == db.queue && db'.candidates[c].status == Failed)
      && db'.evals == db.evals + (if again && accepted then [] else Failures([c], "watchdog_timeout"))
  {
  }

  lemma IngestAccounts(db: Db, user: Id, job: Id, ids: seq<Id>, withUrl: set<Id>, accepts: set<Id>, now: int, c: Id)
    requires forall d | d in ids :: d !in db.candidates
    ensures
      var db' := Ingest(db, user, job, ids, withUrl, accepts, now).db;
      && (c in db.candidates ==> c in db'.candidates && db'.candidates[c].staleRetries == db.candidates[c].staleRetries)
      && (c !in db.candidates && c in db'.candidates ==> db'.candidates[c].staleRetries == 0)
      && Requeues(db'.queue, c) == Requeues(db.queue, c)
  {
    PaidEntriesAreNoRequeues(db.queue, Accepted(ids, accepts), Ingested(user), c);
  }

  /** What the other steps put on the queue, and why. */
  lemma QueuedByRequest(cfg: Config, s: System, step: Step) returns (ids: seq<Id>, cause: Cause)
    requires Enabled(s, step) && !step.IngestSheet? && !step.SweepContinues? && !step.SweepDies?
    ensures cause != Swept && ApplyDb(cfg, s, step).queue == s.db.queue + Entries(ids, cause)
  {
    ids, cause := [], Retried;
    NoEntries(s.db.queue, Retried);
    match step
    case RetryOne(u, j, c, accepted, now) =>
      if Retry(s.db, u, j, c, accepted, now).response.Ok? {
        ids := [c];
      }
    case RetryAll(u, j, accepts, now) =>
      if Owns(s.db, u, j) {
        ids := Accepted(Retryable(s.db, j), accepts);
      }
    case UploadResume(u, j, c, accepted, now) =>
      if Upload(s.db, u, j, c, accepted, now).response.Ok? {
        ids, cause := [c], Uploaded(u);
      }
    case _ =>
  }

  lemma QuietAccounts(cfg: Config, s: System, step: Step, c: Id)
    requires Enabled(s, step) && !step.IngestSheet? && !step.SweepContinues? && !step.SweepDies?
    ensures Requeues(ApplyDb(cfg, s, step).queue, c) == Requeues(s.db.queue, c)
    ensures Elsewhere(s.db, ApplyDb(cfg, s, step))
  {
    QuietStep(cfg, s, step);
    var ids, cause := QueuedByRequest(cfg, s, step);
    PaidEntriesAreNoRequeues(s.db.queue, ids, cause, c);
  }

  lemma RoundAccounts(cfg: Config, db: Db, row: Stuck, accepted: bool, now: int, c: Id)
    requires row.candidate in db.candidates
    ensures
      var db' := SweepOne(cfg, db, row, accepted, now);
      var tried := row.candidate == c && row.retries < cfg.maxStaleRetries;
      && db'.order == db.order && db'.candidates.Keys == db.candidates.Keys
      && (c in db.candidates ==>
            db'.candidates[c].staleRetries == if tried then row.retries + 1 else db.candidates[c].staleRetries)
      && Requeues(db'.queue, c) == Requeues(db.queue, c) + (if tried && accepted then 1 else 0)
      && (row.candidate == c && !(tried && accepted) ==> db'.candidates[c].status == Failed)
  {
    SweepOneEffect(cfg, db, row, accepted, now);
    RequeueCounts(db.queue, row.candidate, c);
  }

  lemma HalfRoundAccounts(cfg: Config, db: Db, row: Stuck, c: Id)
    ensures
      var db' := HalfRound(cfg, db, row);
      && db'.candidates == db.candidates
      && Requeues(db'.queue, c)
         == Requeues(db.queue, c) + (if row.candidate == c && row.retries < cfg.maxStaleRetries then 1 else 0)
  {
    RequeueCounts(db.queue, row.candidate, c);
  }

  /**
    Only a visit moves a candidate's counter: it writes the one it has read plus one, unless it fails
    the candidate. A requeue is a try the queue takes, or one by a sweep that dies before it counts it.
   */
  lemma CounterMoves(cfg: Config, s: System, step: Step, c: Id)
    requires Enabled(s, step)
    ensures
      var s', tried := Apply(cfg, s, step), Tried(cfg, s, step, c);
      && (c in s.db.candidates ==> c in s'.db.candidates)
      && Retries(s', c) == (if tried then CounterRead(s, step, c) + 1 else Retries(s, c))
      && Requeues(s'.db.queue, c)
         == Requeues(s.db.queue, c) + (if (tried && step.accepted) || Uncounted(cfg, s, step, c) then 1 else 0)
      && (VisitedBy(s, step, c) && !(tried && step.accepted) ==> s'.db.candidates[c].status == Failed)
  {
    hide WaitingAfter, WorkingAfter, SweepsAfter;
    match step
    case SweepContinues(w, accepted, now) => RoundAccounts(cfg, s.db, s.sweeps[w][0], accepted, now, c);
    case SweepDies(w) => HalfRoundAccounts(cfg, s.db, s.sweeps[w][0], c);
    case IngestSheet(u, j, ids, withUrl, accepts, now) => IngestAccounts(s.db, u, j, ids, withUrl, accepts, now, c);
    case _ => QuietAccounts(cfg, s, step, c);
  }

  // ---- Whole runs: the counter accounts for every requeue ----

  /** How often a sweep tries the candidate again. */
  function Tries(cfg: Config, s: System, steps: seq<Step>, c: Id): nat
    requires ValidRun(cfg, s, steps)
    decreases |steps|
  {
    if steps == [] then 0
    else (if Tried(cfg, s, steps[0], c) then 1 else 0) + Tries(cfg, Apply(cfg, s, steps[0]), steps[1..], c)
  }

  /** How many counts get lost to sweeps that write back a counter that is no longer current. */
  function Lost(cfg: Config, s: System, steps: seq<Step>, c: Id): int
    requires ValidRun(cfg, s, steps)
    decreases |steps|
  {
    if steps == [] then 0
    else Overwritten(cfg, s, steps[0], c) + Lost(cfg, Apply(cfg, s, steps[0]), steps[1..], c)
  }

  /** How many of the tries the queue refuses. */
  function RefusedTries(cfg: Config, s: System, steps: seq<Step>, c: Id): nat
    requires ValidRun(cfg, s, steps)
    decreases |steps|
  {
    if steps == [] then 0
    else
      (if Tried(cfg, s, steps[0], c) && !steps[0].accepted then 1 else 0)
      + RefusedTries(cfg, Apply(cfg, s, steps[0]), steps[1..], c)
  }

  /** How often a sweep dies after it has put the candidate on the queue and before it has counted that. */
  function UncountedRequeues(cfg: Config, s: System, steps: seq<Step>, c: Id): nat
    requires ValidRun(cfg, s, steps)
    decreases |steps|
  {
    if steps == [] then 0
    else
      (if Uncounted(cfg, s, steps[0], c) then 1 else 0) + UncountedRequeues(cfg, Apply(cfg, s, steps[0]), steps[1..], c)
  }

  /**
    In any run the counter has gained the tries less the counts lost, and the requeues are the tries
    less the refused ones, and those of sweeps that died before they counted them.
   */
  lemma {:induction false} RunAccounts(cfg: Config, s: System, steps: seq<Step>, c: Id)
    requires ValidRun(cfg, s, steps)
    ensures
      var after := Run(cfg, s, steps);
      && Retries(after, c) + Lost(cfg, s, steps, c) == Retries(s, c) + Tries(cfg, s, steps, c)
      && Requeues(after.db.queue, c) + RefusedTries(cfg, s, steps, c)
         == Requeues(s.db.queue, c) + Tries(cfg, s, steps, c) + UncountedRequeues(cfg, s, steps, c)
      && (Retries(s, c) <= cfg.maxStaleRetries ==> Retries(after, c) <= cfg.maxStaleRetries)
    decreases |steps|
  {
    if steps != [] {
      CounterMoves(cfg, s, steps[0], c);
      RunAccounts(cfg, Apply(cfg, s, steps[0]), steps[1..], c);
    }
  }

  /** In every run, however sweeps overlap or die: counter, counts lost and uncounted requeues cover the requeues. */
  lemma RequeuesAreAccountedFor(cfg: Config, steps: seq<Step>, c: Id)
    requires ValidRun(cfg, INITIAL, steps)
    ensures
      var after := Run(cfg, INITIAL, steps);
      && Requeues(after.db.queue, c)
         <= Retries(after, c) + Lost(cfg, INITIAL, steps, c) + UncountedRequeues(cfg, INITIAL, steps, c)
      && Retries(after, c) <= cfg.maxStaleRetries
  {
    RunAccounts(cfg, INITIAL, steps, c);
  }

  /**
    The counter covers the requeues of a whole run exactly when no more were lost or not counted than the
    queue refused.
   */
  lemma CounterCoversRequeuesIff(cfg: Config, steps: seq<Step>, c: Id)
    requires ValidRun(cfg, INITIAL, steps)
    ensures
      var after := Run(cfg, INITIAL, steps);
      Requeues(after.db.queue, c) <= Retries(after, c) <==>
        Lost(cfg, INITIAL, steps, c) + UncountedRequeues(cfg, INITIAL, steps, c) <= RefusedTries(cfg, INITIAL, steps, c)
  {
    RunAccounts(cfg, INITIAL, steps, c);
  }

  /** Every visit to the candidate reads the counter it still has. */
  predicate ReadsAreCurrent(cfg: Config, s: System, steps: seq<Step>, c: Id)
    requires ValidRun(cfg, s, steps)
    decreases |steps|
  {
    steps == []
    || (&& (VisitedBy(s, steps[0], c) ==> CounterRead(s, steps[0], c) == Retries(s, c))
        && ReadsAreCurrent(cfg, Apply(cfg, s, steps[0]), steps[1..], c))
  }

  lemma {:induction false} CurrentReadsLoseNothing(cfg: Config, s: System, steps: seq<Step>, c: Id)
    requires ValidRun(cfg, s, steps) && ReadsAreCurrent(cfg, s, steps, c)
    ensures Lost(cfg, s, steps, c) == 0
    decreases |steps|
  {
    if steps != [] {
      CurrentReadsLoseNothing(cfg, Apply(cfg, s, steps[0]), steps[1..], c);
    }
  }

  /** With current reads the counter never falls: it counts the tries. */
  lemma CounterNeverFalls(cfg: Config, s: System, steps: seq<Step>, c: Id)
    requires ValidRun(cfg, s, steps) && ReadsAreCurrent(cfg, s, steps, c)
    ensures Retries(Run(cfg, s, steps), c) == Retries(s, c) + Tries(cfg, s, steps, c)
  {
    RunAccounts(cfg, s, steps, c);
    CurrentReadsLoseNothing(cfg, s, steps, c);
  }

  /** A step lowers a counter exactly when a sweep writes back one that lags by more than the one it adds. */
  lemma CounterFallsIff(cfg: Config, s: System, step: Step, c: Id)
    requires Enabled(s, step)
    ensures Retries(Apply(cfg, s, step), c) < Retries(s, c)
       <==> Tried(cfg, s, step, c) && CounterRead(s, step, c) + 1 < Retries(s, c)
  {
    CounterMoves(cfg, s, step, c);
  }

  // ---- Sweeps one after the other ----

  ghost predicate Listed(db: Db) {
    Distinct(db.order) && forall c :: c in db.order <==> c in db.candidates
  }

  /** Each row is a candidate's, once, with the counter the candidate still has. */
  predicate RowsInStep(db: Db, rows: seq<Stuck>) {
    forall i | 0 <= i < |rows| ::
      && rows[i].candidate in db.candidates
      && rows[i].retries == db.candidates[rows[i].candidate].staleRetries
      && forall j | 0 <= j < i :: rows[j].candidate != rows[i].candidate
  }

  predicate OneSweep(sweeps: map<Id, seq<Stuck>>) {
    forall v, w | v in sweeps && w in sweeps :: v == w
  }

  ghost predicate InOrder(db: Db, sweeps: map<Id, seq<Stuck>>) {
    Listed(db) && OneSweep(sweeps) && forall w | w in sweeps :: RowsInStep(db, sweeps[w])
  }

  ghost predicate Orderly(s: System) {
    InOrder(s.db, s.sweeps)
  }

  /** No sweep begins while another one is running. */
  predicate SerialRun(cfg: Config, s: System, steps: seq<Step>)
    decreases |steps|
  {
    steps == []
    || (&& Enabled(s, steps[0]) && (steps[0].SweepBegins? ==> s.sweeps == map[])
        && SerialRun(cfg, Apply(cfg, s, steps[0]), steps[1..]))
  }

  lemma {:induction false} SerialRunIsValid(cfg: Config, s: System, steps: seq<Step>)
    requires SerialRun(cfg, s, steps)
    ensures ValidRun(cfg, s, steps)
    decreases |steps|
  {
    if steps != [] {
      SerialRunIsValid(cfg, Apply(cfg, s, steps[0]), steps[1..]);
    }
  }

  lemma {:induction false} SerialConcat(cfg: Config, s: System, steps: seq<Step>, more: seq<Step>)
    requires ValidRun(cfg, s, steps) && SerialRun(cfg, Run(cfg, s, steps), more)
    requires forall i | 0 <= i < |steps| :: !steps[i].SweepBegins?
    ensures SerialRun(cfg, s, steps + more)
    decreases |steps|
  {
    hide Apply, Enabled;
    if steps == [] {
      assert steps + more == more;
    } else {
      SerialConcat(cfg, Apply(cfg, s, steps[0]), steps[1..], more);
      assert (steps + more)[0] == steps[0] && (steps + more)[1..] == steps[1..] + more;
    }
  }

  lemma IngestKeepsList(db: Db, user: Id, job: Id, ids: seq<Id>, withUrl: set<Id>, accepts: set<Id>, now: int)
    requires Listed(db) && Distinct(ids) && forall c | c in ids :: c !in db.candidates
    ensures
      var db' := Ingest(db, user, job, ids, withUrl, accepts, now).db;
      && Listed(db') && db.candidates.Keys <= db'.candidates.Keys
      && forall c | c in db.candidates :: db'.candidates[c].staleRetries == db.candidates[c].staleRetries
  {
    var db' := Ingest(db, user, job, ids, withUrl, accepts, now).db;
    if db' != db {
      assert db'.candidates.Keys == db.candidates.Keys + set c | c in ids;
      ConcatDistinct(db.order, ids);
    }
  }

  lemma ConcatDistinct(xs: seq<Id>, ys: seq<Id>)
    requires Distinct(xs) && Distinct(ys) && forall y | y in ys :: y !in xs
    ensures Distinct(xs + ys)
  {
    forall i, j | 0 <= i < j < |xs + ys| ensures (xs + ys)[i] != (xs + ys)[j] {
      if i < |xs| <= j {
        assert ys[j - |xs|] in ys;
      }
    }
  }

  lemma StepKeepsList(cfg: Config, s: System, step: Step)
    requires Listed(s.db) && Enabled(s, step)
    ensures Listed(ApplyDb(cfg, s, step))
  {
    match step
    case IngestSheet(u, j, ids, withUrl, accepts, now) => IngestKeepsList(s.db, u, j, ids, withUrl, accepts, now);
    case SweepContinues(w, accepted, now) => SweepOneEffect(cfg, s.db, s.sweeps[w][0], accepted, now);
    case _ => QuietStep(cfg, s, step);
  }

  lemma {:induction false} RunKeepsList(cfg: Config, s: System, steps: seq<Step>)
    requires Listed(s.db) && ValidRun(cfg, s, steps)
    ensures Listed(Run(cfg, s, steps).db)
    decreases |steps|
  {
    if steps != [] {
      StepKeepsList(cfg, s, steps[0]);
      RunKeepsList(cfg, Apply(cfg, s, steps[0]), steps[1..]);
    }
  }

  /** In every reachable state a table scan meets every candidate, and each once. */
  lemma ScansAreComplete(cfg: Config, steps: seq<Step>)
    requires ValidRun(cfg, INITIAL, steps)
    ensures Listed(Run(cfg, INITIAL, steps).db)
  {
    RunKeepsList(cfg, INITIAL, steps);
  }

  lemma RestInStep(db: Db, db': Db, rows: seq<Stuck>)
    requires RowsInStep(db, rows) && rows != [] && db'.candidates.Keys == db.candidates.Keys
    requires forall d | d in db.candidates && d != rows[0].candidate :: db'.candidates[d] == db.candidates[d]
    ensures RowsInStep(db', rows[1..])
  {
    var rest := rows[1..];
    forall i | 0 <= i < |rest|
      ensures rest[i].candidate in db'.candidates && rest[i].retries == db'.candidates[rest[i].candidate].staleRetries
      ensures forall j | 0 <= j < i :: rest[j].candidate != rest[i].candidate
    {
      assert rest[i] == rows[i + 1];
      assert rows[0].candidate != rows[i + 1].candidate;
      forall j | 0 <= j < i ensures rest[j].candidate != rest[i].candidate {
        assert rest[j] == rows[j + 1];
      }
    }
  }

  lemma RowsStayInStep(db: Db, db': Db, rows: seq<Stuck>)
    requires RowsInStep(db, rows) && db.candidates.Keys <= db'.candidates.Keys
    requires forall c | c in db.candidates :: db'.candidates[c].staleRetries == db.candidates[c].staleRetries
    ensures RowsInStep(db', rows)
  {
  }

  lemma {:induction false} LoadFacts(candidates: map<Id, Candidate>, ids: seq<Id>)
    requires Distinct(ids) && forall c | c in ids :: c in candidates
    ensures |Load(candidates, ids)| == |ids|
    ensures forall i | 0 <= i < |ids| :: ids[i] in candidates && Load(candidates, ids)[i] == Row(candidates, ids[i])
  {
    if ids != [] {
      assert ids[0] in ids;
      LoadFacts(candidates, ids[1..]);
    }
  }

  lemma FreshRowsInStep(db: Db, cutoff: int)
    requires Listed(db)
    ensures RowsInStep(db, Load(db.candidates, StaleIds(db, cutoff)))
  {
    FilterDistinct(db.order, StaleAt(db.candidates, cutoff));
    FilterMembers(db.order, StaleAt(db.candidates, cutoff));
    LoadFacts(db.candidates, StaleIds(db, cutoff));
  }

  lemma OthersStayInStep(db: Db, sweeps: map<Id, seq<Stuck>>, db': Db, sweeps': map<Id, seq<Stuck>>)
    requires InOrder(db, sweeps) && Listed(db') && db.candidates.Keys <= db'.candidates.Keys
    requires forall c | c in db.candidates :: db'.candidates[c].staleRetries == db.candidates[c].staleRetries
    requires forall w | w in sweeps' :: w in sweeps && sweeps'[w] == sweeps[w]
    ensures InOrder(db', sweeps')
  {
    forall w | w in sweeps' ensures RowsInStep(db', sweeps'[w]) {
      RowsStayInStep(db, db', sweeps[w]);
    }
  }

  lemma QuietKeepsOrder(cfg: Config, s: System, step: Step)
    requires Orderly(s) && Enabled(s, step) && !step.IngestSheet? && !step.SweepContinues? && !step.SweepBegins?
    ensures InOrder(ApplyDb(cfg, s, step), SweepsAfter(s, step))
  {
    hide ApplyDb;
    QuietStep(cfg, s, step);
    OthersStayInStep(s.db, s.sweeps, ApplyDb(cfg, s, step), SweepsAfter(s, step));
  }

  lemma StepKeepsOrder(cfg: Config, s: System, step: Step)
    requires Orderly(s) && Enabled(s, step) && (step.SweepBegins? ==> s.sweeps == map[])
    ensures InOrder(ApplyDb(cfg, s, step), SweepsAfter(s, step))
  {
    match step
    case IngestSheet(u, j, ids, withUrl, accepts, now) =>
      IngestKeepsList(s.db, u, j, ids, withUrl, accepts, now);
      OthersStayInStep(s.db, s.sweeps, Ingest(s.db, u, j, ids, withUrl, accepts, now).db, s.sweeps);
    case SweepBegins(w, cutoff) => FreshRowsInStep(s.db, cutoff);
    case SweepContinues(w, accepted, now) =>
      SweepOneEffect(cfg, s.db, s.sweeps[w][0], accepted, now);
      RestInStep(s.db, SweepOne(cfg, s.db, s.sweeps[w][0], accepted, now), s.sweeps[w]);
    case _ => QuietKeepsOrder(cfg, s, step);
  }

  lemma {:induction false} SerialReadsAreCurrent(cfg: Config, s: System, steps: seq<Step>, c: Id)
    requires Orderly(s) && SerialRun(cfg, s, steps) && ValidRun(cfg, s, steps)
    ensures ReadsAreCurrent(cfg, s, steps, c)
    decreases |steps|
  {
    if steps != [] {
      StepKeepsOrder(cfg, s, steps[0]);
      SerialReadsAreCurrent(cfg, Apply(cfg, s, steps[0]), steps[1..], c);
      if VisitedBy(s, steps[0], c) {
        assert RowsInStep(s.db, s.sweeps[steps[0].sweep]);
      }
    }
  }

  /**
    With sweeps one after the other, each free to die anywhere: the counter stays within the limit,
    and it covers the requeues exactly when sweeps have died uncounted no more often than the queue
    has refused a try.
   */
  lemma SerialRequeues(cfg: Config, steps: seq<Step>, c: Id)
    requires SerialRun(cfg, INITIAL, steps)
    ensures ValidRun(cfg, INITIAL, steps)
    ensures
      var after, uncounted := Run(cfg, INITIAL, steps), UncountedRequeues(cfg, INITIAL, steps, c);
      && Retries(after, c) <= cfg.maxStaleRetries
      && Requeues(after.db.queue, c) <= Retries(after, c) + uncounted
      && (Requeues(after.db.queue, c) <= Retries(after, c) <==> uncounted <= RefusedTries(cfg, INITIAL, steps, c))
  {
    SerialRunIsValid(cfg, INITIAL, steps);
    SerialReadsAreCurrent(cfg, INITIAL, steps, c);
    CurrentReadsLoseNothing(cfg, INITIAL, steps, c);
    RunAccounts(cfg, INITIAL, steps, c);
  }

  lemma {:induction false} NoDeathsAllCounted(cfg: Config, s: System, steps: seq<Step>, c: Id)
    requires ValidRun(cfg, s, steps) && forall i | 0 <= i < |steps| :: !steps[i].SweepDies?
    ensures UncountedRequeues(cfg, s, steps, c) == 0
    decreases |steps|
  {
    if steps != [] {
      NoDeathsAllCounted(cfg, Apply(cfg, s, steps[0]), steps[1..], c);
    }
  }

  /**
    With sweeps one after the other that die between rounds only, a candidate is requeued by the
    watchdog at most the configured number of times in its whole life.
   */
  lemma RequeuesAreBounded(cfg: Config, steps: seq<Step>, c: Id)
    requires SerialRun(cfg, INITIAL, steps) && forall i | 0 <= i < |steps| :: !steps[i].SweepDies?
    ensures ValidRun(cfg, INITIAL, steps)
    ensures
      var after := Run(cfg, INITIAL, steps);
      Requeues(after.db.queue, c) <= Retries(after, c) <= cfg.maxStaleRetries
  {
    SerialRequeues(cfg, steps, c);
    NoDeathsAllCounted(cfg, INITIAL, steps, c);
  }

  // ---- Sweeps that die inside a round ----

  /** The next sweep finds what a sweep that died in its round found: nothing but the queue has changed. */
  lemma DeadRoundLeavesNoTrace(cfg: Config, s: System, w: Id, cutoff: int)
    requires HasRound(s, w)
    ensures
      var after := Apply(cfg, s, SweepDies(w));
      && after.db == s.db.(queue := after.db.queue) && after.sweeps == s.sweeps - {w}
      && StaleIds(after.db, cutoff) == StaleIds(s.db, cutoff)
  {
  }

  /** A sweep that begins, requeues its first row and dies; `n` of them, numbered from `k`. */
  lemma {:induction false} DyingSweeps(cfg: Config, s: System, k: nat, n: nat) returns (steps: seq<Step>)
    requires cfg.maxStaleRetries >= 1 && k <= n && s.sweeps == map[] && 0 in s.db.candidates
    requires Load(s.db.candidates, StaleIds(s.db, 1)) == [STUCK]
    ensures SerialRun(cfg, s, steps) && ValidRun(cfg, s, steps)
    ensures Requeues(Run(cfg, s, steps).db.queue, 0) == Requeues(s.db.queue, 0) + (n - k)
    decreases n - k
  {
    steps := [];
    if k < n {
      var begin, die := SweepBegins(k, 1), SweepDies(k);
      var s1 := Apply(cfg, s, begin);
      var s2 := Apply(cfg, s1, die);
      assert s1.sweeps[k] == [STUCK];
      HalfRoundAccounts(cfg, s1.db, STUCK, 0);
      DeadRoundLeavesNoTrace(cfg, s1, k, 1);
      assert s2.sweeps == map[];
      var rest := DyingSweeps(cfg, s2, k + 1, n);
      var tail := [die] + rest;
      assert tail[1..] == rest;
      steps := [begin] + tail;
      assert steps[1..] == tail;
    }
  }

  /**
    Whatever the limit, there are runs from the start in which sweeps that follow each other and die
    requeue more often.
   */
  lemma DeathsExceedTheLimit(cfg: Config) returns (steps: seq<Step>)
    requires cfg.signupCredits >= 1 && cfg.maxStaleRetries >= 1
    ensures SerialRun(cfg, INITIAL, steps) && ValidRun(cfg, INITIAL, steps)
    ensures Requeues(Run(cfg, INITIAL, steps).db.queue, 0) > cfg.maxStaleRetries
  {
    var setup := OneCandidateIsReachable(cfg, INITIAL);
    OneIsStuck(cfg);
    var deaths := DyingSweeps(cfg, OneCandidate(cfg), 0, cfg.maxStaleRetries + 1);
    RunConcat(cfg, INITIAL, setup, deaths);
    steps := setup + deaths;
    SerialConcat(cfg, INITIAL, setup, deaths);
  }

  // ---- Sweeps that overlap ----

  /** A requeue leaves the counter covering the requeues exactly when the counter that was read covered them before. */
  lemma RequeueKeepsBoundIff(cfg: Config, db: Db, row: Stuck, now: int)
    requires row.candidate in db.candidates && row.retries < cfg.maxStaleRetries
    ensures
      var c, db' := row.candidate, SweepOne(cfg, db, row, true, now);
      Requeues(db'.queue, c) <= db'.candidates[c].staleRetries <==> Requeues(db.queue, c) <= row.retries
  {
    RequeueCounts(db.queue, row.candidate, row.candidate);
  }

  /** Two sweeps that have read the same row requeue it twice and count it once. */
  lemma OverlappingSweepsRequeueTwice(cfg: Config, db: Db, row: Stuck, now: int)
    requires row.candidate in db.candidates && row.retries < cfg.maxStaleRetries
    ensures
      var c := row.candidate;
      var once := SweepOne(cfg, db, row, true, now);
      var twice := SweepOne(cfg, once, row, true, now);
      && Requeues(twice.queue, c) == Requeues(db.queue, c) + 2
      && twice.candidates[c].staleRetries == row.retries + 1
  {
    var once := SweepOne(cfg, db, row, true, now);
    RequeueCounts(db.queue, row.candidate, row.candidate);
    RequeueCounts(once.queue, row.candidate, row.candidate);
  }

  /** One round on an outdated counter can lose several counts, where others were added since the sweep has read it. */
  lemma OneRoundCanLoseSeveralCounts(cfg: Config, db: Db, row: Stuck, now: int)
    requires row.candidate in db.candidates && row.retries < cfg.maxStaleRetries
    requires row.retries + 1 < db.candidates[row.candidate].staleRetries == Requeues(db.queue, row.candidate)
    ensures
      var c, db' := row.candidate, SweepOne(cfg, db, row, true, now);
      Requeues(db'.queue, c) > db'.candidates[c].staleRetries + 1
  {
    RequeueCounts(db.queue, row.candidate, row.candidate);
  }

  const STUCK := Stuck(0, Pending, 0)

  function StuckRow(sweep: Id): seq<Stuck> {
    [STUCK]
  }

  /** `n` sweeps that have all read the one candidate, and treated none of it yet. */
  function OpenSweeps(cfg: Config, n: nat): System
    requires cfg.signupCredits >= 1
  {
    OneCandidate(cfg).(sweeps := map i | 0 <= i < n :: StuckRow(i))
  }

  lemma OneIsStuck(cfg: Config)
    requires cfg.signupCredits >= 1
    ensures var db := OneCandidate(cfg).db; Load(db.candidates, StaleIds(db, 1)) == [STUCK]
  {
    var db := OneCandidate(cfg).db;
    FilterOne(0, StaleAt(db.candidates, 1));
    assert StaleIds(db, 1) == [0];
  }

  lemma OpenOneMore(cfg: Config, n: nat)
    requires cfg.signupCredits >= 1
    ensures
      var s, step := OpenSweeps(cfg, n), SweepBegins(n, 1);
      Enabled(s, step) && Apply(cfg, s, step) == OpenSweeps(cfg, n + 1)
  {
    OneIsStuck(cfg);
    var s := OpenSweeps(cfg, n);
    assert s.sweeps[n := [STUCK]] == OpenSweeps(cfg, n + 1).sweeps;
  }

  lemma OpenNone(cfg: Config)
    requires cfg.signupCredits >= 1
    ensures OpenSweeps(cfg, 0) == OneCandidate(cfg)
  {
    assert OpenSweeps(cfg, 0).sweeps == map[];
  }

  lemma {:induction false} BeginSweeps(cfg: Config, s: System, n: nat) returns (steps: seq<Step>)
    requires cfg.signupCredits >= 1 && s == OneCandidate(cfg)
    ensures ValidRun(cfg, s, steps) && Run(cfg, s, steps) == OpenSweeps(cfg, n)
  {
    if n == 0 {
      steps := [];
      OpenNone(cfg);
    } else {
      var earlier := BeginSweeps(cfg, s, n - 1);
      OpenOneMore(cfg, n - 1);
      RunThen(cfg, s, earlier, SweepBegins(n - 1, 1));
      steps := earlier + [SweepBegins(n - 1, 1)];
    }
  }

  lemma {:induction false} ContinueSweeps(cfg: Config, s: System, k: nat, n: nat) returns (steps: seq<Step>)
    requires cfg.maxStaleRetries >= 1 && k <= n && 0 in s.db.candidates
    requires forall i | k <= i < n :: i in s.sweeps && s.sweeps[i] == [STUCK]
    ensures ValidRun(cfg, s, steps)
    ensures Requeues(Run(cfg, s, steps).db.queue, 0) == Requeues(s.db.queue, 0) + (n - k)
    decreases n - k
  {
    steps := [];
    if k < n {
      var step := SweepContinues(k, true, 1);
      var s' := Apply(cfg, s, step);
      CounterMoves(cfg, s, step, 0);
      var rest := ContinueSweeps(cfg, s', k + 1, n);
      steps := [step] + rest;
      assert steps[1..] == rest;
    }
  }

  /** Whatever the limit, there are runs from the start in which overlapping sweeps requeue a candidate more often. */
  lemma OverlapExceedsTheLimit(cfg: Config) returns (steps: seq<Step>)
    requires cfg.signupCredits >= 1 && cfg.maxStaleRetries >= 1
    ensures ValidRun(cfg, INITIAL, steps)
    ensures Requeues(Run(cfg, INITIAL, steps).db.queue, 0) > cfg.maxStaleRetries
  {
    var n := cfg.maxStaleRetries + 1;
    var ingest := OneCandidateIsReachable(cfg, INITIAL);
    var begins := BeginSweeps(cfg, OneCandidate(cfg), n);
    var rounds := ContinueSweeps(cfg, OpenSweeps(cfg, n), 0, n);
    RunConcat(cfg, OneCandidate(cfg), begins, rounds);
    RunConcat(cfg, INITIAL, ingest, begins + rounds);
    steps := ingest + (begins + rounds);
  }

  // ---- What open sweeps may still do ----

  /** The rows open sweeps have left, by sweep and distance from the end. */
  function OpenRows(s: System): set<(Id, nat)> {
    set w, k | w in s.sweeps && 1 <= k <= |s.sweeps[w]| :: (w, k)
  }

  predicate MayRequeue(cfg: Config, s: System, w: Id, k: nat, c: Id)
    requires w in s.sweeps && 1 <= k <= |s.sweeps[w]|
  {
    var row := s.sweeps[w][|s.sweeps[w]| - k];
    row.candidate == c && row.retries < cfg.maxStaleRetries
  }

  /** Those that can still requeue the candidate. */
  function OpenTries(cfg: Config, s: System, c: Id): set<(Id, nat)> {
    set w, k | w in s.sweeps && 1 <= k <= |s.sweeps[w]| && MayRequeue(cfg, s, w, k, c) :: (w, k)
  }

  predicate RowsStored(s: System) {
    forall w | w in s.sweeps :: forall i | 0 <= i < |s.sweeps[w]| :: s.sweeps[w][i].candidate in s.db.candidates
  }

  lemma {:induction false} LoadedRowsAreStored(candidates: map<Id, Candidate>, ids: seq<Id>)
    ensures forall i | 0 <= i < |Load(candidates, ids)| :: Load(candidates, ids)[i].candidate in candidates
  {
    if ids != [] {
      LoadedRowsAreStored(candidates, ids[1..]);
    }
  }

  lemma StepKeepsRowsStored(cfg: Config, s: System, step: Step)
    requires RowsStored(s) && Enabled(s, step)
    ensures RowsStored(Apply(cfg, s, step))
  {
    forall c | c in s.db.candidates ensures c in ApplyDb(cfg, s, step).candidates {
      CounterMoves(cfg, s, step, c);
    }
    if step.SweepBegins? {
      LoadedRowsAreStored(s.db.candidates, StaleIds(s.db, step.cutoff));
    }
  }

  lemma {:induction false} RunKeepsRowsStored(cfg: Config, s: System, steps: seq<Step>)
    requires RowsStored(s) && ValidRun(cfg, s, steps)
    ensures RowsStored(Run(cfg, s, steps))
    decreases |steps|
  {
    hide Apply, Enabled;
    if steps != [] {
      StepKeepsRowsStored(cfg, s, steps[0]);
      RunKeepsRowsStored(cfg, Apply(cfg, s, steps[0]), steps[1..]);
    }
  }

  predicate NoSweepBegins(steps: seq<Step>) {
    forall i | 0 <= i < |steps| :: !steps[i].SweepBegins?
  }

  lemma RoundClosesRow(cfg: Config, s: System, w: Id, after: System, c: Id)
    requires HasRound(s, w) && after.sweeps == s.sweeps[w := s.sweeps[w][1..]]
    ensures OpenRows(after) == OpenRows(s) - {(w, |s.sweeps[w]|)}
    ensures OpenTries(cfg, after, c) == OpenTries(cfg, s, c) - {(w, |s.sweeps[w]|)}
  {
    forall v, k | v in s.sweeps && 1 <= k <= |after.sweeps[v]|
      ensures k <= |s.sweeps[v]| && (MayRequeue(cfg, after, v, k, c) <==> MayRequeue(cfg, s, v, k, c))
    {
    }
  }

  lemma StopClosesRows(cfg: Config, s: System, w: Id, after: System, c: Id)
    requires HasRound(s, w) && after.sweeps == s.sweeps - {w}
    ensures OpenTries(cfg, after, c) <= OpenTries(cfg, s, c) - {(w, |s.sweeps[w]|)}
  {
    forall v, k | v in after.sweeps && 1 <= k <= |after.sweeps[v]|
      ensures MayRequeue(cfg, after, v, k, c) <==> MayRequeue(cfg, s, v, k, c)
    {
    }
  }

  lemma SameSweepsSameTries(cfg: Config, s: System, after: System, c: Id)
    requires forall v | v in after.sweeps :: v in s.sweeps && after.sweeps[v] == s.sweeps[v]
    ensures OpenTries(cfg, after, c) <= OpenTries(cfg, s, c)
  {
    forall v, k | v in after.sweeps && 1 <= k <= |after.sweeps[v]|
      ensures MayRequeue(cfg, after, v, k, c) <==> MayRequeue(cfg, s, v, k, c)
    {
    }
  }

  lemma SubsetSize(xs: set<(Id, nat)>, ys: set<(Id, nat)>)
    requires xs <= ys
    ensures |xs| <= |ys|
  {
    assert ys == xs + (ys - xs);
  }

  lemma FewerTries(xs: set<(Id, nat)>, ys: set<(Id, nat)>, used: bool, x: (Id, nat))
    requires xs <= ys - {x} && (used ==> x in ys)
    ensures |xs| + (if used then 1 else 0) <= |ys|
  {
    SubsetSize(xs, ys - {x});
  }

  /** Every requeue uses up an open row, unless a new sweep begins. */
  lemma StepUsesOpenTry(cfg: Config, s: System, step: Step, c: Id)
    requires Enabled(s, step) && !step.SweepBegins?
    ensures
      var after := Apply(cfg, s, step);
      Requeues(after.db.queue, c) + |OpenTries(cfg, after, c)| <= Requeues(s.db.queue, c) + |OpenTries(cfg, s, c)|
  {
    var after := Apply(cfg, s, step);
    CounterMoves(cfg, s, step, c);
    if step.SweepContinues? || (step.SweepDies? && HasRound(s, step.sweep)) {
      var w := step.sweep;
      var top := (w, |s.sweeps[w]|);
      var used := Requeues(after.db.queue, c) > Requeues(s.db.queue, c);
      assert used ==> MayRequeue(cfg, s, w, |s.sweeps[w]|, c) && top in OpenTries(cfg, s, c);
      if step.SweepContinues? {
        RoundClosesRow(cfg, s, w, after, c);
      } else {
        StopClosesRows(cfg, s, w, after, c);
      }
      FewerTries(OpenTries(cfg, after, c), OpenTries(cfg, s, c), used, top);
    } else {
      SameSweepsSameTries(cfg, s, after, c);
      SubsetSize(OpenTries(cfg, after, c), OpenTries(cfg, s, c));
    }
  }

  lemma {:induction false} RunUsesOpenTries(cfg: Config, s: System, steps: seq<Step>, c: Id)
    requires ValidRun(cfg, s, steps) && NoSweepBegins(steps)
    ensures Requeues(Run(cfg, s, steps).db.queue, c) <= Requeues(s.db.queue, c) + |OpenTries(cfg, s, c)|
    decreases |steps|
  {
    hide Apply, Enabled;
    if steps != [] {
      StepUsesOpenTry(cfg, s, steps[0], c);
      RunUsesOpenTries(cfg, Apply(cfg, s, steps[0]), steps[1..], c);
    }
  }

  /** The open sweeps can use up all their rows, with the queue taking every try. */
  lemma {:induction false} AllOpenTriesHappen(cfg: Config, s: System, c: Id) returns (steps: seq<Step>)
    requires RowsStored(s)
    ensures ValidRun(cfg, s, steps) && NoSweepBegins(steps)
    ensures Requeues(Run(cfg, s, steps).db.queue, c) == Requeues(s.db.queue, c) + |OpenTries(cfg, s, c)|
    decreases |OpenRows(s)|
  {
    hide Apply, Enabled;
    if OpenTries(cfg, s, c) == {} {
      steps := [];
    } else {
      var top, after := NextRound(cfg, s, c);
      var w, step := top.0, SweepContinues(top.0, true, 0);
      SubsetSize(OpenRows(after), OpenRows(s) - {top});
      var rest := AllOpenTriesHappen(cfg, after, c);
      RunCons(cfg, s, after, step, rest);
      steps := [step] + rest;
    }
  }

  /** A round of a sweep that can still requeue the candidate. */
  lemma NextRound(cfg: Config, s: System, c: Id) returns (top: (Id, nat), after: System)
    requires RowsStored(s) && OpenTries(cfg, s, c) != {}
    ensures
      var step := SweepContinues(top.0, true, 0);
      && Enabled(s, step) && after == Apply(cfg, s, step) && RowsStored(after)
      && top in OpenRows(s) && OpenRows(after) == OpenRows(s) - {top}
      && Requeues(after.db.queue, c) + |OpenTries(cfg, after, c)| == Requeues(s.db.queue, c) + |OpenTries(cfg, s, c)|
  {
    var open :| open in OpenTries(cfg, s, c);
    var w := open.0;
    var step := SweepContinues(w, true, 0);
    top, after := (w, |s.sweeps[w]|), Apply(cfg, s, step);
    CounterMoves(cfg, s, step, c);
    RoundClosesRow(cfg, s, w, after, c);
    SweepOneEffect(cfg, s.db, s.sweeps[w][0], true, 0);
    assert top in OpenTries(cfg, s, c) <==> MayRequeue(cfg, s, w, |s.sweeps[w]|, c);
  }

  /**
    What can be said of a reachable state: with no further sweep begun, every run keeps the requeues
    within the limit exactly when the requeues and the open rows that can still requeue keep within it.
   */
  lemma StaysWithinLimitIff(cfg: Config, before: seq<Step>, s: System, c: Id)
    requires ValidRun(cfg, INITIAL, before) && s == Run(cfg, INITIAL, before)
    ensures
      (forall steps | ValidRun(cfg, s, steps) && NoSweepBegins(steps) ::
        Requeues(Run(cfg, s, steps).db.queue, c) <= cfg.maxStaleRetries) <==>
      Requeues(s.db.queue, c) + |OpenTries(cfg, s, c)| <= cfg.maxStaleRetries
  {
    hide Apply, Enabled;
    RunKeepsRowsStored(cfg, INITIAL, before);
    var all := AllOpenTriesHappen(cfg, s, c);
    forall steps | ValidRun(cfg, s, steps) && NoSweepBegins(steps)
      ensures Requeues(Run(cfg, s, steps).db.queue, c) <= Requeues(s.db.queue, c) + |OpenTries(cfg, s, c)|
    {
      RunUsesOpenTries(cfg, s, steps, c);
    }
  }

  // ---- Giving up ----

  function Visits(cfg: Config, s: System, steps: seq<Step>, c: Id): nat
    requires ValidRun(cfg, s, steps)
    decreases |steps|
  {
    if steps == [] then 0
    else (if VisitedBy(s, steps[0], c) then 1 else 0) + Visits(cfg, Apply(cfg, s, steps[0]), steps[1..], c)
  }

  /** Some visit of the run fails the candidate. */
  predicate GivenUpIn(cfg: Config, s: System, steps: seq<Step>, c: Id)
    requires ValidRun(cfg, s, steps)
    decreases |steps|
  {
    steps != []
    && var s' := Apply(cfg, s, steps[0]);
      || (VisitedBy(s, steps[0], c) && c in s'.db.candidates && s'.db.candidates[c].status == Failed)
      || GivenUpIn(cfg, s', steps[1..], c)
  }

  /**
    The watchdog gives up: once its sweeps have visited a candidate more often than it has retries
    left and counts were lost, one of the visits has failed the candidate.
   */
  lemma {:induction false} WatchdogGivesUp(cfg: Config, s: System, steps: seq<Step>, c: Id)
    requires ValidRun(cfg, s, steps) && c in s.db.candidates && Retries(s, c) <= cfg.maxStaleRetries
    requires Visits(cfg, s, steps, c) > cfg.maxStaleRetries - Retries(s, c) + Lost(cfg, s, steps, c)
    ensures GivenUpIn(cfg, s, steps, c)
    decreases |steps|
  {
    if steps != [] {
      var s' := Apply(cfg, s, steps[0]);
      CounterMoves(cfg, s, steps[0], c);
      if !(VisitedBy(s, steps[0], c) && s'.db.candidates[c].status == Failed) {
        WatchdogGivesUp(cfg, s', steps[1..], c);
      }
    }
  }
}
