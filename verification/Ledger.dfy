/** Conservation of credits over every run of the service. */
module Ledger {
  import opened Basics
  import opened Lifecycle

  /** Everything a user was ever given. */
  function Granted(grants: seq<Grant>, u: Id): int {
    if grants == [] then 0
    else Granted(grants[..|grants| - 1], u) + if grants[|grants| - 1].user == u then grants[|grants| - 1].amount else 0
  }

  predicate PaidBy(e: Entry, u: Id) {
    e.cause == Ingested(u) || e.cause == Uploaded(u)
  }

  /** The candidates queued at a user's expense: by sheet or by resume upload. */
  function Charged(queue: seq<Entry>, u: Id): nat {
    if queue == [] then 0
    else Charged(queue[..|queue| - 1], u) + if PaidBy(queue[|queue| - 1], u) then 1 else 0
  }

  predicate BooksOf(db: Db, u: Id) {
    if u in db.credits then db.credits[u] == Granted(db.grants, u) - Charged(db.queue, u) >= 0
    else Granted(db.grants, u) == 0 && Charged(db.queue, u) == 0
  }

  /** Every balance is what was granted minus what was queued at the user's expense, and not negative. */
  ghost predicate Balanced(db: Db) {
    && (forall u :: BooksOf(db, u))
    && (forall j | j in db.owner :: db.owner[j] in db.credits)
  }

  lemma GrantAppended(grants: seq<Grant>, g: Grant, u: Id)
    ensures Granted(grants + [g], u) == Granted(grants, u) + if g.user == u then g.amount else 0
  {
    assert (grants + [g])[..|grants|] == grants;
  }

  lemma {:induction false} EntriesAppended(queue: seq<Entry>, ids: seq<Id>, cause: Cause, u: Id)
    ensures Charged(queue + Entries(ids, cause), u)
         == Charged(queue, u) + if cause == Ingested(u) || cause == Uploaded(u) then |ids| else 0
  {
    if ids == [] {
      assert queue + Entries(ids, cause) == queue;
    } else {
      var init := ids[..|ids| - 1];
      EntriesAppended(queue, init, cause, u);
      var all := queue + Entries(ids, cause);
      assert all[..|all| - 1] == queue + Entries(init, cause);
      assert all[|all| - 1] == Entry(ids[|ids| - 1], cause);
    }
  }

  lemma {:induction false} FilterShorter(ids: seq<Id>, p: Id -> bool)
    ensures |Filter(ids, p)| <= |ids|
  {
    if ids != [] {
      FilterShorter(ids[1..], p);
    }
  }

  /** Queueing at a user's expense and paying for it in one step. */
  lemma PaidEnqueueBalances(db: Db, db': Db, user: Id, ids: seq<Id>, cause: Cause)
    requires Balanced(db) && user in db.credits && db.credits[user] >= |ids|
    requires cause == Ingested(user) || cause == Uploaded(user)
    requires db'.owner == db.owner && db'.grants == db.grants && db'.queue == db.queue + Entries(ids, cause)
    requires db'.credits == db.credits[user := db.credits[user] - |ids|]
    ensures Balanced(db')
  {
    forall u ensures BooksOf(db', u) {
      assert BooksOf(db, u);
      EntriesAppended(db.queue, ids, cause, u);
    }
  }

  /** Queueing for a retry or by the watchdog charges nobody. */
  lemma FreeEnqueueBalances(db: Db, db': Db, ids: seq<Id>, cause: Cause)
    requires Balanced(db) && (cause == Retried || cause == Swept)
    requires db'.owner == db.owner && db'.grants == db.grants && db'.credits == db.credits
    requires db'.queue == db.queue + Entries(ids, cause)
    ensures Balanced(db')
  {
    forall u ensures BooksOf(db', u) {
      assert BooksOf(db, u);
      EntriesAppended(db.queue, ids, cause, u);
    }
  }

  /** Steps that touch neither balances nor grants nor the queue. */
  lemma SameBooks(db: Db, db': Db)
    requires Balanced(db)
    requires db'.owner == db.owner && db'.grants == db.grants && db'.credits == db.credits && db'.queue == db.queue
    ensures Balanced(db')
  {
    forall u ensures BooksOf(db', u) {
      assert BooksOf(db, u);
    }
  }

  lemma GivenBalances(db: Db, db': Db, g: Grant)
    requires Balanced(db) && g.amount >= 0
    requires db'.owner == db.owner && db'.grants == db.grants + [g] && db'.queue == db.queue
    requires db'.credits == db.credits[g.user := (if g.user in db.credits then db.credits[g.user] else 0) + g.amount]
    ensures Balanced(db')
  {
    forall u ensures BooksOf(db', u) {
      assert BooksOf(db, u);
      GrantAppended(db.grants, g, u);
    }
  }

  lemma IngestBalances(db: Db, user: Id, job: Id, ids: seq<Id>, withUrl: set<Id>, accepts: set<Id>, now: int)
    requires Balanced(db)
    ensures Balanced(Ingest(db, user, job, ids, withUrl, accepts, now).db)
  {
    if Ingest(db, user, job, ids, withUrl, accepts, now).db != db {
      FilterShorter(ids, TakenBy(accepts));
      PaidEnqueueBalances(db, Ingest(db, user, job, ids, withUrl, accepts, now).db, user, Accepted(ids, accepts),
        Ingested(user));
    }
  }

  lemma UploadBalances(db: Db, user: Id, job: Id, c: Id, accepted: bool, now: int)
    requires Balanced(db)
    ensures Balanced(Upload(db, user, job, c, accepted, now).db)
  {
    var db' := Upload(db, user, job, c, accepted, now).db;
    if OwnsCandidate(db, user, job, c) && db.credits[user] >= 1 && accepted {
      PaidEnqueueBalances(db, db', user, [c], Uploaded(user));
    } else {
      SameBooks(db, db');
    }
  }

  lemma RetryBalances(db: Db, user: Id, job: Id, c: Id, accepted: bool, now: int)
    requires Balanced(db)
    ensures Balanced(Retry(db, user, job, c, accepted, now).db)
  {
    var db' := Retry(db, user, job, c, accepted, now).db;
    if db'.queue == db.queue {
      SameBooks(db, db');
    } else {
      FreeEnqueueBalances(db, db', [c], Retried);
    }
  }

  lemma RetryFailedBalances(db: Db, user: Id, job: Id, accepts: set<Id>, now: int)
    requires Balanced(db)
    ensures Balanced(RetryFailed(db, user, job, accepts, now).db)
  {
    var db' := RetryFailed(db, user, job, accepts, now).db;
    if Owns(db, user, job) {
      FreeEnqueueBalances(db, db', Accepted(Retryable(db, job), accepts), Retried);
    }
  }

  lemma SweepBalances(cfg: Config, db: Db, row: Stuck, accepted: bool, now: int)
    requires Balanced(db) && row.candidate in db.candidates
    ensures Balanced(SweepOne(cfg, db, row, accepted, now))
  {
    var db' := SweepOne(cfg, db, row, accepted, now);
    if row.retries < cfg.maxStaleRetries && accepted {
      FreeEnqueueBalances(db, db', [row.candidate], Swept);
    } else {
      SameBooks(db, db');
    }
  }

  lemma HalfRoundBalances(cfg: Config, db: Db, row: Stuck)
    requires Balanced(db)
    ensures Balanced(HalfRound(cfg, db, row))
  {
    if row.retries < cfg.maxStaleRetries {
      FreeEnqueueBalances(db, HalfRound(cfg, db, row), [row.candidate], Swept);
    }
  }

  lemma CreateJobBalances(db: Db, u: Id, j: Id, parsing: set<Id>)
    requires Balanced(db) && u in db.credits
    ensures Balanced(db.(owner := db.owner[j := u], parsing := parsing))
  {
    var db' := db.(owner := db.owner[j := u], parsing := parsing);
    forall v ensures BooksOf(db', v) {
      assert BooksOf(db, v);
    }
  }

  lemma StepBalances(cfg: Config, s: System, step: Step)
    requires Balanced(s.db) && Enabled(s, step)
    ensures Balanced(Apply(cfg, s, step).db)
  {
    var db' := Apply(cfg, s, step).db;
    match step
    case Signup(u) => GivenBalances(s.db, db', Grant(u, cfg.signupCredits));
    case GrantCredits(u, n) => GivenBalances(s.db, db', Grant(u, n));
    case CreateJob(u, j, deferred) => CreateJobBalances(s.db, u, j, db'.parsing);
    case IngestSheet(u, j, ids, withUrl, accepts, now) => IngestBalances(s.db, u, j, ids, withUrl, accepts, now);
    case UploadResume(u, j, c, accepted, now) => UploadBalances(s.db, u, j, c, accepted, now);
    case RetryOne(u, j, c, accepted, now) => RetryBalances(s.db, u, j, c, accepted, now);
    case RetryAll(u, j, accepts, now) => RetryFailedBalances(s.db, u, j, accepts, now);
    case SweepContinues(w, accepted, now) => SweepBalances(cfg, s.db, s.sweeps[w][0], accepted, now);
    case SweepDies(w) => HalfRoundBalances(cfg, s.db, s.sweeps[w][0]);
    case _ => SameBooks(s.db, db');
  }

  lemma {:induction false} RunBalances(cfg: Config, s: System, steps: seq<Step>)
    requires Balanced(s.db) && ValidRun(cfg, s, steps)
    ensures Balanced(Run(cfg, s, steps).db)
    decreases |steps|
  {
    if steps != [] {
      StepBalances(cfg, s, steps[0]);
      RunBalances(cfg, Apply(cfg, s, steps[0]), steps[1..]);
    }
  }

  /**
    In every reachable state: grants = balance + candidates queued by sheet + uploads queued, and no
    balance is negative.
   */
  lemma CreditsAreConserved(cfg: Config, steps: seq<Step>, u: Id)
    requires ValidRun(cfg, INITIAL, steps) && u in Run(cfg, INITIAL, steps).db.credits
    ensures
      var db := Run(cfg, INITIAL, steps).db;
      Granted(db.grants, u) == db.credits[u] + Charged(db.queue, u) && db.credits[u] >= 0
  {
    assert Balanced(EMPTY_DB);
    RunBalances(cfg, INITIAL, steps);
    assert BooksOf(Run(cfg, INITIAL, steps).db, u);
  }
}
