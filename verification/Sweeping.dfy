/**
  Whole sweeps that nothing interrupts (`sweep_stale_candidates`): what one of them does to every
  candidate, the queue and the evaluations, and that a candidate whose workers always die is given up.
 */
module Sweeping {
  import opened Basics
  import opened Lifecycle
  import opened StatusAgreement
  import opened Watchdog
  import opened Requests

  /** The rounds of a sweep that nothing interrupts. */
  function SweepRows(cfg: Config, db: Db, rows: seq<Stuck>, accepts: set<Id>, now: int): Db
    requires forall r | r in rows :: r.candidate in db.candidates
    decreases |rows|
  {
    if rows == [] then db
    else
      var db' := SweepOne(cfg, db, rows[0], rows[0].candidate in accepts, now);
      assert db'.candidates.Keys == db.candidates.Keys;
      SweepRows(cfg, db', rows[1..], accepts, now)
  }

  function StaleRows(db: Db, cutoff: int): (rows: seq<Stuck>)
    ensures forall r | r in rows :: r.candidate in db.candidates
  {
    LoadCandidates(db.candidates, StaleIds(db, cutoff));
    Load(db.candidates, StaleIds(db, cutoff))
  }

  lemma {:induction false} LoadCandidates(candidates: map<Id, Candidate>, ids: seq<Id>)
    ensures forall r | r in Load(candidates, ids) :: r.candidate in candidates
  {
    if ids != [] {
      LoadCandidates(candidates, ids[1..]);
    }
  }

  function Sweep(cfg: Config, db: Db, cutoff: int, accepts: set<Id>, now: int): Db {
    SweepRows(cfg, db, StaleRows(db, cutoff), accepts, now)
  }

  lemma {:induction false} SweepKeepsKeys(cfg: Config, db: Db, rows: seq<Stuck>, accepts: set<Id>, now: int)
    requires forall r | r in rows :: r.candidate in db.candidates
    ensures SweepRows(cfg, db, rows, accepts, now).candidates.Keys == db.candidates.Keys
    decreases |rows|
  {
    if rows != [] {
      var db' := SweepOne(cfg, db, rows[0], rows[0].candidate in accepts, now);
      assert db'.candidates.Keys == db.candidates.Keys;
      SweepKeepsKeys(cfg, db', rows[1..], accepts, now);
    }
  }

  /** Whether the watchdog tries this row again and the queue takes it. */
  predicate Requeued(cfg: Config, row: Stuck, accepts: set<Id>) {
    row.retries < cfg.maxStaleRetries && row.candidate in accepts
  }

  /** The candidates of the rows that are put back on the queue. */
  function RequeuedIds(cfg: Config, rows: seq<Stuck>, accepts: set<Id>): seq<Id> {
    if rows == [] then []
    else (if Requeued(cfg, rows[0], accepts) then [rows[0].candidate] else []) + RequeuedIds(cfg, rows[1..], accepts)
  }

  /** The candidates of the rows that are failed. */
  function GivenUpIds(cfg: Config, rows: seq<Stuck>, accepts: set<Id>): seq<Id> {
    if rows == [] then []
    else (if Requeued(cfg, rows[0], accepts) then [] else [rows[0].candidate]) + GivenUpIds(cfg, rows[1..], accepts)
  }

  lemma EntriesConcat(ids: seq<Id>, more: seq<Id>, cause: Cause)
    ensures Entries(ids + more, cause) == Entries(ids, cause) + Entries(more, cause)
  {
  }

  lemma FailuresConcat(ids: seq<Id>, more: seq<Id>, model: string)
    ensures Failures(ids + more, model) == Failures(ids, model) + Failures(more, model)
  {
  }

  /** Queue and evaluations have grown by these candidates, and nothing else has changed but candidates. */
  predicate GrownBy(db: Db, after: Db, requeued: seq<Id>, givenUp: seq<Id>) {
    && after.queue == db.queue + Entries(requeued, Swept)
    && after.evals == db.evals + Failures(givenUp, "watchdog_timeout")
    && after == db.(candidates := after.candidates, queue := after.queue, evals := after.evals)
  }

  lemma RoundGrows(cfg: Config, db: Db, row: Stuck, accepted: bool, now: int)
    requires row.candidate in db.candidates
    ensures
      var again := row.retries < cfg.maxStaleRetries && accepted;
      GrownBy(db, SweepOne(cfg, db, row, accepted, now),
              if again then [row.candidate] else [], if again then [] else [row.candidate])
  {
    NoEntries(db.queue, Swept);
    assert db.evals + Failures([], "watchdog_timeout") == db.evals;
  }

  lemma GrownTwice(db: Db, mid: Db, after: Db, requeued: seq<Id>, givenUp: seq<Id>, requeued': seq<Id>,
        givenUp': seq<Id>)
    requires GrownBy(db, mid, requeued, givenUp) && GrownBy(mid, after, requeued', givenUp')
    ensures GrownBy(db, after, requeued + requeued', givenUp + givenUp')
  {
    EntriesConcat(requeued, requeued', Swept);
    FailuresConcat(givenUp, givenUp', "watchdog_timeout");
  }

  lemma NothingGrown(db: Db)
    ensures GrownBy(db, db, [], [])
  {
    NoEntries(db.queue, Swept);
    assert db.evals + Failures([], "watchdog_timeout") == db.evals;
  }

  lemma {:induction false} RowsAppend(cfg: Config, db: Db, rows: seq<Stuck>, accepts: set<Id>, now: int)
    requires forall r | r in rows :: r.candidate in db.candidates
    ensures GrownBy(db, SweepRows(cfg, db, rows, accepts, now), RequeuedIds(cfg, rows, accepts),
      GivenUpIds(cfg, rows, accepts))
    decreases |rows|
  {
    if rows == [] {
      NothingGrown(db);
    } else {
      var row, c := rows[0], rows[0].candidate;
      var db' := SweepOne(cfg, db, row, c in accepts, now);
      assert db'.candidates.Keys == db.candidates.Keys;
      RoundGrows(cfg, db, row, c in accepts, now);
      RowsAppend(cfg, db', rows[1..], accepts, now);
      GrownTwice(db, db', SweepRows(cfg, db', rows[1..], accepts, now),
        if Requeued(cfg, row, accepts) then [c] else [], if Requeued(cfg, row, accepts) then [] else [c],
        RequeuedIds(cfg, rows[1..], accepts), GivenUpIds(cfg, rows[1..], accepts));
    }
  }

  // ---- Each candidate ----

  /** What a sweep makes of a stuck candidate. */
  function Treated(cfg: Config, c: Candidate, requeued: bool, now: int): Candidate {
    c.(status := if requeued then Pending else Failed, updatedAt := now,
       staleRetries := if c.staleRetries < cfg.maxStaleRetries then c.staleRetries + 1 else c.staleRetries)
  }

  /** The rows say what the candidates are, each once. */
  predicate Current(db: Db, rows: seq<Stuck>) {
    forall i | 0 <= i < |rows| ::
      && rows[i].candidate in db.candidates
      && rows[i] == Row(db.candidates, rows[i].candidate)
      && (rows[i].status == Pending || rows[i].status == Processing)
      && forall j | 0 <= j < i :: rows[j].candidate != rows[i].candidate
  }

  lemma RoundTreats(cfg: Config, db: Db, row: Stuck, accepts: set<Id>, now: int)
    requires row.candidate in db.candidates && row == Row(db.candidates, row.candidate)
    requires row.status == Pending || row.status == Processing
    ensures
      var c, db' := row.candidate, SweepOne(cfg, db, row, row.candidate in accepts, now);
      && db'.candidates.Keys == db.candidates.Keys
      && db'.candidates[c] == Treated(cfg, db.candidates[c], Requeued(cfg, row, accepts), now)
      && forall d | d in db.candidates && d != c :: db'.candidates[d] == db.candidates[d]
  {
  }

  lemma RestCurrent(db: Db, db': Db, rows: seq<Stuck>)
    requires Current(db, rows) && rows != [] && db'.candidates.Keys == db.candidates.Keys
    requires forall d | d in db.candidates && d != rows[0].candidate :: db'.candidates[d] == db.candidates[d]
    ensures Current(db', rows[1..])
  {
    var rest := rows[1..];
    forall i | 0 <= i < |rest|
      ensures rest[i].candidate in db'.candidates
      ensures rest[i] == Row(db'.candidates, rest[i].candidate)
      ensures rest[i].status == Pending || rest[i].status == Processing
      ensures forall j | 0 <= j < i :: rest[j].candidate != rest[i].candidate
    {
      assert rest[i] == rows[i + 1];
      assert rows[0].candidate != rows[i + 1].candidate;
      forall j | 0 <= j < i ensures rest[j].candidate != rest[i].candidate {
        assert rest[j] == rows[j + 1];
      }
    }
  }

  lemma {:induction false} RowsLeaveAlone(cfg: Config, db: Db, rows: seq<Stuck>, accepts: set<Id>, now: int, c: Id)
    requires Current(db, rows) && (forall r | r in rows :: r.candidate in db.candidates)
    requires c in db.candidates && forall i | 0 <= i < |rows| :: rows[i].candidate != c
    ensures
      var after := SweepRows(cfg, db, rows, accepts, now);
      c in after.candidates && after.candidates[c] == db.candidates[c]
    decreases |rows|
  {
    if rows != [] {
      var db' := SweepOne(cfg, db, rows[0], rows[0].candidate in accepts, now);
      RoundTreats(cfg, db, rows[0], accepts, now);
      RestCurrent(db, db', rows);
      RowsLeaveAlone(cfg, db', rows[1..], accepts, now, c);
    }
  }

  lemma {:induction false} RowsTreat(cfg: Config, db: Db, rows: seq<Stuck>, accepts: set<Id>, now: int, i: nat)
    requires Current(db, rows) && (forall r | r in rows :: r.candidate in db.candidates) && i < |rows|
    ensures
      var c, after := rows[i].candidate, SweepRows(cfg, db, rows, accepts, now);
      && c in after.candidates
      && after.candidates[c] == Treated(cfg, db.candidates[c], Requeued(cfg, rows[i], accepts), now)
    decreases |rows|
  {
    var row, rest := rows[0], rows[1..];
    var db' := SweepOne(cfg, db, row, row.candidate in accepts, now);
    RoundTreats(cfg, db, row, accepts, now);
    RestCurrent(db, db', rows);
    if i == 0 {
      RowsLeaveAlone(cfg, db', rest, accepts, now, row.candidate);
    } else {
      assert rest[i - 1] == rows[i] && row.candidate != rows[i].candidate;
      RowsTreat(cfg, db', rest, accepts, now, i - 1);
    }
  }

  /** The rows of a sweep are the stuck candidates, each once, as they are. */
  lemma StaleRowsFacts(db: Db, cutoff: int)
    requires Listed(db)
    ensures
      var ids, rows := StaleIds(db, cutoff), StaleRows(db, cutoff);
      && Distinct(ids) && |rows| == |ids|
      && (forall c :: c in ids <==> c in db.candidates && IsStale(db.candidates[c], cutoff))
      && (forall i | 0 <= i < |ids| :: ids[i] in db.candidates && rows[i] == Row(db.candidates, ids[i]))
  {
    FilterDistinct(db.order, StaleAt(db.candidates, cutoff));
    FilterMembers(db.order, StaleAt(db.candidates, cutoff));
    LoadFacts(db.candidates, StaleIds(db, cutoff));
    forall i | 0 <= i < |StaleIds(db, cutoff)| ensures StaleIds(db, cutoff)[i] in db.candidates {
      assert StaleIds(db, cutoff)[i] in StaleIds(db, cutoff);
    }
  }

  lemma StaleRowsAreCurrent(db: Db, cutoff: int)
    requires Listed(db)
    ensures Current(db, StaleRows(db, cutoff))
  {
    var ids, rows := StaleIds(db, cutoff), StaleRows(db, cutoff);
    StaleRowsFacts(db, cutoff);
    forall i | 0 <= i < |rows|
      ensures rows[i].candidate in db.candidates && rows[i] == Row(db.candidates, rows[i].candidate)
      ensures rows[i].status == Pending || rows[i].status == Processing
    {
      assert ids[i] in ids;
    }
  }

  // ---- The contract of a sweep ----

  predicate Stale(db: Db, cutoff: int, c: Id) {
    c in db.candidates && IsStale(db.candidates[c], cutoff)
  }

  /** The stuck candidates with retries left that the queue takes. */
  function ToRequeue(cfg: Config, db: Db, cutoff: int, accepts: set<Id>): set<Id> {
    set c | c in db.candidates && Stale(db, cutoff, c)
         && db.candidates[c].staleRetries < cfg.maxStaleRetries && c in accepts
  }

  /** The other stuck candidates. */
  function ToGiveUp(cfg: Config, db: Db, cutoff: int, accepts: set<Id>): set<Id> {
    set c | c in db.candidates && Stale(db, cutoff, c)
         && !(db.candidates[c].staleRetries < cfg.maxStaleRetries && c in accepts)
  }

  predicate DistinctRows(rows: seq<Stuck>) {
    forall i, j | 0 <= i < j < |rows| :: rows[i].candidate != rows[j].candidate
  }

  lemma DistinctCons(c: Id, ids: seq<Id>)
    requires Distinct(ids) && c !in ids
    ensures Distinct([c] + ids)
  {
  }

  lemma {:induction false} RequeuedIdsFacts(cfg: Config, rows: seq<Stuck>, accepts: set<Id>)
    requires DistinctRows(rows)
    ensures Distinct(RequeuedIds(cfg, rows, accepts))
    ensures forall c :: c in RequeuedIds(cfg, rows, accepts) <==>
              exists r | r in rows :: r.candidate == c && Requeued(cfg, r, accepts)
  {
    if rows != [] {
      RequeuedIdsFacts(cfg, rows[1..], accepts);
      assert rows == [rows[0]] + rows[1..];
      assert forall r | r in rows[1..] :: r.candidate != rows[0].candidate;
      if Requeued(cfg, rows[0], accepts) {
        DistinctCons(rows[0].candidate, RequeuedIds(cfg, rows[1..], accepts));
      }
    }
  }

  lemma {:induction false} GivenUpIdsFacts(cfg: Config, rows: seq<Stuck>, accepts: set<Id>)
    requires DistinctRows(rows)
    ensures Distinct(GivenUpIds(cfg, rows, accepts))
    ensures forall c :: c in GivenUpIds(cfg, rows, accepts) <==>
              exists r | r in rows :: r.candidate == c && !Requeued(cfg, r, accepts)
  {
    if rows != [] {
      GivenUpIdsFacts(cfg, rows[1..], accepts);
      assert rows == [rows[0]] + rows[1..];
      assert forall r | r in rows[1..] :: r.candidate != rows[0].candidate;
      if !Requeued(cfg, rows[0], accepts) {
        DistinctCons(rows[0].candidate, GivenUpIds(cfg, rows[1..], accepts));
      }
    }
  }

  lemma SweepIds(cfg: Config, db: Db, cutoff: int, accepts: set<Id>)
    requires Listed(db)
    ensures
      var rows := StaleRows(db, cutoff);
      var requeued, givenUp := RequeuedIds(cfg, rows, accepts), GivenUpIds(cfg, rows, accepts);
      && Distinct(requeued) && (forall c :: c in requeued <==> c in ToRequeue(cfg, db, cutoff, accepts))
      && Distinct(givenUp) && (forall c :: c in givenUp <==> c in ToGiveUp(cfg, db, cutoff, accepts))
  {
    var ids, rows := StaleIds(db, cutoff), StaleRows(db, cutoff);
    StaleRowsFacts(db, cutoff);
    StaleRowsAreCurrent(db, cutoff);
    RequeuedIdsFacts(cfg, rows, accepts);
    GivenUpIdsFacts(cfg, rows, accepts);
    forall c | Stale(db, cutoff, c) ensures Row(db.candidates, c) in rows {
      assert c in ids;
      var i :| 0 <= i < |ids| && ids[i] == c;
      assert rows[i] in rows;
    }
    forall r | r in rows ensures Stale(db, cutoff, r.candidate) && r == Row(db.candidates, r.candidate) {
      var i :| 0 <= i < |rows| && rows[i] == r;
      assert ids[i] in ids;
    }
  }

  lemma SweepTreats(cfg: Config, db: Db, cutoff: int, accepts: set<Id>, now: int)
    requires Listed(db)
    ensures
      var after := Sweep(cfg, db, cutoff, accepts, now);
      && after.candidates.Keys == db.candidates.Keys
      && forall c | c in db.candidates ::
        after.candidates[c] ==
          if Stale(db, cutoff, c) then Treated(cfg, db.candidates[c], c in ToRequeue(cfg, db, cutoff, accepts), now)
          else db.candidates[c]
  {
    var ids, rows, after := StaleIds(db, cutoff), StaleRows(db, cutoff), Sweep(cfg, db, cutoff, accepts, now);
    StaleRowsFacts(db, cutoff);
    StaleRowsAreCurrent(db, cutoff);
    SweepKeepsKeys(cfg, db, rows, accepts, now);
    forall c | c in db.candidates
      ensures after.candidates[c] ==
        if Stale(db, cutoff, c) then Treated(cfg, db.candidates[c], c in ToRequeue(cfg, db, cutoff, accepts), now)
        else db.candidates[c]
    {
      if Stale(db, cutoff, c) {
        assert c in ids;
        var i :| 0 <= i < |ids| && ids[i] == c;
        RowsTreat(cfg, db, rows, accepts, now, i);
      } else {
        forall i | 0 <= i < |rows| ensures rows[i].candidate != c {
          assert ids[i] in ids;
        }
        RowsLeaveAlone(cfg, db, rows, accepts, now, c);
      }
    }
  }

  /** Exactly these candidates got a new evaluation, each one, without a verdict. */
  ghost predicate Records(before: Db, after: Db, candidates: set<Id>, model: string) {
    exists ids: seq<Id> ::
      && Distinct(ids) && (forall c :: c in ids <==> c in candidates)
      && after.evals == before.evals + Failures(ids, model)
  }

  /**
    The contract of a sweep. A stuck candidate is put back to pending and on the queue once when it
    has retries left and the queue takes it, and otherwise failed with one new evaluation that says
    so; its counter goes up by one while below the limit; queue and evaluations gain nothing else,
    and every other candidate is left alone.
   */
  lemma SweepContract(cfg: Config, db: Db, cutoff: int, accepts: set<Id>, now: int)
    requires Listed(db)
    ensures
      var after := Sweep(cfg, db, cutoff, accepts, now);
      var requeued, givenUp := ToRequeue(cfg, db, cutoff, accepts), ToGiveUp(cfg, db, cutoff, accepts);
      && after.candidates.Keys == db.candidates.Keys
      && (forall c | c in db.candidates ::
            after.candidates[c] ==
              if Stale(db, cutoff, c) then Treated(cfg, db.candidates[c], c in requeued, now) else db.candidates[c])
      && Queues(db, after, requeued, Swept)
      && Records(db, after, givenUp, "watchdog_timeout")
      && after == db.(candidates := after.candidates, queue := after.queue, evals := after.evals)
  {
    var rows, after := StaleRows(db, cutoff), Sweep(cfg, db, cutoff, accepts, now);
    SweepTreats(cfg, db, cutoff, accepts, now);
    SweepIds(cfg, db, cutoff, accepts);
    RowsAppend(cfg, db, rows, accepts, now);
    EntriesQueued(db, after, RequeuedIds(cfg, rows, accepts), ToRequeue(cfg, db, cutoff, accepts), Swept);
  }

  /** After a sweep exactly the candidates it gave up are shown as unprocessed by it; the others are shown as before. */
  lemma SweepShows(cfg: Config, db: Db, cutoff: int, accepts: set<Id>, now: int, c: Id)
    requires Listed(db)
    ensures ShownVerdict(Sweep(cfg, db, cutoff, accepts, now), c)
         == if c in ToGiveUp(cfg, db, cutoff, accepts) then Unprocessed else ShownVerdict(db, c)
  {
    var rows := StaleRows(db, cutoff);
    SweepIds(cfg, db, cutoff, accepts);
    RowsAppend(cfg, db, rows, accepts, now);
    FailAllShows(db, GivenUpIds(cfg, rows, accepts), "watchdog_timeout", now, c);
  }

  /** A second sweep with the same cutoff does nothing. */
  lemma SecondSweepIsIdle(cfg: Config, db: Db, cutoff: int, accepts: set<Id>, now: int, accepts': set<Id>, now': int)
    requires Listed(db) && cutoff <= now
    ensures
      var after := Sweep(cfg, db, cutoff, accepts, now);
      Sweep(cfg, after, cutoff, accepts', now') == after
  {
    var after := Sweep(cfg, db, cutoff, accepts, now);
    SweepTreats(cfg, db, cutoff, accepts, now);
    FilterNone(after.order, StaleAt(after.candidates, cutoff));
  }

  // ---- Giving up on a candidate whose workers die ----

  /** A whole sweep, or a worker that starts or touches a candidate and gets no further. */
  datatype Event =
    | SweepRuns(cutoff: int, accepts: set<Id>, now: int)
    | WorkerDies(candidate: Id, started: bool, now: int)

  function After(cfg: Config, db: Db, e: Event): Db {
    match e
    case SweepRuns(cutoff, accepts, now) => Sweep(cfg, db, cutoff, accepts, now)
    case WorkerDies(c, started, now) =>
      if c !in db.candidates then db else if started then Started(db, c, true, now) else Touched(db, c, now)
  }

  /** How many of the sweeps find the candidate stuck. */
  function Found(cfg: Config, db: Db, events: seq<Event>, c: Id): nat
    decreases |events|
  {
    if events == [] then 0
    else
      (if events[0].SweepRuns? && Stale(db, events[0].cutoff, c) then 1 else 0)
      + Found(cfg, After(cfg, db, events[0]), events[1..], c)
  }

  /** A sweep that meets the candidate pending or processing and last written before the cutoff counts. */
  lemma SweepFinds(cfg: Config, db: Db, cutoff: int, accepts: set<Id>, now: int, rest: seq<Event>, c: Id)
    requires c in db.candidates && db.candidates[c].updatedAt < cutoff
    requires db.candidates[c].status == Pending || db.candidates[c].status == Processing
    ensures Found(cfg, db, [SweepRuns(cutoff, accepts, now)] + rest, c)
         == Found(cfg, Sweep(cfg, db, cutoff, accepts, now), rest, c) + 1
  {
    var events := [SweepRuns(cutoff, accepts, now)] + rest;
    assert events[1..] == rest;
  }

  /** The candidate is failed, and there is a new evaluation that says so. */
  predicate GaveUp(db: Db, after: Db, c: Id) {
    && c in after.candidates && after.candidates[c].status == Failed
    && db.evals <= after.evals
    && Latest(after.evals[|db.evals|..], c) == Some(Evaluation(c, None, "watchdog_timeout"))
  }

  /** One of the sweeps finds the candidate stuck and gives it up. */
  predicate GivenUp(cfg: Config, db: Db, events: seq<Event>, c: Id)
    decreases |events|
  {
    events != []
    && var after := After(cfg, db, events[0]);
      || (events[0].SweepRuns? && Stale(db, events[0].cutoff, c) && GaveUp(db, after, c))
      || GivenUp(cfg, after, events[1..], c)
  }

  lemma SweepGivesUp(cfg: Config, db: Db, cutoff: int, accepts: set<Id>, now: int, c: Id)
    requires Listed(db) && c in ToGiveUp(cfg, db, cutoff, accepts)
    ensures GaveUp(db, Sweep(cfg, db, cutoff, accepts, now), c)
  {
    var rows, after := StaleRows(db, cutoff), Sweep(cfg, db, cutoff, accepts, now);
    SweepTreats(cfg, db, cutoff, accepts, now);
    SweepIds(cfg, db, cutoff, accepts);
    RowsAppend(cfg, db, rows, accepts, now);
    assert after.evals[|db.evals|..] == Failures(GivenUpIds(cfg, rows, accepts), "watchdog_timeout");
    LatestFailure(GivenUpIds(cfg, rows, accepts), "watchdog_timeout", c);
  }

  lemma EventEffect(cfg: Config, db: Db, e: Event, c: Id)
    requires Listed(db) && c in db.candidates
    ensures
      var db' := After(cfg, db, e);
      var found := e.SweepRuns? && Stale(db, e.cutoff, c);
      && Listed(db') && c in db'.candidates
      && (!found ==> db'.candidates[c].staleRetries == db.candidates[c].staleRetries)
      && (found && c !in ToGiveUp(cfg, db, e.cutoff, e.accepts) ==>
            && db'.candidates[c] == Treated(cfg, db.candidates[c], true, e.now)
            && db.candidates[c].staleRetries < cfg.maxStaleRetries)
  {
    if e.SweepRuns? {
      SweepTreats(cfg, db, e.cutoff, e.accepts, e.now);
      RowsAppend(cfg, db, StaleRows(db, e.cutoff), e.accepts, e.now);
    }
  }

  /**
    Sweeps and workers that die, in any order: once more sweeps have found the candidate stuck than
    it has retries left, one of them has given it up. That is at most the limit plus one sweeps.
   */
  lemma {:induction false} CrashingCandidateIsGivenUp(cfg: Config, db: Db, events: seq<Event>, c: Id)
    requires Listed(db) && c in db.candidates && db.candidates[c].staleRetries <= cfg.maxStaleRetries
    requires Found(cfg, db, events, c) > cfg.maxStaleRetries - db.candidates[c].staleRetries
    ensures GivenUp(cfg, db, events, c)
    decreases |events|
  {
    var e := events[0];
    EventEffect(cfg, db, e, c);
    if e.SweepRuns? && c in ToGiveUp(cfg, db, e.cutoff, e.accepts) {
      SweepGivesUp(cfg, db, e.cutoff, e.accepts, e.now, c);
    } else {
      CrashingCandidateIsGivenUp(cfg, After(cfg, db, e), events[1..], c);
    }
  }

  /** Sweeps at intervals: the cutoff of each lies after the time of the one before. */
  predicate Spaced(sweeps: seq<Event>, since: int) {
    sweeps == []
    || (sweeps[0].SweepRuns? && since < sweeps[0].cutoff && Spaced(sweeps[1..], sweeps[0].now))
  }

  /** A stuck candidate nobody touches any more is given up after at most the limit plus one sweeps at intervals. */
  lemma {:induction false} AbandonedCandidateIsGivenUp(cfg: Config, db: Db, sweeps: seq<Event>, c: Id)
    requires Listed(db) && c in db.candidates && db.candidates[c].staleRetries <= cfg.maxStaleRetries
    requires db.candidates[c].status == Pending || db.candidates[c].status == Processing
    requires Spaced(sweeps, db.candidates[c].updatedAt)
    requires |sweeps| > cfg.maxStaleRetries - db.candidates[c].staleRetries
    ensures GivenUp(cfg, db, sweeps, c)
    decreases |sweeps|
  {
    var e := sweeps[0];
    EventEffect(cfg, db, e, c);
    if c in ToGiveUp(cfg, db, e.cutoff, e.accepts) {
      SweepGivesUp(cfg, db, e.cutoff, e.accepts, e.now, c);
    } else {
      AbandonedCandidateIsGivenUp(cfg, After(cfg, db, e), sweeps[1..], c);
    }
  }
}
