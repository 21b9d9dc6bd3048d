/**
  `process_candidate` as one uninterrupted job. In a coherent state what it writes does not depend
  on the cache, nor on whether the cache can be read or written.
 */
module Worker {
  import opened Basics
  import opened Jobs
  import opened Pipeline
  import opened VerdictCache
  import Lifecycle

  datatype Outcome = Missing | Evaluated(result: Result) | Raised

  /** What the uncached pipeline makes of a candidate as stored. */
  function Expected(env: Env, s: State, c: Id): Outcome {
    if c !in s.rows || s.rows[c].job !in s.jobs then Missing
    else
      match ResolveText(env, s.rows[c])
      case None => Raised
      case Some(text) =>
        match Recompute(env, s.jobs[s.rows[c].job], text)
        case None => Raised
        case Some(result) => Evaluated(result)
  }

  /** Committing the resolved text, and then a fresh profile of it, keeps the rows as they should be. */
  lemma TextCommitKeeps(env: Env, s: State, c: Id, text: string)
    requires Coherent(env, s) && s.workers == map[] && c in s.rows && ResolveText(env, s.rows[c]) == Some(text)
    ensures
      var s' := s.(rows := s.rows[c := s.rows[c].(text := Some(text))]);
      Coherent(env, s') && ResolveText(env, s'.rows[c]) == Some(text)
    ensures s.rows[c].parsed.Some? ==> s.rows[c].parsed.value == env.parseResume(text)
  {
    assert FreshProfile(env, s.rows[c]);
    RowCommit(env, s.rows, map[], c, s.rows[c].(text := Some(text)));
  }

  lemma ProfileCommitKeeps(env: Env, s: State, c: Id, text: string)
    requires Coherent(env, s) && s.workers == map[] && c in s.rows && ResolveText(env, s.rows[c]) == Some(text)
    ensures Coherent(env, s.(rows := s.rows[c := s.rows[c].(parsed := Some(env.parseResume(text)))]))
  {
    RowCommit(env, s.rows, map[], c, s.rows[c].(parsed := Some(env.parseResume(text))));
  }

  lemma EvaluationKeeps(env: Env, s: State, e: Written)
    requires Coherent(env, s) && CorrectFor(env, e.job, e.text, e.result)
    ensures Coherent(env, s.(written := s.written + [e]))
  {
    HistoryGrows(env, s.written, e);
  }

  lemma CachingKeeps(env: Env, s: State, job: Job, text: string, result: Result)
    requires Sound(env) && Coherent(env, s) && CorrectFor(env, job, text, result)
    ensures Coherent(env, s.(cache := s.cache[env.key(job, text) := result]))
  {
    StoreKeepsCache(env, s.cache, job, text, result);
  }

  /** Neither the stored text nor the file's has a hundred characters without the whitespace around them. */
  predicate TooShort(env: Env, row: Row) {
    && (row.text.None? || |Strip(row.text.value)| < 100)
    && (row.source.None? || |Strip(env.extract(row.source.value))| < 100)
  }

  /** The row ends with the text it stood for, and without a profile or with that text's; no other row changes. */
  predicate FinalRows(env: Env, before: map<Id, Row>, after: map<Id, Row>, c: Id)
    requires c in before
  {
    match ResolveText(env, before[c])
    case None => after == before
    case Some(text) =>
      var settled := before[c].(text := Some(text));
      after == before[c := settled] || after == before[c := settled.(parsed := Some(env.parseResume(text)))]
  }

  class Process {
    var jobs: map<Id, Job>
    var deferred: set<Id>
    var rows: map<Id, Row>
    var status: map<Id, Lifecycle.Status>
    var cache: map<string, Result>
    var written: seq<Written>   // evaluations with a verdict
    var errors: seq<Id>         // candidates of the evaluations without one

    ghost function State(): State
      reads this
    {
      VerdictCache.State(jobs, deferred, rows, map[], cache, written)
    }

    /** The `except` branch. */
    method Fail(c: Id)
      modifies `status, `errors
      ensures status == old(status)[c := Lifecycle.Failed] && errors == old(errors) + [c]
    {
      status := status[c := Lifecycle.Failed];
      errors := errors + [c];
    }

    /** `_resolve_resume_text`, and the commit of a text that differs from the stored one. */
    method ResolveResume(env: Env, c: Id) returns (text: Option<string>)
      requires Coherent(env, State()) && c in rows
      modifies `rows
      ensures Coherent(env, State())
      ensures text == ResolveText(env, old(rows)[c])
      ensures text.None? ==> rows == old(rows)
      ensures text.Some? ==>
        && rows == old(rows)[c := old(rows)[c].(text := text)] && ResolveText(env, rows[c]) == text
        && (rows[c].parsed.Some? ==> rows[c].parsed.value == env.parseResume(text.value))
    {
      var row := rows[c];
      text := None;
      if row.text.Some? && LongEnough(row.text.value) {
        text := row.text;
      } else if row.source.Some? {
        var extracted := env.extract(row.source.value);
        if LongEnough(extracted) {
          text := Some(extracted);
        }
      }
      if text.Some? {
        TextCommitKeeps(env, State(), c, text.value);
        if text != rows[c].text {
          rows := rows[c := rows[c].(text := text)];
        } else {
          assert rows[c := rows[c].(text := text)] == rows;
        }
      }
    }

    /** The stored profile, or a fresh parse, which is stored. */
    method MakeProfile(env: Env, c: Id, text: string) returns (profile: Resume)
      requires Coherent(env, State()) && c in rows && ResolveText(env, rows[c]) == Some(text)
      requires rows[c].parsed.Some? ==> rows[c].parsed.value == env.parseResume(text)
      modifies `rows
      ensures Coherent(env, State())
      ensures profile == env.parseResume(text)
      ensures rows == old(rows)[c := old(rows)[c].(parsed := Some(profile))]
    {
      if rows[c].parsed.Some? {
        assert rows[c := rows[c].(parsed := rows[c].parsed)] == rows;
        return rows[c].parsed.value;
      }
      ProfileCommitKeeps(env, State(), c, text);
      profile := env.parseResume(text);
      rows := rows[c := rows[c].(parsed := Some(profile))];
    }

    /** `_write_evaluation` */
    method WriteEvaluation(env: Env, c: Id, job: Job, text: string, result: Result)
      requires Coherent(env, State()) && CorrectFor(env, job, text, result)
      modifies `status, `written
      ensures Coherent(env, State())
      ensures status == old(status)[c := Lifecycle.Done] && written == old(written) + [Written(c, job, text, result)]
    {
      EvaluationKeeps(env, State(), Written(c, job, text, result));
      written := written + [Written(c, job, text, result)];
      status := status[c := Lifecycle.Done];
    }

    /** The pipeline after a cache miss: a result is written and then cached, a failure is neither. */
    method EvaluateFresh(env: Env, c: Id, job: Job, text: string, writable: bool) returns (outcome: Outcome)
      requires Sound(env) && Coherent(env, State()) && env.proper(job)
      requires c in rows && ResolveText(env, rows[c]) == Some(text)
      requires rows[c].parsed.Some? ==> rows[c].parsed.value == env.parseResume(text)
      modifies `rows, `status, `cache, `written, `errors
      ensures Coherent(env, State())
      ensures outcome == match Recompute(env, job, text) case None => Raised case Some(result) => Evaluated(result)
      ensures rows == old(rows)[c := old(rows)[c].(parsed := Some(env.parseResume(text)))]
      ensures outcome.Evaluated? ==>
        && status == old(status)[c := Lifecycle.Done] && errors == old(errors)
        && written == old(written) + [Written(c, job, text, outcome.result)]
        && cache == if writable then old(cache)[env.key(job, text) := outcome.result] else old(cache)
      ensures outcome.Raised? ==>
        && status == old(status)[c := Lifecycle.Failed] && errors == old(errors) + [c]
        && written == old(written) && cache == old(cache)
    {
      var profile := MakeProfile(env, c, text);
      var result := env.evaluate(job, text, profile);
      if result.None? {
        Fail(c);
        return Raised;
      }
      WriteEvaluation(env, c, job, text, result.value);
      if writable {
        CachingKeeps(env, State(), job, text, result.value);
        cache := cache[env.key(job, text) := result.value];
      }
      outcome := Evaluated(result.value);
    }

    /** `readable` and `writable`: whether the cache answers the lookup and takes the result. */
    method EvaluateText(env: Env, c: Id, job: Job, text: string, readable: bool,
          writable: bool) returns (outcome: Outcome)
      requires Sound(env) && Coherent(env, State()) && env.proper(job)
      requires c in rows && ResolveText(env, rows[c]) == Some(text)
      requires rows[c].parsed.Some? ==> rows[c].parsed.value == env.parseResume(text)
      modifies `rows, `status, `cache, `written, `errors
      ensures Coherent(env, State())
      ensures outcome == match Recompute(env, job, text) case None => Raised case Some(result) => Evaluated(result)
      ensures rows == old(rows) || rows == old(rows)[c := old(rows)[c].(parsed := Some(env.parseResume(text)))]
      ensures outcome.Evaluated? ==>
        && status == old(status)[c := Lifecycle.Done] && errors == old(errors)
        && written == old(written) + [Written(c, job, text, outcome.result)]
        && (cache == old(cache) || (writable && cache == old(cache)[env.key(job, text) := outcome.result]))
      ensures outcome.Raised? ==>
        && status == old(status)[c := Lifecycle.Failed] && errors == old(errors) + [c]
        && written == old(written) && cache == old(cache)
    {
      var key := env.key(job, text);
      if readable && key in cache {
        WriteEvaluation(env, c, job, text, cache[key]);
        return Evaluated(cache[key]);
      }
      outcome := EvaluateFresh(env, c, job, text, writable);
    }

    /** The whole job: its outcome is the one expected without the cache, whatever the cache does. */
    method ProcessCandidate(env: Env, c: Id, readable: bool, writable: bool) returns (outcome: Outcome)
      requires Sound(env) && Coherent(env, State())
      modifies this
      ensures Coherent(env, State())
      ensures outcome == Expected(env, old(State()), c)
      ensures jobs == old(jobs) && deferred == old(deferred)
      ensures outcome.Missing? ==>
        && rows == old(rows) && status == old(status)
        && written == old(written) && errors == old(errors) && cache == old(cache)
      ensures !outcome.Missing? ==> FinalRows(env, old(rows), rows, c)
      ensures outcome.Evaluated? ==>
        var job, text := old(jobs[rows[c].job]), ResolveText(env, old(rows)[c]).value;
        && status == old(status)[c := Lifecycle.Done] && errors == old(errors)
        && written == old(written) + [Written(c, job, text, outcome.result)]
        && (cache == old(cache) || (writable && cache == old(cache)[env.key(job, text) := outcome.result]))
      ensures outcome.Evaluated? ==> StandsFor(env, old(rows)[c], written[|written| - 1].text)
      ensures !outcome.Missing? && TooShort(env, old(rows)[c]) ==> outcome.Raised?
      ensures !outcome.Evaluated? ==> written == old(written) && cache == old(cache)
      ensures outcome.Raised? ==> status == old(status)[c := Lifecycle.Failed] && errors == old(errors) + [c]
    {
      if c !in rows || rows[c].job !in jobs {
        return Missing;
      }
      hide Coherent, Sound, Recompute, StandsFor, LongEnough, Strip;
      var job := jobs[rows[c].job];
      status := status[c := Lifecycle.Processing];
      UnresolvedIff(env, rows[c]);
      var text := ResolveResume(env, c);
      if text.None? {
        Fail(c);
        return Raised;
      }
      ResolvedIff(env, old(rows)[c], text.value);
      outcome := EvaluateText(env, c, job, text.value, readable, writable);
    }
  }
}
