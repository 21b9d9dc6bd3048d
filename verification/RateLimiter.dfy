/**
  The requests-per-minute throttle of the LLM providers (`_RateLimiter`) and the retry loop that
  takes one slot per attempt (`complete_json`), both over the whole history of calls.
 */
module RateLimiter {
  import opened Basics

  const WINDOW := 60.0

  /** `time.monotonic` and `time.sleep`: every read is later than the last one and later than the end of any sleep. */
  class Clock {
    var now: real

    constructor ()
    {
      now := 0.0;
    }

    method Read() returns (t: real)
      modifies this
      ensures t == now > old(now)
    {
      var step: real := *;
      now := now + if step > 0.0 then step else 1.0;
      t := now;
    }

    method Sleep(seconds: real)
      requires seconds >= 0.0
      modifies this
      ensures now >= old(now) + seconds
    {
      var extra: real := *;
      now := now + seconds + if extra > 0.0 then extra else 0.0;
    }
  }

  predicate Ascending(h: seq<real>) {
    forall i, j | 0 <= i < j < |h| :: h[i] < h[j]
  }

  /** Any `cap + 1` consecutive calls span more than a minute. */
  predicate Spaced(h: seq<real>, cap: nat) {
    forall j | cap <= j < |h| :: h[j] - h[j - cap] > WINDOW
  }

  /** How long a call asking at `now` has to wait, by the history of calls alone. */
  function Delay(h: seq<real>, cap: nat, now: real): real
    requires cap >= 1
  {
    if |h| >= cap && now - h[|h| - cap] < WINDOW then WINDOW - (now - h[|h| - cap]) else 0.0
  }

  /** The wait is exactly long enough: a call is admissible after it, and at no moment of it. */
  lemma DelayIsExact(h: seq<real>, cap: nat, now: real, t: real)
    requires cap >= 1 && Spaced(h, cap) && Ascending(h) && t > now
    ensures t > now + Delay(h, cap, now) ==> Spaced(h + [t], cap)
    ensures Spaced(h + [t], cap) ==> t > now + Delay(h, cap, now)
  {
    if t > now + Delay(h, cap, now) {
      forall j | cap <= j < |h + [t]| ensures (h + [t])[j] - (h + [t])[j - cap] > WINDOW {
        if j < |h| {
          assert h[j] - h[j - cap] > WINDOW;
        }
      }
    }
    if Spaced(h + [t], cap) && |h| >= cap {
      assert (h + [t])[|h|] - (h + [t])[|h| - cap] > WINDOW;
    }
  }

  /** More than `cap` calls never fit in a minute, however they are picked. */
  lemma AtMostCapPerMinute(h: seq<real>, cap: nat, i: nat, j: nat)
    requires cap >= 1 && Spaced(h, cap) && Ascending(h) && i + cap <= j < |h|
    ensures h[j] - h[i] > 60.0
  {
    assert h[i + cap] - h[i + cap - cap] > WINDOW;
  }

  // ---- The deque against the history ----

  /** The deque is the recent end of the history; what was dropped is more than a minute old. */
  ghost predicate Tracks(calls: seq<real>, h: seq<real>, cap: nat, now: real) {
    && cap >= 1 && |calls| <= cap && |calls| <= |h| && calls == h[|h| - |calls|..]
    && Ascending(h) && (forall i | 0 <= i < |h| :: h[i] <= now)
    && (forall i | 0 <= i < |h| - |calls| :: now - h[i] > WINDOW)
    && Spaced(h, cap)
  }

  ghost predicate Recent(calls: seq<real>, now: real) {
    forall i | 0 <= i < |calls| :: now - calls[i] <= WINDOW
  }

  lemma DropOldest(calls: seq<real>, h: seq<real>, cap: nat, now: real)
    requires Tracks(calls, h, cap, now) && calls != [] && now - calls[0] > WINDOW
    ensures Tracks(calls[1..], h, cap, now)
  {
    assert calls[1..] == h[|h| - |calls[1..]|..];
    assert calls[0] == h[|h| - |calls|];
  }

  lemma RestIsRecent(calls: seq<real>, h: seq<real>, cap: nat, now: real)
    requires Tracks(calls, h, cap, now) && (calls == [] || now - calls[0] <= WINDOW)
    ensures Recent(calls, now)
  {
    forall i | 0 < i < |calls| ensures calls[0] < calls[i] {
      assert calls[0] == h[|h| - |calls|] && calls[i] == h[|h| - |calls| + i];
    }
  }

  /** A purged deque tells how long to wait. */
  lemma DequeTellsDelay(calls: seq<real>, h: seq<real>, cap: nat, now: real)
    requires Tracks(calls, h, cap, now) && Recent(calls, now)
    ensures |calls| < cap ==> Delay(h, cap, now) == 0.0
    ensures |calls| == cap ==> Delay(h, cap, now) == MaxReal(0.0, WINDOW - (now - calls[0]))
  {
    if |calls| == cap {
      assert calls[0] == h[|h| - cap];
    }
  }

  /** After the wait a purged deque has room. */
  lemma RoomAfterDelay(calls: seq<real>, h: seq<real>, cap: nat, asked: real, now: real)
    requires Tracks(calls, h, cap, now) && Recent(calls, now) && now > asked + Delay(h, cap, asked)
    ensures |calls| < cap
  {
    if calls != [] {
      OldestCall(calls, h, cap, now);
    }
  }

  lemma OldestCall(calls: seq<real>, h: seq<real>, cap: nat, now: real)
    requires Tracks(calls, h, cap, now) && calls != []
    ensures calls[0] == h[|h| - |calls|]
  {
  }

  lemma TimePasses(calls: seq<real>, h: seq<real>, cap: nat, now: real, later: real)
    requires Tracks(calls, h, cap, now) && now <= later
    ensures Tracks(calls, h, cap, later)
  {
  }

  /** A moment after the delay is one the history admits, and every moment after it. */
  lemma AdmissibleAfterDelay(calls: seq<real>, h: seq<real>, cap: nat, now: real, asked: real, t: real)
    requires Tracks(calls, h, cap, now) && t > asked + Delay(h, cap, asked)
    ensures Spaced(h + [t], cap)
  {
    DelayIsExact(h, cap, asked, t);
  }

  lemma RecordCall(calls: seq<real>, h: seq<real>, cap: nat, now: real, t: real)
    requires Tracks(calls, h, cap, now) && |calls| < cap && t > now && Spaced(h + [t], cap)
    ensures Tracks(calls + [t], h + [t], cap, t)
  {
    assert calls + [t] == (h + [t])[|h + [t]| - |calls + [t]|..];
  }

  class Limiter {
    var calls: seq<real>          // the deque
    ghost var history: seq<real>  // every call ever recorded
    ghost const cap: nat          // the fixed limit of the provider

    ghost predicate Valid(clock: Clock)
      reads this, clock
    {
      Tracks(calls, history, cap, clock.now)
    }

    constructor (limit: int, clock: Clock)
      ensures Valid(clock) && history == [] && cap == Max(limit, 1)
      ensures cap >= 1 && cap >= limit && (cap == 1 || cap == limit)
    {
      calls, history, cap := [], [], Max(limit, 1);
    }

    /** Drops the calls that are more than a minute old. */
    method Purge(now: real)
      requires Tracks(calls, history, cap, now)
      modifies this`calls
      ensures Tracks(calls, history, cap, now) && Recent(calls, now)
    {
      while calls != [] && now - calls[0] > WINDOW
        invariant Tracks(calls, history, cap, now)
        decreases |calls|
      {
        DropOldest(calls, history, cap, now);
        calls := calls[1..];
      }
      RestIsRecent(calls, history, cap, now);
    }

    /** With a full deque: sleeps until the oldest call is a minute old, and makes room. */
    method AwaitRoom(clock: Clock, asked: real) returns (slept: real)
      requires Tracks(calls, history, cap, asked) && Recent(calls, asked) && |calls| == cap && clock.now == asked
      modifies this`calls, clock
      ensures Tracks(calls, history, cap, clock.now) && |calls| < cap && clock.now > asked + slept
      ensures slept == Delay(history, cap, asked) && 0.0 <= slept <= 60.0
    {
      var pause := WINDOW - (asked - calls[0]);
      DequeTellsDelay(calls, history, cap, asked);
      OldestCall(calls, history, cap, asked);
      slept := 0.0;
      if pause > 0.0 {
        clock.Sleep(pause);
        slept := pause;
      }
      var now := clock.Read();
      TimePasses(calls, history, cap, asked, now);
      Purge(now);
      RoomAfterDelay(calls, history, cap, asked, now);
    }

    /** Records one call, after the wait its history calls for; `asked` is the first clock reading. */
    method Wait(limit: int, clock: Clock) returns (slept: real, ghost asked: real)
      requires Valid(clock) && cap == Max(limit, 1)
      modifies this, clock
      ensures Valid(clock)
      ensures old(clock.now) < asked && history == old(history) + [clock.now] && clock.now > asked + slept
      ensures slept == Delay(old(history), cap, asked) && 0.0 <= slept <= 60.0
    {
      var bound := Max(limit, 1);
      var now := clock.Read();
      asked, slept := now, 0.0;
      TimePasses(calls, history, cap, old(clock.now), now);
      Purge(now);
      DequeTellsDelay(calls, history, cap, now);
      if |calls| >= bound {
        slept := AwaitRoom(clock, now);
      }
      ghost var before := clock.now;
      var t := clock.Read();
      AdmissibleAfterDelay(calls, history, cap, before, asked, t);
      RecordCall(calls, history, cap, before, t);
      calls := calls + [t];
      history := history + [t];
    }
  }

  // ---- complete_json ----

  /** One attempt: an answer, `LLMUnavailableError` with its Retry-After header if any, or another exception. */
  datatype Attempt = Answered(reply: string) | Unavailable(retryAfter: Option<real>) | Broken

  /** The reply, `LLMUnavailableError` after the last attempt, or an exception that was not caught. */
  datatype Outcome = Done(reply: string) | Exhausted | Raised

  /** `retry_after or retry_backoff_base**attempt`: a header of zero is falsy. */
  function Pause(retryAfter: Option<real>, backoff: real): real {
    if retryAfter.Some? && retryAfter.value != 0.0 then retryAfter.value else backoff
  }

  /** The gap after an attempt covers what the server asks for, unless it asks for nothing or zero; else the backoff. */
  predicate PausesFor(a: Attempt, backoff: real, gap: real) {
    a.Unavailable? ==>
      if a.retryAfter.Some? && a.retryAfter.value != 0.0 then gap >= a.retryAfter.value else gap >= backoff
  }

  /** Of the `used` calls that start at `start`, each is followed by the pause its attempt calls for. */
  ghost predicate Paused(attempts: nat -> Attempt, backoff: nat -> real, h: seq<real>, start: nat, used: nat) {
    && |h| == start + used
    && forall k | 1 <= k < used :: PausesFor(attempts(k), backoff(k), h[start + k] - h[start + k - 1])
  }

  lemma PausedSnoc(attempts: nat -> Attempt, backoff: nat -> real, h: seq<real>, t: real, start: nat, used: nat)
    requires Paused(attempts, backoff, h, start, used)
    requires used >= 1 ==> PausesFor(attempts(used), backoff(used), t - h[|h| - 1])
    ensures Paused(attempts, backoff, h + [t], start, used + 1)
  {
  }

  /**
    Another attempt is made after attempt `k` of `most` iff it was unavailable and the pause is one
    `time.sleep` accepts.
   */
  predicate GoesOn(attempts: nat -> Attempt, backoff: nat -> real, most: nat, k: nat) {
    k < most && attempts(k).Unavailable? && Pause(attempts(k).retryAfter, backoff(k)) >= 0.0
  }

  function Ending(a: Attempt, last: bool): Outcome {
    match a
    case Answered(v) => Done(v)
    case Unavailable(_) => if last then Exhausted else Raised
    case Broken => Raised
  }

  /** The outcome is that of the first attempt with which the loop does not go on. */
  predicate EndsAt(attempts: nat -> Attempt, backoff: nat -> real, most: nat, used: nat, r: Outcome) {
    && 1 <= used <= most
    && (forall k | 1 <= k < used :: GoesOn(attempts, backoff, most, k))
    && !GoesOn(attempts, backoff, most, used)
    && r == Ending(attempts(used), used == most)
  }

  /** One slot of the limiter, for one attempt. */
  method TakeSlot(limiter: Limiter, clock: Clock, requestsPerMinute: int)
    requires limiter.Valid(clock) && limiter.cap == Max(requestsPerMinute, 1)
    modifies limiter, clock
    ensures limiter.Valid(clock)
    ensures limiter.history == old(limiter.history) + [clock.now] && clock.now > old(clock.now)
  {
    var _, _ := limiter.Wait(requestsPerMinute, clock);
  }

  /** Sleeping between attempts does not disturb the limiter. */
  method SleepBetween(limiter: Limiter, clock: Clock, pause: real)
    requires limiter.Valid(clock) && pause >= 0.0
    modifies clock
    ensures limiter.Valid(clock) && clock.now >= old(clock.now) + pause
  {
    ghost var before := clock.now;
    clock.Sleep(pause);
    TimePasses(limiter.calls, limiter.history, limiter.cap, before, clock.now);
  }

  method CompleteJson(limiter: Limiter, clock: Clock, requestsPerMinute: int, maxRetries: int,
      attempts: nat -> Attempt, backoff: nat -> real) returns (r: Outcome, used: nat)
    requires limiter.Valid(clock) && limiter.cap == Max(requestsPerMinute, 1)
    modifies limiter, clock
    ensures limiter.Valid(clock)
    ensures EndsAt(attempts, backoff, Max(maxRetries, 1), used, r) && (used <= 1 || used <= maxRetries)
    ensures old(limiter.history) <= limiter.history
    ensures Paused(attempts, backoff, limiter.history, |old(limiter.history)|, used)
  {
    hide Tracks;
    var most := Max(maxRetries, 1);
    ghost var start := |limiter.history|;
    used := 0;
    while true
      invariant used < most && limiter.Valid(clock)
      invariant forall k | 1 <= k <= used :: GoesOn(attempts, backoff, most, k)
      invariant old(limiter.history) <= limiter.history && Paused(attempts, backoff, limiter.history, start, used)
      invariant used >= 1 ==> PausesFor(attempts(used), backoff(used), clock.now - limiter.history[start + used - 1])
      decreases most - used
    {
      ghost var h := limiter.history;
      TakeSlot(limiter, clock, requestsPerMinute);
      PausedSnoc(attempts, backoff, h, clock.now, start, used);
      used := used + 1;
      match attempts(used) {
        case Answered(v) => return Done(v), used;
        case Broken => return Raised, used;
        case Unavailable(retryAfter) =>
          if used == most {
            return Exhausted, used;
          }
          var pause := Pause(retryAfter, backoff(used));
          if pause < 0.0 {
            return Raised, used;  // time.sleep refuses a negative argument
          }
          SleepBetween(limiter, clock, pause);
      }
    }
  }

  /**
    What the retry loop amounts to: an answer is the first attempt's that is not unavailable, and giving
    up means all were.
   */
  lemma OutcomeMeaning(attempts: nat -> Attempt, backoff: nat -> real, most: nat, used: nat, r: Outcome)
    requires EndsAt(attempts, backoff, most, used, r)
    ensures r.Done? ==> attempts(used) == Answered(r.reply) && forall k | 1 <= k < used :: attempts(k).Unavailable?
    ensures r.Exhausted? <==> used == most && forall k | 1 <= k <= most :: attempts(k).Unavailable?
    ensures r.Raised? && !attempts(used).Broken? ==>
      && used < most && attempts(used).Unavailable?
      && (if attempts(used).retryAfter.Some? && attempts(used).retryAfter.value != 0.0
          then attempts(used).retryAfter.value < 0.0 else backoff(used) < 0.0)
  {
    forall k | 1 <= k < used ensures attempts(k).Unavailable? {
      assert GoesOn(attempts, backoff, most, k);
    }
  }

  /** The outcome and the number of slots taken are determined by the attempts. */
  lemma OutcomeUnique(attempts: nat -> Attempt, backoff: nat -> real, most: nat, used: nat, r: Outcome, used': nat,
        r': Outcome)
    requires EndsAt(attempts, backoff, most, used, r) && EndsAt(attempts, backoff, most, used', r')
    ensures used == used' && r == r'
  {
  }
}
