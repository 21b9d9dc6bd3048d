/** The per-address sign-up limiter (`_check_signup_rate_limit`), against the history of what it let through. */
module SignupLimiter {
  import opened Basics

  const WINDOW := 3600.0
  const MOST := 5

  predicate InWindow(now: real, t: real) {
    now - t < WINDOW
  }

  /** The accepted sign-ups of one address that still count at `now`. */
  function Counted(h: seq<real>, now: real): seq<real> {
    Filter(h, t => InWindow(now, t))
  }

  predicate NonDecreasing(h: seq<real>) {
    forall i, j | 0 <= i < j < |h| :: h[i] <= h[j]
  }

  /** Any six accepted sign-ups of one address span at least an hour. */
  predicate Spaced(h: seq<real>) {
    forall j | MOST <= j < |h| :: h[j] - h[j - MOST] >= WINDOW
  }

  /** Pruning what was pruned earlier gives the same as pruning the whole history now. */
  lemma {:induction false} PruneTwice(h: seq<real>, earlier: real, now: real)
    requires earlier <= now
    ensures Counted(Counted(h, earlier), now) == Counted(h, now)
  {
    if h != [] {
      PruneTwice(h[1..], earlier, now);
      CountedCons(h, earlier);
      CountedCons(h, now);
      if InWindow(earlier, h[0]) {
        CountedCons(Counted(h, earlier), now);
        assert Counted(h, earlier)[0] == h[0] && Counted(h, earlier)[1..] == Counted(h[1..], earlier);
      } else {
        assert Counted(h, earlier) == Counted(h[1..], earlier);
      }
    }
  }

  lemma CountedCons(h: seq<real>, now: real)
    requires h != []
    ensures Counted(h, now) == (if InWindow(now, h[0]) then [h[0]] else []) + Counted(h[1..], now)
  {
  }

  lemma CountNow(h: seq<real>, now: real)
    ensures Counted(h + [now], now) == Counted(h, now) + [now]
  {
    FilterConcat(h, [now], t => InWindow(now, t));
    CountedCons([now], now);
  }

  /** In a sorted history the counted sign-ups are the most recent ones. */
  lemma {:induction false} CountedIsRecentEnd(h: seq<real>, now: real)
    requires NonDecreasing(h)
    ensures |Counted(h, now)| <= |h| && Counted(h, now) == h[|h| - |Counted(h, now)|..]
    ensures forall i | 0 <= i < |h| :: InWindow(now, h[i]) <==> i >= |h| - |Counted(h, now)|
  {
    if h != [] {
      if InWindow(now, h[0]) {
        FilterAll(h, t => InWindow(now, t));
      } else {
        CountedIsRecentEnd(h[1..], now);
        assert Counted(h, now) == Counted(h[1..], now);
        forall i | 0 < i < |h| ensures InWindow(now, h[i]) <==> i >= |h| - |Counted(h, now)| {
          assert h[i] == h[1..][i - 1];
        }
      }
    }
  }

  /** Accepting is admissible exactly when fewer than five sign-ups are counted. */
  lemma AcceptIffSpaced(h: seq<real>, now: real)
    requires NonDecreasing(h) && Spaced(h) && (h != [] ==> h[|h| - 1] <= now)
    ensures |Counted(h, now)| < MOST <==> Spaced(h + [now])
  {
    CountedIsRecentEnd(h, now);
    var g := h + [now];
    if |Counted(h, now)| < MOST {
      forall j | MOST <= j < |g| ensures g[j] - g[j - MOST] >= WINDOW {
        if j == |h| {
          assert !InWindow(now, h[j - MOST]);
        } else {
          assert h[j] - h[j - MOST] >= WINDOW;
        }
      }
    } else {
      assert InWindow(now, h[|h| - MOST]) && g[|h|] - g[|h| - MOST] < WINDOW;
    }
  }

  /** One address: its list, its accepted history, when the list was last pruned, and the latest clock reading. */
  predicate Tracks(list: seq<real>, h: seq<real>, prunedAt: real, latest: real) {
    && prunedAt <= latest && list == Counted(h, prunedAt)
    && NonDecreasing(h) && Spaced(h) && forall i | 0 <= i < |h| :: h[i] <= latest
  }

  /** One request: pruning and the decision, on the list of the address and its history. */
  lemma CheckKeeps(list: seq<real>, h: seq<real>, prunedAt: real, latest: real, now: real)
    requires Tracks(list, h, prunedAt, latest) && latest <= now
    ensures
      var kept := Counted(list, now);
      && kept == Counted(h, now)
      && Tracks(kept, h, now, now)
      && (|kept| < MOST ==> Tracks(kept + [now], h + [now], now, now) && kept + [now] == Counted(h + [now], now))
  {
    PruneTwice(h, prunedAt, now);
    AcceptIffSpaced(h, now);
    CountNow(h, now);
  }

  /** All addresses at once. */
  ghost predicate AllTrack(
      lists: map<string, seq<real>>, histories: map<string, seq<real>>, pruned: map<string, real>, latest: real) {
    && lists.Keys == histories.Keys == pruned.Keys
    && forall a | a in lists :: Tracks(lists[a], histories[a], pruned[a], latest)
  }

  lemma UpdateOne(
      lists: map<string, seq<real>>, histories: map<string, seq<real>>, pruned: map<string, real>, latest: real,
      address: string, list: seq<real>, h: seq<real>, now: real)
    requires AllTrack(lists, histories, pruned, latest) && latest <= now && Tracks(list, h, now, now)
    ensures AllTrack(lists[address := list], histories[address := h], pruned[address := now], now)
  {
    forall a | a in lists ensures Tracks(lists[a], histories[a], pruned[a], now) {
      assert Tracks(lists[a], histories[a], pruned[a], latest);
    }
  }

  class Limiter {
    var attempts: map<string, seq<real>>        // per address, as last pruned
    ghost var accepted: map<string, seq<real>>  // per address, every sign-up ever let through
    ghost var pruned: map<string, real>         // when each list was last pruned
    ghost var latest: real                      // the latest clock reading

    ghost predicate Valid()
      reads this
    {
      AllTrack(attempts, accepted, pruned, latest)
    }

    ghost function Accepted(address: string): seq<real>
      reads this
    {
      if address in accepted then accepted[address] else []
    }

    constructor ()
      ensures Valid() && accepted == map[]
    {
      attempts, accepted, pruned, latest := map[], map[], map[], 0.0;
    }

    /**
      One sign-up request at `now`. Whether it is let through depends on the accepted history of
      that address alone; a refusal changes no history, and other addresses are left as they are.
      By `Valid` every list is its address's history, filtered to the window it was last pruned to.
     */
    method Check(address: string, now: real) returns (ok: bool)
      requires Valid() && latest <= now
      modifies this
      ensures Valid() && latest == now
      ensures ok <==> |Counted(old(Accepted(address)), now)| < 5
      ensures accepted
           == old(accepted)[address := if ok then old(Accepted(address)) + [now] else old(Accepted(address))]
      ensures pruned == old(pruned)[address := now]
    {
      var list := if address in attempts then attempts[address] else [];
      ghost var h := Accepted(address);
      ghost var prunedAt := if address in pruned then pruned[address] else latest;
      assert Tracks(list, h, prunedAt, latest);
      CheckKeeps(list, h, prunedAt, latest, now);
      list := Counted(list, now);
      ok := |list| < MOST;
      if ok {
        list := list + [now];
        h := h + [now];
      }
      UpdateOne(attempts, accepted, pruned, latest, address, list, h, now);
      attempts := attempts[address := list];
      accepted, pruned, latest := accepted[address := h], pruned[address := now], now;
    }
  }

  // ---- In plain numbers ----

  /** What counts are the accepted sign-ups of the last 3600 seconds, in order. */
  lemma CountedIs(h: seq<real>, more: seq<real>, now: real, t: real)
    ensures t in Counted(h, now) <==> t in h && now - t < 3600.0
    ensures Counted(h + more, now) == Counted(h, now) + Counted(more, now)
  {
    FilterMembers(h, t => InWindow(now, t));
    FilterConcat(h, more, t => InWindow(now, t));
  }

  /** Six accepted sign-ups in a row span at least 3600 seconds; a sixth within less is refused. */
  lemma SixSpanAnHour(h: seq<real>, i: nat)
    requires Spaced(h) && i + 5 < |h|
    ensures h[i + 5] - h[i] >= 3600.0
  {
    assert h[i + 5] - h[i + 5 - MOST] >= WINDOW;
  }
}
