/** Sliding-window limiter and failure lockout (identity/ratelimit.py). The stored queues are trimmed
    and dropped lazily; every answer is that of the full history. */
module RateLimit {

  type Key = string

  const PRUNE_AT := 4096

  ghost predicate Ordered(p: seq<real>) {
    forall i, j :: 0 <= i < j < |p| ==> p[i] <= p[j]
  }

  /** How many of the times come after cutoff. */
  function Count(p: seq<real>, cutoff: real): (n: nat)
    ensures n <= |p|
  {
    if p == [] then 0 else Count(p[..|p| - 1], cutoff) + if p[|p| - 1] > cutoff then 1 else 0
  }

  /** How many lie in the half-open window (from, to]. */
  function Within(p: seq<real>, from: real, to: real): (n: nat)
    ensures n <= |p|
  {
    if p == [] then 0 else Within(p[..|p| - 1], from, to) + if from < p[|p| - 1] <= to then 1 else 0
  }

  function Get(m: map<Key, seq<real>>, key: Key): seq<real> {
    if key in m then m[key] else []
  }

  /** q is what is left of p when some of its front, all of it at or before cutoff, is gone. */
  ghost predicate Rest(q: seq<real>, p: seq<real>, cutoff: real) {
    && |q| <= |p| && q == p[|p| - |q|..]
    && forall i :: 0 <= i < |p| - |q| ==> p[i] <= cutoff
  }

  /** A queue holds its key's history, which is in order and past, up to an expired front. */
  ghost predicate Follows(q: seq<real>, p: seq<real>, clock: real, window: real) {
    Rest(q, p, clock - window) && Ordered(p) && forall i :: 0 <= i < |p| ==> p[i] <= clock
  }

  ghost predicate Tracks(queues: map<Key, seq<real>>, history: map<Key, seq<real>>, clock: real, window: real) {
    forall k {:trigger Get(history, k)} :: Follows(Get(queues, k), Get(history, k), clock, window)
  }

  // ---- Counting -----------------------------------------------------------------------------------

  lemma {:induction false} NoneAfter(p: seq<real>, cutoff: real)
    requires forall i :: 0 <= i < |p| ==> p[i] <= cutoff
    ensures Count(p, cutoff) == 0
  {
    if p != [] { NoneAfter(p[..|p| - 1], cutoff); }
  }

  /** When the rest is all unexpired, its length is the count. */
  lemma {:induction false} RestIsCounted(q: seq<real>, p: seq<real>, cutoff: real)
    requires Rest(q, p, cutoff) && (q != [] ==> q[0] > cutoff) && Ordered(p)
    ensures Count(p, cutoff) == |q|
  {
    if q == [] {
      NoneAfter(p, cutoff);
    } else {
      assert p[|p| - 1] >= p[|p| - |q|] == q[0];
      RestIsCounted(q[..|q| - 1], p[..|p| - 1], cutoff);
    }
  }

  lemma {:induction false} CountFalls(p: seq<real>, cutoff: real, cutoff': real)
    requires cutoff <= cutoff'
    ensures Count(p, cutoff') <= Count(p, cutoff)
  {
    if p != [] { CountFalls(p[..|p| - 1], cutoff, cutoff'); }
  }

  lemma {:induction false} WindowAtMostCount(p: seq<real>, from: real, to: real, cutoff: real)
    requires cutoff <= from
    ensures Within(p, from, to) <= Count(p, cutoff)
  {
    if p != [] { WindowAtMostCount(p[..|p| - 1], from, to, cutoff); }
  }

  /** The places of the times after cutoff, and of those in the half-open window. */
  ghost function Later(p: seq<real>, cutoff: real): set<nat> {
    set i: nat | i < |p| && p[i] > cutoff
  }

  ghost function Inside(p: seq<real>, from: real, to: real): set<nat> {
    set i: nat | i < |p| && from < p[i] && p[i] <= to
  }

  lemma {:induction false} CountIsSize(p: seq<real>, cutoff: real)
    ensures Count(p, cutoff) == |Later(p, cutoff)|
  {
    if p == [] {
      assert Later(p, cutoff) == {};
    } else {
      var n := |p| - 1;
      CountIsSize(p[..n], cutoff);
      assert Later(p, cutoff) == Later(p[..n], cutoff) + if p[n] > cutoff then {n} else {};
    }
  }

  lemma {:induction false} WithinIsSize(p: seq<real>, from: real, to: real)
    ensures Within(p, from, to) == |Inside(p, from, to)|
  {
    if p == [] {
      assert Inside(p, from, to) == {};
    } else {
      var n := |p| - 1;
      WithinIsSize(p[..n], from, to);
      assert Inside(p, from, to) == Inside(p[..n], from, to) + if from < p[n] <= to then {n} else {};
    }
  }

  // ---- Queues -------------------------------------------------------------------------------------

  /** `popleft` while the front has expired */
  function Trimmed(q: seq<real>, cutoff: real): (r: seq<real>)
    ensures |r| <= |q|
  {
    if q != [] && q[0] <= cutoff then Trimmed(q[1..], cutoff) else q
  }

  lemma {:induction false} TrimmedIsRest(q: seq<real>, p: seq<real>, cutoff: real)
    requires Rest(q, p, cutoff)
    ensures Rest(Trimmed(q, cutoff), p, cutoff)
    ensures Trimmed(q, cutoff) != [] ==> Trimmed(q, cutoff)[0] > cutoff
  {
    if q != [] && q[0] <= cutoff {
      assert q[1..] == p[|p| - |q| + 1..];
      TrimmedIsRest(q[1..], p, cutoff);
    }
  }

  method TrimFront(q: seq<real>, cutoff: real) returns (r: seq<real>)
    ensures r == Trimmed(q, cutoff)
  {
    r := q;
    while r != [] && r[0] <= cutoff
      invariant Trimmed(r, cutoff) == Trimmed(q, cutoff)
      decreases |r|
    {
      r := r[1..];
    }
  }

  /** Queues that are empty or expired to the last entry. */
  function Stale(queues: map<Key, seq<real>>, cutoff: real): set<Key> {
    set k | k in queues && (queues[k] == [] || queues[k][|queues[k]| - 1] <= cutoff)
  }

  /** Time passes, and stale queues may go: nothing the history can see. */
  lemma PruningKeepsTrack(queues: map<Key, seq<real>>, history: map<Key, seq<real>>, clock: real, now: real, window: real,
                          dropped: set<Key>)
    requires Tracks(queues, history, clock, window) && clock <= now && dropped <= Stale(queues, now - window)
    ensures Tracks(queues - dropped, history, now, window)
  {
    forall k ensures Follows(Get(queues - dropped, k), Get(history, k), now, window) {
      var q, p := Get(queues, k), Get(history, k);
      assert Follows(q, p, clock, window);
      if k in dropped && q != [] {
        assert p[|p| - 1] == q[|q| - 1] <= now - window;
      }
    }
  }

  /** One key's queue and history change together. */
  lemma SettingKeepsTrack(queues: map<Key, seq<real>>, history: map<Key, seq<real>>, clock: real, window: real,
                          key: Key, q: seq<real>, p: seq<real>)
    requires Tracks(queues, history, clock, window) && Follows(q, p, clock, window)
    ensures Tracks(queues[key := q], history[key := p], clock, window)
  {
    hide Follows;
    var queues', history' := queues[key := q], history[key := p];
    forall k ensures Follows(Get(queues', k), Get(history', k), clock, window) {
      if k != key { assert Get(history', k) == Get(history, k); }
    }
  }

  lemma RestHead(q: seq<real>, p: seq<real>, cutoff: real)
    requires Rest(q, p, cutoff)
    ensures |q| <= |p| && (q != [] ==> q[0] == p[|p| - |q|])
  {}

  /** A trimmed queue stands for the same history, and its length is the count. */
  lemma TrimmedFollows(q: seq<real>, p: seq<real>, now: real, window: real)
    requires Follows(q, p, now, window)
    ensures var r := Trimmed(q, now - window);
            && Follows(r, p, now, window) && Count(p, now - window) == |r|
            && (r != [] ==> r[0] > now - window && r[0] == p[|p| - |r|])
  {
    hide Trimmed, Count, Rest, Ordered;
    TrimmedIsRest(q, p, now - window);
    RestIsCounted(Trimmed(q, now - window), p, now - window);
    RestHead(Trimmed(q, now - window), p, now - window);
  }

  lemma AppendedFollows(q: seq<real>, p: seq<real>, now: real, window: real)
    requires Follows(q, p, now, window)
    ensures Follows(q + [now], p + [now], now, window)
  {
    assert (p + [now])[|p| - |q|..] == q + [now];
  }

  // ---- The limiter --------------------------------------------------------------------------------

  /** Each hit found fewer than limit hits in the window before it. */
  ghost predicate Granted(p: seq<real>, limit: int, window: real) {
    forall k :: 0 <= k < |p| ==> Count(p[..k], p[k] - window) < limit
  }

  class SlidingWindowLimiter {
    const limit: int
    const window: real
    var hits: map<Key, seq<real>>
    /** Every hit ever allowed, and the last time seen. */
    ghost var history: map<Key, seq<real>>
    ghost var clock: real

    ghost predicate Valid()
      reads this
    {
      Tracks(hits, history, clock, window) && forall k :: Granted(Get(history, k), limit, window)
    }

    constructor (limit: int, window: real, ghost start: real)
      ensures Valid() && this.limit == limit && this.window == window && clock == start && history == map[]
    {
      this.limit, this.window := limit, window;
      hits := map[];
      history, clock := map[], start;
    }

    method MaybePrune(now: real)
      requires Valid() && clock <= now
      modifies this
      ensures Valid() && clock == now && history == old(history)
    {
      PruningKeepsTrack(hits, history, clock, now, window, {});
      PruningKeepsTrack(hits, history, clock, now, window, Stale(hits, now - window));
      assert hits - {} == hits;
      if |hits| >= PRUNE_AT {
        hits := hits - Stale(hits, now - window);
      }
      clock := now;
    }

    method Allow(key: Key, now: real) returns (allowed: bool)
      requires Valid() && clock <= now
      modifies this
      ensures Valid() && clock == now
      ensures allowed <==> Count(Get(old(history), key), now - window) < limit
      ensures history == if allowed then old(history)[key := Get(old(history), key) + [now]] else old(history)
    {
      hide Follows, Trimmed, Count, Stale, Granted;
      MaybePrune(now);
      ghost var p, before := Get(history, key), history;
      if key !in hits { hits := hits[key := []]; }
      assert Follows(hits[key], p, now, window);
      TrimmedFollows(hits[key], p, now, window);
      var q := TrimFront(hits[key], now - window);
      SettingKeepsTrack(hits, history, now, window, key, q, p);
      hits := hits[key := q];
      SameHistory(hits, history, now, window, key);
      if |q| >= limit { return false; }
      AppendedFollows(q, p, now, window);
      SettingKeepsTrack(hits, history, now, window, key, q + [now], p + [now]);
      GrantingOneMore(p, limit, window, now);
      hits := hits[key := q + [now]];
      history := history[key := p + [now]];
      forall k ensures Granted(Get(history, k), limit, window) {
        if k != key { assert Get(history, k) == Get(before, k); }
      }
      return true;
    }
  }

  lemma GrantingOneMore(p: seq<real>, limit: int, window: real, now: real)
    requires Granted(p, limit, window) && Count(p, now - window) < limit
    ensures Granted(p + [now], limit, window)
  {
    forall k | 0 <= k < |p + [now]| ensures Count((p + [now])[..k], (p + [now])[k] - window) < limit {
      assert (p + [now])[..k] == p[..k];
      assert p[..|p|] == p;
    }
  }

  lemma GrantedBefore(p: seq<real>, limit: int, window: real, k: nat)
    requires Granted(p, limit, window) && k <= |p|
    ensures Granted(p[..k], limit, window)
  {
    hide Count;
    var before := p[..k];
    forall i | 0 <= i < k ensures Count(before[..i], before[i] - window) < limit {
      assert before[..i] == p[..i] && before[i] == p[i];
    }
  }

  /** So no half-open window of that length ever holds more than limit allowed hits. */
  lemma {:induction false} WindowBudget(p: seq<real>, limit: int, window: real, from: real)
    requires Granted(p, limit, window)
    ensures Within(p, from, from + window) <= if limit < 0 then 0 else limit
  {
    if p != [] {
      var k := |p| - 1;
      if from < p[k] <= from + window {
        assert Count(p[..k], p[k] - window) < limit;
        WindowAtMostCount(p[..k], from, from + window, p[k] - window);
      } else {
        GrantedBefore(p, limit, window, k);
        WindowBudget(p[..k], limit, window, from);
      }
    }
  }

  lemma LimiterKeepsBudget(limiter: SlidingWindowLimiter, key: Key, from: real)
    requires limiter.Valid()
    ensures Within(Get(limiter.history, key), from, from + limiter.window)
            <= if limiter.limit < 0 then 0 else limiter.limit
  {
    WindowBudget(Get(limiter.history, key), limiter.limit, limiter.window, from);
  }

  /** The budget in terms of the hits themselves: of those allowed for a key, no more than limit lie in any
      half-open window. */
  lemma HitsFitTheBudget(limiter: SlidingWindowLimiter, key: Key, from: real)
    requires limiter.Valid()
    ensures |Inside(Get(limiter.history, key), from, from + limiter.window)|
            <= if limiter.limit < 0 then 0 else limiter.limit
  {
    hide SlidingWindowLimiter.Valid, Within;
    LimiterKeepsBudget(limiter, key, from);
    WithinIsSize(Get(limiter.history, key), from, from + limiter.window);
  }

  // ---- The lockout --------------------------------------------------------------------------------

  /** Enough failures are unexpired at time t: the threshold, and at least one. */
  predicate Locked(p: seq<real>, threshold: int, lockout: real, t: real) {
    Count(p, t - lockout) >= 1 && Count(p, t - lockout) >= threshold
  }

  class FailureLockout {
    const threshold: int
    const lockout: real
    var fails: map<Key, seq<real>>
    /** Every failure since the key was last cleared, and the last time seen. */
    ghost var history: map<Key, seq<real>>
    ghost var clock: real

    ghost predicate Valid()
      reads this
    {
      Tracks(fails, history, clock, lockout)
    }

    constructor (threshold: int, lockout: real, ghost start: real)
      ensures Valid() && this.threshold == threshold && this.lockout == lockout && clock == start && history == map[]
    {
      this.threshold, this.lockout := threshold, lockout;
      fails := map[];
      history, clock := map[], start;
    }

    method LockedFor(key: Key, now: real) returns (wait: real)
      requires Valid() && clock <= now
      modifies this
      ensures Valid() && clock == now && history == old(history)
      ensures wait > 0.0 <==> Locked(Get(history, key), threshold, lockout, now)
      ensures wait >= 0.0
      ensures wait > 0.0 ==>
                wait == Wait(Get(history, key), lockout, now)
    {
      hide Follows, Trimmed, Count, Stale;
      PassTime(now);
      ghost var p := Get(history, key);
      assert Follows(Get(fails, key), p, now, lockout);
      TrimmedFollows(Get(fails, key), p, now, lockout);
      if key !in fails || fails[key] == [] { return 0.0; }
      var q := TrimFront(fails[key], now - lockout);
      SettingKeepsTrack(fails, history, now, lockout, key, q, p);
      fails := fails[key := q];
      SameHistory(fails, history, now, lockout, key);
      if q == [] {
        DroppingEmpty(fails, history, now, lockout, key);
        fails := fails - {key};
        return 0.0;
      }
      if |q| >= threshold { return q[0] + lockout - now; }
      return 0.0;
    }

    ghost method PassTime(now: real)
      requires Valid() && clock <= now
      modifies this`clock
      ensures Valid() && clock == now
    {
      PruningKeepsTrack(fails, history, clock, now, lockout, {});
      assert fails - {} == fails;
      clock := now;
    }

    method RecordFailure(key: Key, now: real)
      requires Valid() && clock <= now
      modifies this
      ensures Valid() && clock == now && history == old(history)[key := Get(old(history), key) + [now]]
    {
      hide Follows, Stale;
      PassTime(now);
      PruningKeepsTrack(fails, history, now, now, lockout, Stale(fails, now - lockout));
      if |fails| >= PRUNE_AT {
        fails := fails - Stale(fails, now - lockout);
      }
      var q := if key in fails then fails[key] else [];
      ghost var p := Get(history, key);
      AppendedFollows(q, p, now, lockout);
      SettingKeepsTrack(fails, history, now, lockout, key, q + [now], p + [now]);
      fails := fails[key := q + [now]];
      history := history[key := p + [now]];
    }

    method Clear(key: Key)
      requires Valid()
      modifies this
      ensures Valid() && clock == old(clock) && history == old(history) - {key}
    {
      ClearingKeepsTrack(fails, history, clock, lockout, key);
      fails := fails - {key};
      history := history - {key};
    }
  }

  lemma SameHistory(queues: map<Key, seq<real>>, history: map<Key, seq<real>>, clock: real, window: real, key: Key)
    requires Tracks(queues, history[key := Get(history, key)], clock, window)
    ensures Tracks(queues, history, clock, window)
  {
    hide Follows;
    var history' := history[key := Get(history, key)];
    forall k ensures Follows(Get(queues, k), Get(history, k), clock, window) {
      assert Get(history', k) == Get(history, k);
    }
  }

  lemma DroppingEmpty(queues: map<Key, seq<real>>, history: map<Key, seq<real>>, clock: real, window: real, key: Key)
    requires Tracks(queues, history, clock, window) && Get(queues, key) == []
    ensures Tracks(queues - {key}, history, clock, window)
  {
    hide Follows;
    forall k ensures Follows(Get(queues - {key}, k), Get(history, k), clock, window) {
      assert Get(queues - {key}, k) == Get(queues, k);
    }
  }

  lemma ClearingKeepsTrack(queues: map<Key, seq<real>>, history: map<Key, seq<real>>, clock: real, window: real, key: Key)
    requires Tracks(queues, history, clock, window)
    ensures Tracks(queues - {key}, history - {key}, clock, window)
  {
    var history' := history - {key};
    forall k ensures Follows(Get(queues - {key}, k), Get(history', k), clock, window) {
      if k != key { assert Get(history', k) == Get(history, k); }
    }
  }

  // ---- The wait -----------------------------------------------------------------------------------

  /** Of times in order, at least m > 0 come after cutoff just when the m-th from the end does. */
  lemma {:induction false} CountReaches(p: seq<real>, cutoff: real, m: nat)
    requires Ordered(p) && 0 < m
    ensures Count(p, cutoff) >= m <==> m <= |p| && p[|p| - m] > cutoff
  {
    if p != [] {
      var front := p[..|p| - 1];
      if p[|p| - 1] <= cutoff {
        forall i | 0 <= i < |p| ensures p[i] <= cutoff { assert p[i] <= p[|p| - 1]; }
        NoneAfter(p, cutoff);
      } else if m > 1 {
        CountReaches(front, cutoff, m - 1);
      }
    }
  }

  /** The reported wait, counted from now, for a key locked now. */
  function Wait(p: seq<real>, lockout: real, now: real): real
    requires Count(p, now - lockout) >= 1
  {
    p[|p| - Count(p, now - lockout)] + lockout - now
  }

  /** Barring new failures and clears, the key is locked until just before the m-th failure from the end
      expires, m being the threshold or one. */
  lemma LockedUntil(p: seq<real>, threshold: int, lockout: real, t: real)
    requires Ordered(p)
    ensures var m := if threshold < 1 then 1 else threshold;
            Locked(p, threshold, lockout, t) <==> m <= |p| && t < p[|p| - m] + lockout
  {
    CountReaches(p, t - lockout, if threshold < 1 then 1 else threshold);
  }

  /** A key is locked exactly when it has failures unexpired, and no fewer of them than the threshold. */
  lemma LockedIff(p: seq<real>, threshold: int, lockout: real, t: real)
    ensures var unexpired := Later(p, t - lockout);
            Locked(p, threshold, lockout, t) <==> unexpired != {} && |unexpired| >= threshold
  {
    CountIsSize(p, t - lockout);
  }

  /** The wait ends when the oldest unexpired failure expires. */
  lemma WaitIsTheOldest(p: seq<real>, lockout: real, now: real) returns (i: nat)
    requires Ordered(p) && Count(p, now - lockout) >= 1
    ensures i in Later(p, now - lockout) && Wait(p, lockout, now) == p[i] + lockout - now
    ensures forall j :: j in Later(p, now - lockout) ==> i <= j && p[i] <= p[j]
  {
    var n := Count(p, now - lockout);
    i := |p| - n;
    CountReaches(p, now - lockout, n);
    CountReaches(p, now - lockout, n + 1);
    assert forall j :: 0 <= j < i ==> p[j] <= p[i - 1];
  }

  /** Time alone never locks a key: without a new failure a lock that is gone does not return. */
  lemma LockNeverReturns(p: seq<real>, threshold: int, lockout: real, t: real, later: real)
    requires !Locked(p, threshold, lockout, t) && t <= later
    ensures !Locked(p, threshold, lockout, later)
  {
    CountFalls(p, t - lockout, later - lockout);
  }

  /** The wait never overstates: the key is locked throughout it. */
  lemma WaitNeverOverstates(p: seq<real>, threshold: int, lockout: real, now: real, t: real)
    requires Ordered(p) && Locked(p, threshold, lockout, now) && now <= t < now + Wait(p, lockout, now)
    ensures Locked(p, threshold, lockout, t)
  {
    LockedUntil(p, threshold, lockout, now);
    LockedUntil(p, threshold, lockout, t);
  }

  /** It is exact if and only if the failure whose expiry unlocks the key is as old as the oldest
      unexpired one, so in particular when just threshold failures are unexpired. */
  lemma WaitIsExactIff(p: seq<real>, threshold: int, lockout: real, now: real)
    requires Ordered(p) && Locked(p, threshold, lockout, now)
    ensures var m := if threshold < 1 then 1 else threshold;
            var n := Count(p, now - lockout);
            && (!Locked(p, threshold, lockout, now + Wait(p, lockout, now)) <==> p[|p| - m] == p[|p| - n])
            && (n == m ==> !Locked(p, threshold, lockout, now + Wait(p, lockout, now)))
  {
    LockedUntil(p, threshold, lockout, now + Wait(p, lockout, now));
  }
}
