/** Fixed-window rate limiting: the in-memory limiter, the Redis one, and the traffic they let through. */
module RateLimiter {
  import opened Common

  type Key = string

  datatype Decision = Decision(allowed: bool, retryAfter: int)

  datatype Window = Window(start: real, count: int)

  /** Python's int(): towards zero. */
  function Truncate(x: real): int {
    if x >= 0.0 then x.Floor else -((-x).Floor)
  }

  function Max(a: int, b: int): int {
    if a >= b then a else b
  }

  // ------------------------------------------------------------------ one key

  /** The window a hit at `now` falls into, and the verdict on the hit. */
  function HitWindow(w: Option<Window>, limit: int, seconds: int, now: real): (Window, Decision) {
    var current := if w.Some? then w.value else Window(now, 0);
    var open := if now - current.start >= seconds as real then Window(now, 0) else current;
    var counted := open.(count := open.count + 1);
    var remaining := seconds as real - (now - counted.start);
    (counted,
     if counted.count > limit then Decision(false, Max(1, Truncate(remaining) + 1)) else Decision(true, 0))
  }

  /** What one hit does: it counts in the open window, or opens one if there is none or it is over; it is allowed
      while the count is within the limit, and told otherwise to come back in whole seconds, after the end of
      the window but at most a second after it. */
  lemma VerdictReads(w: Option<Window>, limit: int, seconds: int, now: real)
    requires seconds >= 1 && (w.Some? ==> w.value.start <= now)
    ensures var (after, verdict) := HitWindow(w, limit, seconds, now);
            var over := w.None? || w.value.start + seconds as real <= now;
            && (over ==> after == Window(now, 1))
            && (!over ==> after == Window(w.value.start, w.value.count + 1))
            && (verdict.allowed <==> after.count <= limit)
            && (verdict.allowed ==> verdict.retryAfter == 0)
            && (!verdict.allowed ==>
                && verdict.retryAfter >= 1
                && now + verdict.retryAfter as real > after.start + seconds as real
                && now + verdict.retryAfter as real - 1.0 <= after.start + seconds as real)
  {
  }

  ghost function WindowAfter(limit: int, seconds: int, times: seq<real>): Option<Window> {
    if times == [] then None
    else Some(HitWindow(WindowAfter(limit, seconds, times[..|times| - 1]), limit, seconds, times[|times| - 1]).0)
  }

  /** The verdict on the last hit of `times`. */
  ghost function LastDecision(limit: int, seconds: int, times: seq<real>): Decision
    requires times != []
  {
    HitWindow(WindowAfter(limit, seconds, times[..|times| - 1]), limit, seconds, times[|times| - 1]).1
  }

  ghost predicate Monotone(times: seq<real>) {
    forall i, j :: 0 <= i < j < |times| ==> times[i] <= times[j]
  }

  /** How many hits of `times` made in [from, to) were allowed. */
  ghost function AllowedIn(limit: int, seconds: int, times: seq<real>, from: real, to: real): int {
    if times == [] then 0
    else
      AllowedIn(limit, seconds, times[..|times| - 1], from, to)
      + (if from <= times[|times| - 1] < to && LastDecision(limit, seconds, times).allowed then 1 else 0)
  }

  function Min(a: int, b: int): int {
    if a <= b then a else b
  }

  /** What the open window says about the hits allowed so far in [from, from + seconds). */
  ghost predicate Budget(limit: int, from: real, to: real, allowed: int, w: Window) {
    var used := Min(w.count, limit);
    && w.count >= 1
    && (w.start < from ==> allowed <= used - 1)
    && (from <= w.start < to ==> allowed <= limit - 1 + used)
    && allowed <= 2 * limit - 1
  }

  lemma {:induction false} BudgetHolds(limit: int, seconds: int, times: seq<real>, from: real)
    requires limit >= 1 && seconds >= 1 && Monotone(times) && times != []
    ensures var to := from + seconds as real;
            var allowed := AllowedIn(limit, seconds, times, from, to);
            && Budget(limit, from, to, allowed, WindowAfter(limit, seconds, times).value)
            && (times[|times| - 1] < from ==> allowed == 0)
            && WindowAfter(limit, seconds, times).value.start <= times[|times| - 1]
  {
    var n := |times| - 1;
    if n > 0 {
      BudgetHolds(limit, seconds, times[..n], from);
      assert times[..n][n - 1] <= times[n];
    } else {
      assert times[..n] == [];
    }
  }

  /** On one key, fewer than twice the limit are ever allowed within one window's length, wherever
      that stretch of time begins. */
  lemma TrafficBound(limit: int, seconds: int, times: seq<real>, from: real)
    requires seconds >= 1 && Monotone(times)
    ensures AllowedIn(limit, seconds, times, from, from + seconds as real) <= Max(0, 2 * limit - 1)
  {
    if limit >= 1 {
      if times != [] {
        BudgetHolds(limit, seconds, times, from);
      }
    } else {
      NothingAllowed(limit, seconds, times, from, from + seconds as real);
    }
  }

  lemma {:induction false} NothingAllowed(limit: int, seconds: int, times: seq<real>, from: real, to: real)
    requires limit <= 0
    ensures AllowedIn(limit, seconds, times, from, to) == 0
    ensures WindowAfter(limit, seconds, times).Some? ==> WindowAfter(limit, seconds, times).value.count >= 1
  {
    if times != [] {
      NothingAllowed(limit, seconds, times[..|times| - 1], from, to);
    }
  }

  /** One hit opens a window, the rest of the limit comes half way through it, and the next limit's
      worth as soon as it is over. */
  ghost function Burst(limit: int, seconds: int, n: nat): seq<real> {
    seq(n, i requires 0 <= i < n => if i == 0 then 0.0 else if i < limit then seconds as real / 2.0
        else seconds as real)
  }

  lemma {:induction false} BurstIsAllowed(limit: int, seconds: int, n: nat)
    requires limit >= 1 && seconds >= 1 && n <= 2 * limit
    ensures var from := seconds as real / 2.0;
            AllowedIn(limit, seconds, Burst(limit, seconds, n), from, from + seconds as real) == Max(0, n - 1)
    ensures n >= 1 ==> WindowAfter(limit, seconds, Burst(limit, seconds, n))
                       == Some(if n <= limit then Window(0.0, n) else Window(seconds as real, n - limit))
  {
    if n >= 1 {
      BurstIsAllowed(limit, seconds, n - 1);
      assert Burst(limit, seconds, n)[..n - 1] == Burst(limit, seconds, n - 1);
    }
  }

  /** For every limit and every window length the bound is reached, by a monotone trace. */
  lemma TrafficBoundIsReached(limit: int, seconds: int) returns (times: seq<real>, from: real)
    requires limit >= 1 && seconds >= 1
    ensures Monotone(times)
    ensures AllowedIn(limit, seconds, times, from, from + seconds as real) == 2 * limit - 1
  {
    times, from := Burst(limit, seconds, 2 * limit), seconds as real / 2.0;
    BurstIsAllowed(limit, seconds, 2 * limit);
  }

  // ------------------------------------------------------------------ Retry-After

  /** The window after further hits on a key whose window is `w`. */
  ghost function Feed(w: Window, limit: int, seconds: int, times: seq<real>): Window {
    if times == [] then w
    else HitWindow(Some(Feed(w, limit, seconds, times[..|times| - 1])), limit, seconds, times[|times| - 1]).0
  }

  ghost function FirstAtOrAfter(times: seq<real>, end: real): nat {
    if times == [] || times[0] >= end then 0 else 1 + FirstAtOrAfter(times[1..], end)
  }

  /** Hits before the window's end leave it in place; the first one after it opens the next, and as
      the rounding adds at most a second, no hit made before the advertised time opens a third. */
  lemma {:induction false} FeedUntilRetry(w: Window, limit: int, seconds: int, times: seq<real>, until: real)
    requires seconds >= 1 && Monotone(times)
    requires forall i :: 0 <= i < |times| ==> w.start <= times[i] < until
    requires until <= w.start + seconds as real + 1.0
    ensures var gap := FirstAtOrAfter(times, w.start + seconds as real);
            && gap <= |times|
            && (gap == |times| ==> Feed(w, limit, seconds, times).start == w.start)
            && (gap < |times| ==> Feed(w, limit, seconds, times) == Window(times[gap], |times| - gap))
  {
    if times != [] {
      var n := |times| - 1;
      FeedUntilRetry(w, limit, seconds, times[..n], until);
      FirstExtends(times, w.start + seconds as real);
    }
  }

  lemma {:induction false} FirstExtends(times: seq<real>, end: real)
    requires times != []
    ensures var n := |times| - 1;
            var before := FirstAtOrAfter(times[..n], end);
            && before <= n
            && FirstAtOrAfter(times, end) == if before < n || times[n] >= end then before else n + 1
    ensures var k := FirstAtOrAfter(times, end); k < |times| ==> times[k] >= end
  {
    var n := |times| - 1;
    if n > 0 && times[0] < end {
      FirstExtends(times[1..], end);
      assert times[..n][1..] == times[1..][..n - 1];
    }
  }

  /** Exactly when the first hit at or after the advertised time gets through: when fewer than
      `limit` hits landed between the window's true end and that time, or a full window has passed
      since the first of them. */
  lemma FirstHitAfterRetry(w: Option<Window>, limit: int, seconds: int, now: real, between: seq<real>, t: real)
    requires seconds >= 1 && limit >= 1
    requires w.Some? ==> w.value.start <= now
    requires !HitWindow(w, limit, seconds, now).1.allowed
    requires var until := now + HitWindow(w, limit, seconds, now).1.retryAfter as real;
             && Monotone(between) && (forall i :: 0 <= i < |between| ==> now <= between[i] < until)
             && until <= t
    ensures var rejecting := HitWindow(w, limit, seconds, now).0;
            var gap := FirstAtOrAfter(between, rejecting.start + seconds as real);
            && gap <= |between|
            && (HitWindow(Some(Feed(rejecting, limit, seconds, between)), limit, seconds, t).1.allowed
                <==> |between| - gap < limit || t - between[gap] >= seconds as real)
  {
    var rejecting := HitWindow(w, limit, seconds, now).0;
    var until := now + HitWindow(w, limit, seconds, now).1.retryAfter as real;
    FeedUntilRetry(rejecting, limit, seconds, between, until);
  }

  /** A client that waits as told, and whose key nobody else uses meanwhile, is served. */
  lemma WaitingAsToldWorks(w: Option<Window>, limit: int, seconds: int, now: real, t: real)
    requires seconds >= 1 && limit >= 1
    requires w.Some? ==> w.value.start <= now
    requires !HitWindow(w, limit, seconds, now).1.allowed
    requires now + HitWindow(w, limit, seconds, now).1.retryAfter as real <= t
    ensures HitWindow(Some(HitWindow(w, limit, seconds, now).0), limit, seconds, t).1.allowed
  {
    FirstHitAfterRetry(w, limit, seconds, now, [], t);
  }

  /** But a hit in the last fraction of a second, after the window's end and before the advertised
      time, can use up the next window: limit 1, rejected at 0.5 until 1.5, served at 1.2. */
  lemma AGapHitCanStealTheTurn()
    ensures var w := Window(0.0, 1);
            var rejected := HitWindow(Some(w), 1, 1, 0.5);
            && rejected.1 == Decision(false, 1)
            && HitWindow(Some(rejected.0), 1, 1, 1.2).1.allowed
            && !HitWindow(Some(HitWindow(Some(rejected.0), 1, 1, 1.2).0), 1, 1, 1.5).1.allowed
  {
  }

  // ------------------------------------------------------------------ many keys

  datatype Hit = Hit(key: Key, at: real)

  /** Per key: the limit and the window length in seconds. */
  type Limits = Key -> (int, int)

  function Lookup<V>(m: map<Key, V>, k: Key): Option<V> {
    if k in m then Some(m[k]) else None
  }

  function MemoryHit(limits: Limits, windows: map<Key, Window>, h: Hit): (map<Key, Window>, Decision) {
    var (limit, seconds) := limits(h.key);
    var (w, d) := HitWindow(Lookup(windows, h.key), limit, seconds, h.at);
    (windows[h.key := w], d)
  }

  ghost function WindowsAfter(limits: Limits, hits: seq<Hit>): map<Key, Window> {
    if hits == [] then map[]
    else MemoryHit(limits, WindowsAfter(limits, hits[..|hits| - 1]), hits[|hits| - 1]).0
  }

  ghost function TimesOf(hits: seq<Hit>, k: Key): seq<real> {
    if hits == [] then []
    else
      TimesOf(hits[..|hits| - 1], k) + (if hits[|hits| - 1].key == k then [hits[|hits| - 1].at] else [])
  }

  /** A key's window depends on that key's own hits alone. */
  lemma {:induction false} KeysAreIndependent(limits: Limits, hits: seq<Hit>, k: Key)
    ensures Lookup(WindowsAfter(limits, hits), k) == WindowAfter(limits(k).0, limits(k).1, TimesOf(hits, k))
  {
    if hits != [] {
      var n := |hits| - 1;
      KeysAreIndependent(limits, hits[..n], k);
      if hits[n].key == k {
        var times := TimesOf(hits[..n], k) + [hits[n].at];
        assert times[..|times| - 1] == TimesOf(hits[..n], k);
      } else {
        assert TimesOf(hits, k) == TimesOf(hits[..n], k);
      }
    }
  }

  /** So is the verdict on each hit. */
  lemma DecisionDependsOnOwnKey(limits: Limits, hits: seq<Hit>, h: Hit)
    ensures MemoryHit(limits, WindowsAfter(limits, hits), h).1
            == LastDecision(limits(h.key).0, limits(h.key).1, TimesOf(hits + [h], h.key))
  {
    KeysAreIndependent(limits, hits, h.key);
    assert (hits + [h])[..|hits|] == hits;
    var times := TimesOf(hits + [h], h.key);
    assert times == TimesOf(hits, h.key) + [h.at];
    assert times[..|times| - 1] == TimesOf(hits, h.key);
  }

  /** How many of the hits on `k` made in [from, to) were allowed, in a trace over all keys. */
  ghost function AllowedOnKey(limits: Limits, hits: seq<Hit>, k: Key, from: real, to: real): int {
    if hits == [] then 0
    else
      var n := |hits| - 1;
      AllowedOnKey(limits, hits[..n], k, from, to)
      + (if hits[n].key == k && from <= hits[n].at < to
         && MemoryHit(limits, WindowsAfter(limits, hits[..n]), hits[n]).1.allowed
         then 1 else 0)
  }

  ghost predicate MonotoneHits(hits: seq<Hit>) {
    forall i, j :: 0 <= i < j < |hits| ==> hits[i].at <= hits[j].at
  }

  lemma {:induction false} AllowedOnOwnTimes(limits: Limits, hits: seq<Hit>, k: Key, from: real, to: real)
    ensures AllowedOnKey(limits, hits, k, from, to) == AllowedIn(limits(k).0, limits(k).1, TimesOf(hits, k), from, to)
  {
    if hits != [] {
      var n := |hits| - 1;
      AllowedOnOwnTimes(limits, hits[..n], k, from, to);
      assert hits == hits[..n] + [hits[n]];
      if hits[n].key == k {
        DecisionDependsOnOwnKey(limits, hits[..n], hits[n]);
        var times := TimesOf(hits, k);
        assert times == TimesOf(hits[..n], k) + [hits[n].at];
        assert times[..|times| - 1] == TimesOf(hits[..n], k);
      } else {
        assert TimesOf(hits, k) == TimesOf(hits[..n], k);
      }
    }
  }

  lemma {:induction false} OwnTimesAreMonotone(hits: seq<Hit>, k: Key)
    requires MonotoneHits(hits)
    ensures Monotone(TimesOf(hits, k))
    ensures forall i :: 0 <= i < |TimesOf(hits, k)| ==> hits != [] && TimesOf(hits, k)[i] <= hits[|hits| - 1].at
  {
    if hits != [] {
      OwnTimesAreMonotone(hits[..|hits| - 1], k);
    }
  }

  /** However many keys are hit in between, no key gets more than its bound in one of its windows' lengths. */
  lemma MixedTrafficBound(limits: Limits, hits: seq<Hit>, k: Key, from: real)
    requires MonotoneHits(hits) && limits(k).1 >= 1
    ensures AllowedOnKey(limits, hits, k, from, from + limits(k).1 as real) <= Max(0, 2 * limits(k).0 - 1)
  {
    var (limit, seconds) := limits(k);
    OwnTimesAreMonotone(hits, k);
    AllowedOnOwnTimes(limits, hits, k, from, from + seconds as real);
    TrafficBound(limit, seconds, TimesOf(hits, k), from);
  }

  class InMemoryRateLimiter {
    var windows: map<Key, Window>

    constructor ()
      ensures windows == map[]
    {
      windows := map[];
    }

    method Hit(key: Key, limit: int, seconds: int, now: real) returns (decision: Decision)
      modifies this
      ensures windows == old(windows)[key := HitWindow(Lookup(old(windows), key), limit, seconds, now).0]
      ensures decision == HitWindow(Lookup(old(windows), key), limit, seconds, now).1
    {
      var start, count := now, 0;
      if key in windows {
        start, count := windows[key].start, windows[key].count;
      }
      if now - start >= seconds as real {
        start, count := now, 0;
      }
      count := count + 1;
      windows := windows[key := Window(start, count)];
      if count > limit {
        var remaining := seconds as real - (now - start);
        return Decision(false, Max(1, Truncate(remaining) + 1));
      }
      return Decision(true, 0);
    }
  }

  // ------------------------------------------------------------------ Redis

  datatype Entry = Entry(count: int, expiresAt: Option<real>) {
    /** A key is gone once its time to live has elapsed. */
    predicate Live(now: real) {
      expiresAt.None? || now < expiresAt.value
    }
  }

  /** The first command that raises, if any; commands before it have taken effect. */
  datatype Fault = NoFault | AtIncr | AtExpire | AtTtl | AtRepair

  function Incr(e: Option<Entry>, now: real): Entry {
    if e.Some? && e.value.Live(now) then e.value.(count := e.value.count + 1) else Entry(1, None)
  }

  /** Whole seconds left, rounded; -1 without an expiry. */
  function Ttl(e: Entry, now: real): int {
    if e.expiresAt.None? then -1 else Max(0, (e.expiresAt.value - now + 0.5).Floor)
  }

  /** The entry after the hit (None: no key) and the verdict. */
  function RedisHit(e: Option<Entry>, limit: int, seconds: int, now: real, fault: Fault): (Option<Entry>, Decision) {
    if fault.AtIncr? then (e, Decision(true, 0))
    else
      var counted := Incr(e, now);
      if counted.count == 1 && fault.AtExpire? then (Some(counted), Decision(true, 0))
      else
        var timed := if counted.count == 1 then counted.(expiresAt := Some(now + seconds as real)) else counted;
        if timed.count <= limit then (Some(timed), Decision(true, 0))
        else if fault.AtTtl? then (Some(timed), Decision(true, 0))
        else
          var ttl := Ttl(timed, now);
          if ttl >= 0 then (Some(timed), Decision(false, Max(1, ttl)))
          else if fault.AtRepair? then (Some(timed), Decision(true, 0))
          else (Some(timed.(expiresAt := Some(now + seconds as real))), Decision(false, Max(1, seconds)))
  }

  class RedisRateLimiter {
    var store: map<Key, Entry>

    method Hit(key: Key, limit: int, seconds: int, now: real, fault: Fault) returns (decision: Decision)
      modifies this
      ensures Lookup(store, key) == RedisHit(Lookup(old(store), key), limit, seconds, now, fault).0
      ensures decision == RedisHit(Lookup(old(store), key), limit, seconds, now, fault).1
      ensures store - {key} == old(store) - {key}
    {
      if fault.AtIncr? {
        return Decision(true, 0);
      }
      store := store[key := Incr(Lookup(store, key), now)];
      var count := store[key].count;
      if count == 1 {
        if fault.AtExpire? {
          return Decision(true, 0);
        }
        store := store[key := store[key].(expiresAt := Some(now + seconds as real))];
      }
      if count <= limit {
        return Decision(true, 0);
      }
      if fault.AtTtl? {
        return Decision(true, 0);
      }
      var ttl := Ttl(store[key], now);
      if ttl < 0 {
        if fault.AtRepair? {
          return Decision(true, 0);
        }
        store := store[key := store[key].(expiresAt := Some(now + seconds as real))];
        ttl := seconds;
      }
      return Decision(false, Max(1, ttl));
    }
  }

  /** Without a failure: the hit counts in the live counter, or starts one that lives for the window; it is
      allowed while the count is within the limit, and told otherwise to come back in the seconds left, rounded
      to the nearest and at least one. */
  lemma RedisVerdictReads(e: Option<Entry>, limit: int, seconds: int, now: real)
    requires seconds >= 1 && (e.Some? ==> e.value.count >= 1)
    ensures var (after, verdict) := RedisHit(e, limit, seconds, now, NoFault);
            var live := e.Some? && (e.value.expiresAt.None? || now < e.value.expiresAt.value);
            && after.Some? && (verdict.allowed <==> after.value.count <= limit)
            && after.value.count == (if live then e.value.count + 1 else 1)
            && (!live ==> after.value.expiresAt == Some(now + seconds as real))
            && (live && e.value.expiresAt.Some? ==> after.value.expiresAt == e.value.expiresAt)
            && (verdict.allowed ==> verdict.retryAfter == 0)
            && (!verdict.allowed ==>
                && after.value.expiresAt.Some? && verdict.retryAfter >= 1
                && var left := after.value.expiresAt.value - now;
                && left > 0.0 && (verdict.retryAfter as real <= left + 0.5 || verdict.retryAfter == 1)
                && verdict.retryAfter as real > left - 0.5)
  {
    assert (seconds as real + 0.5).Floor == seconds;
  }

  /** With a failure: the hit is let through, unless the verdict was reached before; the commands before the
      failure have taken effect, and none after it. */
  lemma FaultsRead(e: Option<Entry>, limit: int, seconds: int, now: real, fault: Fault)
    requires seconds >= 1 && (e.Some? ==> e.value.count >= 1)
    ensures var (after, verdict) := RedisHit(e, limit, seconds, now, fault);
            var live := e.Some? && (e.value.expiresAt.None? || now < e.value.expiresAt.value);
            && (fault.AtIncr? ==> after == e && verdict.allowed)
            && (!fault.AtIncr? ==> after.Some? && after.value.count == if live then e.value.count + 1 else 1)
            && (fault.AtExpire? && !live ==> after.value.expiresAt == None && verdict.allowed)
            && ((fault.AtTtl? || fault.AtRepair?) && !live ==> after.value.expiresAt == Some(now + seconds as real))
            && (!fault.AtIncr? && live && verdict.allowed ==> after.value.expiresAt == e.value.expiresAt)
            && (fault.AtTtl? ==> verdict.allowed || !live)
            && (verdict.allowed ==> verdict.retryAfter == 0)
  {
  }

  ghost function EntryAfter(limit: int, seconds: int, times: seq<real>): Option<Entry> {
    if times == [] then None
    else RedisHit(EntryAfter(limit, seconds, times[..|times| - 1]), limit, seconds, times[|times| - 1], NoFault).0
  }

  /** Redis holds the same counter, expiring when the in-memory window does. */
  ghost predicate SameWindow(w: Option<Window>, e: Option<Entry>, seconds: int) {
    match w
    case None => e.None?
    case Some(window) => window.count >= 1 && e == Some(Entry(window.count, Some(window.start + seconds as real)))
  }

  lemma {:induction false} RedisSimulatesMemory(limit: int, seconds: int, times: seq<real>)
    requires seconds >= 1 && Monotone(times)
    ensures SameWindow(WindowAfter(limit, seconds, times), EntryAfter(limit, seconds, times), seconds)
    ensures times != [] ==> WindowAfter(limit, seconds, times).value.start <= times[|times| - 1]
  {
    if times != [] {
      RedisSimulatesMemory(limit, seconds, times[..|times| - 1]);
    }
  }

  /** Without failures, the two limiters allow exactly the same hits. */
  lemma RedisAllowsTheSameHits(limit: int, seconds: int, times: seq<real>)
    requires seconds >= 1 && Monotone(times) && times != []
    ensures RedisHit(EntryAfter(limit, seconds, times[..|times| - 1]), limit, seconds, times[|times| - 1],
                     NoFault).1.allowed
            == LastDecision(limit, seconds, times).allowed
  {
    RedisSimulatesMemory(limit, seconds, times[..|times| - 1]);
  }

  /** A failure anywhere lets the hit through; only a counter above the limit turns one away. */
  lemma FailureNeverRejects(e: Option<Entry>, limit: int, seconds: int, now: real, fault: Fault)
    requires !RedisHit(e, limit, seconds, now, fault).1.allowed
    ensures Incr(e, now).count > limit
    ensures RedisHit(e, limit, seconds, now, fault) == RedisHit(e, limit, seconds, now, NoFault)
  {
  }

  /** Whatever state failures left behind, a rejection leaves an expiry behind, at most one window
      ahead if it had to be repaired, and the first hit at or after it is allowed: no lock-out. */
  lemma RejectionHealsTheCounter(e: Option<Entry>, limit: int, seconds: int, now: real, fault: Fault, t: real,
                                 fault': Fault)
    requires limit >= 1 && seconds >= 1
    requires !RedisHit(e, limit, seconds, now, fault).1.allowed
    ensures var e' := RedisHit(e, limit, seconds, now, fault).0;
            && e'.Some? && e'.value.expiresAt.Some?
            && (Incr(e, now).expiresAt.None? ==> e'.value.expiresAt.value == now + seconds as real)
            && (e'.value.expiresAt.value <= t ==> RedisHit(e', limit, seconds, t, fault').1.allowed)
  {
  }

  // ------------------------------------------------------------------ Retry-After from Redis

  /** The entry after further hits without failures on a key whose entry is `e`. */
  ghost function FeedRedis(e: Option<Entry>, limit: int, seconds: int, times: seq<real>): Option<Entry> {
    if times == [] then e
    else RedisHit(FeedRedis(e, limit, seconds, times[..|times| - 1]), limit, seconds, times[|times| - 1], NoFault).0
  }

  /** Hits before the expiry only count up; the first one at or after it starts a new counter, which
      outlives all hits made before the advertised time. */
  lemma {:induction false} FeedRedisUntilRetry(e: Entry, limit: int, seconds: int, times: seq<real>, until: real)
    requires limit >= 1 && seconds >= 1 && Monotone(times)
    requires e.count > limit && e.expiresAt.Some? && until <= e.expiresAt.value + 1.0
    requires forall i :: 0 <= i < |times| ==> times[i] < until
    ensures var gap := FirstAtOrAfter(times, e.expiresAt.value);
            var fed := FeedRedis(Some(e), limit, seconds, times);
            && gap <= |times| && fed.Some?
            && (gap == |times| ==> fed.value.count > limit && fed.value.expiresAt == e.expiresAt)
            && (gap < |times| ==> fed == Some(Entry(|times| - gap, Some(times[gap] + seconds as real))))
  {
    if times != [] {
      var n := |times| - 1;
      FeedRedisUntilRetry(e, limit, seconds, times[..n], until);
      FirstExtends(times, e.expiresAt.value);
      HitWithoutFailure(FeedRedis(Some(e), limit, seconds, times[..n]).value, limit, seconds, times[n]);
      hide RedisHit;
    }
  }

  lemma HitWithoutFailure(e: Entry, limit: int, seconds: int, now: real)
    requires limit >= 1 && e.count >= 1 && e.expiresAt.Some?
    ensures RedisHit(Some(e), limit, seconds, now, NoFault).0
            == Some(if e.Live(now) then Entry(e.count + 1, e.expiresAt) else Entry(1, Some(now + seconds as real)))
  {
  }

  lemma RoundedWait(left: real)
    requires left > 0.0
    ensures var wait := Max(1, Max(0, (left + 0.5).Floor)) as real;
            && left - 0.5 <= wait <= left + 1.0
            && (wait >= left <==> left <= 1.0 || left == left.Floor as real || left - left.Floor as real >= 0.5)
  {
    var whole, part := left.Floor, left - left.Floor as real;
    assert (left + 0.5).Floor == if part >= 0.5 then whole + 1 else whole;
  }

  lemma AdvertisedTime(e: Option<Entry>, limit: int, seconds: int, now: real, fault: Fault)
    requires seconds >= 1 && !RedisHit(e, limit, seconds, now, fault).1.allowed
    ensures var (after, verdict) := RedisHit(e, limit, seconds, now, fault);
            && after.Some? && after.value.expiresAt.Some? && after.value.count > limit
            && var left := after.value.expiresAt.value - now;
            && left > 0.0 && verdict.retryAfter == Max(1, Max(0, (left + 0.5).Floor))
  {
    assert (seconds as real + 0.5).Floor == seconds;
  }

  /** Exactly when the first hit at or after the time Redis advertised gets through. If others hit the
      key between its expiry and now, they must have left room in the counter they started, or its
      window must be over. If nobody did, the expiry itself must have come: Redis rounds the time left
      to the nearest second, so the advertised time can be up to half a second too early. */
  lemma RedisFirstHitAfterRetry(e: Option<Entry>, limit: int, seconds: int, now: real, fault: Fault, between: seq<real>,
                                t: real)
    requires seconds >= 1 && limit >= 1
    requires !RedisHit(e, limit, seconds, now, fault).1.allowed
    requires var until := now + RedisHit(e, limit, seconds, now, fault).1.retryAfter as real;
             && Monotone(between) && (forall i :: 0 <= i < |between| ==> now <= between[i] < until)
             && until <= t
    ensures var rejecting := RedisHit(e, limit, seconds, now, fault).0;
            && rejecting.Some? && rejecting.value.expiresAt.Some?
            && var gap := FirstAtOrAfter(between, rejecting.value.expiresAt.value);
            && gap <= |between|
            && (RedisHit(FeedRedis(rejecting, limit, seconds, between), limit, seconds, t, NoFault).1.allowed <==>
                  if gap == |between| then rejecting.value.expiresAt.value <= t
                  else |between| - gap < limit || t - between[gap] >= seconds as real)
  {
    AdvertisedTime(e, limit, seconds, now, fault);
    var (rejecting, verdict) := RedisHit(e, limit, seconds, now, fault);
    hide RedisHit;
    RoundedWait(rejecting.value.expiresAt.value - now);
    FeedRedisUntilRetry(rejecting.value, limit, seconds, between, now + verdict.retryAfter as real);
  }

  /** A client alone on its key that comes back exactly when told is served if and only if rounding did
      not shorten its wait: at most a second was left, or whole seconds, or the rest rounded up. */
  lemma RedisWaitingExactlyAsTold(e: Option<Entry>, limit: int, seconds: int, now: real, fault: Fault)
    requires seconds >= 1 && limit >= 1
    requires !RedisHit(e, limit, seconds, now, fault).1.allowed
    ensures var (rejecting, verdict) := RedisHit(e, limit, seconds, now, fault);
            && rejecting.Some? && rejecting.value.expiresAt.Some?
            && var left := rejecting.value.expiresAt.value - now;
            && (RedisHit(rejecting, limit, seconds, now + verdict.retryAfter as real, NoFault).1.allowed <==>
                  left <= 1.0 || left == left.Floor as real || left - left.Floor as real >= 0.5)
            && RedisHit(rejecting, limit, seconds, now + verdict.retryAfter as real + 0.5, NoFault).1.allowed
  {
    AdvertisedTime(e, limit, seconds, now, fault);
    var (rejecting, verdict) := RedisHit(e, limit, seconds, now, fault);
    hide RedisHit;
    RoundedWait(rejecting.value.expiresAt.value - now);
    var until := now + verdict.retryAfter as real;
    RedisFirstHitAfterRetry(e, limit, seconds, now, fault, [], until);
    RedisFirstHitAfterRetry(e, limit, seconds, now, fault, [], until + 0.5);
  }

  /** An instance: one hit per two seconds allowed, rejected at 0.6, told to wait a second, rejected at 1.6. */
  lemma RedisCanAdvertiseTooEarly()
    ensures EntryAfter(1, 2, [0.0, 0.6]).Some?
    ensures RedisHit(EntryAfter(1, 2, [0.0]), 1, 2, 0.6, NoFault).1 == Decision(false, 1)
    ensures !RedisHit(EntryAfter(1, 2, [0.0, 0.6]), 1, 2, 1.6, NoFault).1.allowed
  {
    assert [0.0, 0.6][..1] == [0.0] && [0.0][..0] == [];
    assert EntryAfter(1, 2, [0.0]) == Some(Entry(1, Some(2.0)));
    assert Ttl(Entry(2, Some(2.0)), 0.6) == 1;
  }
}
