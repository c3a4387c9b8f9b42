/**
 The failover seen from inside: a request that asked Redis while it was in use may be counted there
 after another request has already switched the guard to memory. A request asked at or before
 the switch may still be counted in either store; one asked later is counted in memory.
 */
module RateLimitFailover {
  import opened Wrappers
  import opened RateLimit
  import opened RateLimitLaws

  datatype LateGuard = LateGuard(memory: Memory, redis: map<string, RedisCounter>, failedAt: Option<nat>)

  const LATE_START := LateGuard(Memory(map[], 0), map[], None)

  /** Redis answers the request, which was sent there before the switch. */
  predicate OnRedis(g: LateGuard, r: Request) {
    r.redisAnswers && (g.failedAt.None? || r.askedAt <= g.failedAt.value)
  }

  /** The request is counted: in Redis, however late, or in memory, switching if that is still to do. */
  function LateStep(g: LateGuard, r: Request): (LateGuard, Decision) {
    if OnRedis(g, r) then
      var c := CountInRedis(g.redis, r);
      (g.(redis := g.redis[r.key := c]), Decide(FromRedis(c, r), r))
    else
      var swept := Cleanup(g.memory, r.countedAt);
      var e := CountInMemory(swept.counters, r);
      (LateGuard(swept.(counters := swept.counters[r.key := e]), g.redis,
                 if g.failedAt.None? then Some(r.countedAt) else g.failedAt),
       Decide(e, r))
  }

  /** Without an answer later than the switch, this is the guard that takes each request in one step. */
  lemma PromptStep(g: LateGuard, r: Request)
    requires g.failedAt.Some? ==> g.failedAt.value < r.askedAt
    ensures var (g', d) := LateStep(g, r);
            Step(Guard(g.memory, g.redis, g.failedAt.None?), r) == (Guard(g'.memory, g'.redis, g'.failedAt.None?), d)
  {
  }

  function LateRun(g: LateGuard, rs: seq<Request>): LateGuard
    decreases |rs|
  {
    if rs == [] then g else LateRun(LateStep(g, rs[0]).0, rs[1..])
  }

  /** Requests of `key` admitted while counted, in either store, at a time in [a, b). */
  function LateAdmittedIn(g: LateGuard, rs: seq<Request>, key: string, a: nat, b: nat): nat
    decreases |rs|
  {
    if rs == [] then 0
    else LateHit(g, rs[0], key, a, b) + LateAdmittedIn(LateStep(g, rs[0]).0, rs[1..], key, a, b)
  }

  function LateHit(g: LateGuard, r: Request, key: string, a: nat, b: nat): nat {
    if r.key == key && a <= r.countedAt < b && LateStep(g, r).1.Admitted? then 1 else 0
  }

  // ---------------------------------------------------------------- the bound

  /** The most the Redis counter alone can still admit in [a, a + window) from time `now` on. */
  function RedisAloneRoom(c: Option<RedisCounter>, limit: nat, window: nat, a: nat, now: nat): nat {
    if limit == 0 || now >= a + window then 0
    else if c.Some? && now <= c.value.deadline then
      if c.value.deadline < a then 2 * limit - 1
      else if c.value.deadline < a + window then Remaining(limit, c.value.count) + limit
      else Remaining(limit, c.value.count)
    else if now < a then 2 * limit - 1
    else limit
  }

  lemma RedisAloneStep(c: Option<RedisCounter>, limit: nat, window: nat, a: nat, now: nat, at: nat)
    requires now <= at
    requires c.Some? ==> c.value.count >= 1 && c.value.deadline <= now + window
    ensures var next := RedisNext(c, window, at);
            RedisAloneRoom(c, limit, window, a, now) >=
            Hit(next.count, limit, a, window, at) + RedisAloneRoom(Some(next), limit, window, a, at)
    ensures RedisAloneRoom(c, limit, window, a, now) >= RedisAloneRoom(c, limit, window, a, at)
  {
  }

  /** Windows of the key are one window long and hold at least the request that opened them. */
  ghost predicate LateSound(g: LateGuard, key: string, window: nat, now: nat) {
    && (key in g.memory.counters ==>
          g.memory.counters[key].count >= 1 && g.memory.counters[key].resetAt <= now + window)
    && (key in g.redis ==> g.redis[key].count >= 1 && g.redis[key].deadline <= now + window)
  }

  function LateRoom(g: LateGuard, key: string, limit: nat, window: nat, a: nat, now: nat): nat {
    RedisAloneRoom(Lookup(g.redis, key), limit, window, a, now)
    + MemoryRoom(Lookup(g.memory.counters, key), limit, window, a, now)
  }

  /** What one request does to the two counters of a key. */
  lemma LateKeyAfter(g: LateGuard, r: Request, key: string)
    ensures var (g', d) := LateStep(g, r);
            var (c, e) := (Lookup(g.redis, key), Lookup(g.memory.counters, key));
            var (c', e') := (Lookup(g'.redis, key), Lookup(g'.memory.counters, key));
            if OnRedis(g, r) then
              && e' == e
              && c' == (if r.key == key then Some(RedisNext(c, r.windowMs, r.countedAt)) else c)
              && (r.key == key ==> (d.Admitted? <==> RedisNext(c, r.windowMs, r.countedAt).count <= r.limit))
            else
              && c' == c
              && if r.key == key then
                   && e' == Some(MemoryNext(e, r.windowMs, r.countedAt))
                   && (d.Admitted? <==> MemoryNext(e, r.windowMs, r.countedAt).count <= r.limit)
                 else e' == e || (e'.None? && e.Some? && e.value.resetAt <= r.countedAt)
  {
  }

  lemma LateRoomStep(g: LateGuard, r: Request, key: string, limit: nat, window: nat, a: nat, now: nat)
    requires LateSound(g, key, window, now) && now <= r.countedAt
    requires r.key == key ==> r.limit == limit && r.windowMs == window
    ensures LateSound(LateStep(g, r).0, key, window, r.countedAt)
    ensures LateRoom(g, key, limit, window, a, now) >=
            LateHit(g, r, key, a, a + window) + LateRoom(LateStep(g, r).0, key, limit, window, a, r.countedAt)
  {
    LateKeyAfter(g, r, key);
    RedisAloneStep(Lookup(g.redis, key), limit, window, a, now, r.countedAt);
    MemoryRoomStep(Lookup(g.memory.counters, key), limit, window, a, now, r.countedAt);
  }

  lemma {:induction false} LateWithinRoom(g: LateGuard, rs: seq<Request>, key: string, limit: nat, window: nat, a: nat,
                                          now: nat)
    requires LateSound(g, key, window, now) && Chronological(now, rs)
    requires FixedPolicy(rs, key, limit, window)
    ensures LateAdmittedIn(g, rs, key, a, a + window) <= LateRoom(g, key, limit, window, a, now)
    decreases |rs|
  {
    if rs != [] {
      LateRoomStep(g, rs[0], key, limit, window, a, now);
      LateWithinRoom(LateStep(g, rs[0]).0, rs[1..], key, limit, window, a, rs[0].countedAt);
    }
  }

  /** Even with answers of Redis arriving after the switch, no half-open interval of one window length
      admits more than 4 * limit - 2 requests of a key: 2 * limit - 1 in each store. */
  lemma LateIntervalBound(rs: seq<Request>, key: string, limit: nat, window: nat, a: nat)
    requires Chronological(0, rs) && FixedPolicy(rs, key, limit, window)
    ensures limit == 0 ==> LateAdmittedIn(LATE_START, rs, key, a, a + window) == 0
    ensures limit >= 1 ==> LateAdmittedIn(LATE_START, rs, key, a, a + window) <= 4 * limit - 2
  {
    LateWithinRoom(LATE_START, rs, key, limit, window, a, 0);
  }

  // ---------------------------------------------------------------- the bound is reached

  lemma {:induction false} LateAppend(g: LateGuard, xs: seq<Request>, ys: seq<Request>, key: string, a: nat, b: nat,
                                      from: nat)
    requires Chronological(from, xs) && Chronological(End(from, xs), ys)
    ensures Chronological(from, xs + ys)
    ensures LateRun(g, xs + ys) == LateRun(LateRun(g, xs), ys)
    ensures LateAdmittedIn(g, xs + ys, key, a, b) ==
            LateAdmittedIn(g, xs, key, a, b) + LateAdmittedIn(LateRun(g, xs), ys, key, a, b)
    decreases |xs|
  {
    if xs == [] {
      assert xs + ys == ys;
    } else {
      assert (xs + ys)[0] == xs[0] && (xs + ys)[1..] == xs[1..] + ys;
      LateAppend(LateStep(g, xs[0]).0, xs[1..], ys, key, a, b, xs[0].countedAt);
    }
  }

  /** A request of `KEY` asked at time 0 and counted at `at`. */
  function AskedEarly(limit: nat, window: nat, at: nat, redisAnswers: bool): Request {
    Request(KEY, limit, window, 0, at, at, redisAnswers)
  }

  lemma {:induction false} EarlyChronological(limit: nat, window: nat, at: nat, redisAnswers: bool, n: nat, from: nat)
    requires from <= at
    ensures Chronological(from, Repeat(AskedEarly(limit, window, at, redisAnswers), n))
    decreases n
  {
    if n > 0 {
      var r := AskedEarly(limit, window, at, redisAnswers);
      assert Repeat(r, n)[1..] == Repeat(r, n - 1);
      EarlyChronological(limit, window, at, redisAnswers, n - 1, at);
    }
  }

  /** The two counters of `KEY`, once the switch has happened or before it. */
  ghost predicate Counters(g: LateGuard, c: Option<RedisCounter>, e: Option<Entry>) {
    Lookup(g.redis, KEY) == c && Lookup(g.memory.counters, KEY) == e
  }

  /** A run of requests asked at time 0, where it leaves the counters, and what the interval admitted. */
  ghost predicate LateReached(rs: seq<Request>, limit: nat, window: nat, a: nat, at: nat,
                              c: Option<RedisCounter>, e: Option<Entry>, admitted: nat)
  {
    && Chronological(0, rs) && End(0, rs) <= at && FixedPolicy(rs, KEY, limit, window)
    && Counters(LateRun(LATE_START, rs), c, e)
    && LateAdmittedIn(LATE_START, rs, KEY, a, a + window) == admitted
  }

  /** `n` of them counted in Redis, from any guard with these counters. */
  lemma {:induction false} EarlyInRedis(g: LateGuard, c: Option<RedisCounter>, e: Option<Entry>, limit: nat,
                                        window: nat, at: nat, n: nat, a: nat)
    requires Counters(g, c, e) && n >= 1 && window >= 1
    requires RedisNext(c, window, at).count + n - 1 <= limit
    ensures var burst := Repeat(AskedEarly(limit, window, at, true), n);
            var next := RedisNext(c, window, at);
            && LateAdmittedIn(g, burst, KEY, a, a + window) == (if a <= at < a + window then n else 0)
            && Counters(LateRun(g, burst), Some(next.(count := next.count + n - 1)), e)
    decreases n
  {
    var r := AskedEarly(limit, window, at, true);
    var rs := Repeat(r, n);
    assert rs[0] == r && rs[1..] == Repeat(r, n - 1);
    LateKeyAfter(g, r, KEY);
    if n > 1 {
      EarlyInRedis(LateStep(g, r).0, Some(RedisNext(c, window, at)), e, limit, window, at, n - 1, a);
    } else {
      assert rs[1..] == [];
    }
  }

  lemma {:induction false} EarlyInMemory(g: LateGuard, c: Option<RedisCounter>, e: Option<Entry>, limit: nat,
                                         window: nat, at: nat, n: nat, a: nat)
    requires Counters(g, c, e) && n >= 1 && window >= 1
    requires MemoryNext(e, window, at).count + n - 1 <= limit
    ensures var burst := Repeat(AskedEarly(limit, window, at, false), n);
            var next := MemoryNext(e, window, at);
            && LateAdmittedIn(g, burst, KEY, a, a + window) == (if a <= at < a + window then n else 0)
            && Counters(LateRun(g, burst), c, Some(next.(count := next.count + n - 1)))
    decreases n
  {
    var r := AskedEarly(limit, window, at, false);
    var rs := Repeat(r, n);
    assert rs[0] == r && rs[1..] == Repeat(r, n - 1);
    LateKeyAfter(g, r, KEY);
    if n > 1 {
      EarlyInMemory(LateStep(g, r).0, c, Some(MemoryNext(e, window, at)), limit, window, at, n - 1, a);
    } else {
      assert rs[1..] == [];
    }
  }

  /** `n` more early requests, all counted at `at`. */
  lemma AddEarly(rs: seq<Request>, limit: nat, window: nat, a: nat, at: nat, redisAnswers: bool, n: nat)
    returns (more: seq<Request>)
    requires Chronological(0, rs) && End(0, rs) <= at && FixedPolicy(rs, KEY, limit, window) && n >= 1
    ensures var burst := Repeat(AskedEarly(limit, window, at, redisAnswers), n);
            && Chronological(0, more) && End(0, more) == at && FixedPolicy(more, KEY, limit, window)
            && LateRun(LATE_START, more) == LateRun(LateRun(LATE_START, rs), burst)
            && LateAdmittedIn(LATE_START, more, KEY, a, a + window) ==
               LateAdmittedIn(LATE_START, rs, KEY, a, a + window)
               + LateAdmittedIn(LateRun(LATE_START, rs), burst, KEY, a, a + window)
  {
    var burst := Repeat(AskedEarly(limit, window, at, redisAnswers), n);
    more := rs + burst;
    EarlyChronological(limit, window, at, redisAnswers, n, End(0, rs));
    LateAppend(LATE_START, rs, burst, KEY, a, a + window, 0);
  }

  lemma AddInRedis(rs: seq<Request>, limit: nat, window: nat, a: nat, from: nat,
                   c: Option<RedisCounter>, e: Option<Entry>, admitted: nat, at: nat, n: nat)
    returns (more: seq<Request>)
    requires LateReached(rs, limit, window, a, from, c, e, admitted) && from <= at && window >= 1 && n >= 1
    requires RedisNext(c, window, at).count + n - 1 <= limit
    ensures var next := RedisNext(c, window, at);
            LateReached(more, limit, window, a, at, Some(next.(count := next.count + n - 1)), e,
                        admitted + if a <= at < a + window then n else 0)
  {
    more := AddEarly(rs, limit, window, a, at, true, n);
    EarlyInRedis(LateRun(LATE_START, rs), c, e, limit, window, at, n, a);
  }

  lemma AddInMemory(rs: seq<Request>, limit: nat, window: nat, a: nat, from: nat,
                    c: Option<RedisCounter>, e: Option<Entry>, admitted: nat, at: nat, n: nat)
    returns (more: seq<Request>)
    requires LateReached(rs, limit, window, a, from, c, e, admitted) && from <= at && window >= 1 && n >= 1
    requires MemoryNext(e, window, at).count + n - 1 <= limit
    ensures var next := MemoryNext(e, window, at);
            LateReached(more, limit, window, a, at, c, Some(next.(count := next.count + n - 1)),
                        admitted + if a <= at < a + window then n else 0)
  {
    more := AddEarly(rs, limit, window, a, at, false, n);
    EarlyInMemory(LateRun(LATE_START, rs), c, e, limit, window, at, n, a);
  }

  /** Before the interval: one window opened in each store, in Redis at time 0, in memory at 1. */
  lemma OpenBoth(limit: nat, window: nat) returns (rs: seq<Request>)
    requires limit >= 1 && window >= 2
    ensures LateReached(rs, limit, window, 2, 1, Some(RedisCounter(1, window)), Some(Entry(1, window + 1)), 0)
  {
    rs := AddInRedis([], limit, window, 2, 0, None, None, 0, 0, 1);
    rs := AddInMemory(rs, limit, window, 2, 0, Some(RedisCounter(1, window)), None, 0, 1, 1);
  }

  /** Inside it: both windows filled at time 2. */
  lemma FillBoth(limit: nat, window: nat) returns (rs: seq<Request>)
    requires limit >= 1 && window >= 2
    ensures LateReached(rs, limit, window, 2, 2, Some(RedisCounter(limit, window)), Some(Entry(limit, window + 1)),
                        2 * limit - 2)
  {
    rs := OpenBoth(limit, window);
    if limit > 1 {
      var c, e := RedisCounter(1, window), Entry(1, window + 1);
      rs := AddInRedis(rs, limit, window, 2, 1, Some(c), Some(e), 0, 2, limit - 1);
      rs := AddInMemory(rs, limit, window, 2, 2, Some(RedisCounter(limit, window)), Some(e), limit - 1, 2, limit - 1);
    }
  }

  /** The bound is reached, for every limit and every window of two or more: then the next window of
      each store is filled before the interval ends. */
  lemma LateBoundReached(limit: nat, window: nat) returns (rs: seq<Request>)
    requires limit >= 1 && window >= 2
    ensures Chronological(0, rs) && FixedPolicy(rs, KEY, limit, window)
    ensures LateAdmittedIn(LATE_START, rs, KEY, 2, 2 + window) == 4 * limit - 2
  {
    rs := FillBoth(limit, window);
    var at := window + 1;
    var c, e := RedisCounter(limit, window), Entry(limit, at);
    rs := AddInRedis(rs, limit, window, 2, 2, Some(c), Some(e), 2 * limit - 2, at, limit);
    c := RedisCounter(limit, at + window);
    rs := AddInMemory(rs, limit, window, 2, at, Some(c), Some(e), 3 * limit - 2, at, limit);
  }
}
