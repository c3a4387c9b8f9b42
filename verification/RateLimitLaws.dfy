/**
 What the limiter promises over whole runs: how many requests any interval of one window length
 can admit (exactly), that the sweep cannot be observed, and that Retry-After is tight.
 */
module RateLimitLaws {
  import opened Wrappers
  import opened RateLimit

  // ---------------------------------------------------------------- the sweep

  function PlainStep(g: Guard, r: Request): (Guard, Decision) {
    if g.redisEnabled && r.redisAnswers then Step(g, r)
    else
      var e := CountInMemory(g.memory.counters, r);
      (Guard(g.memory.(counters := g.memory.counters[r.key := e]), g.redis, false), Decide(e, r))
  }

  function PlainDecisions(g: Guard, rs: seq<Request>): seq<Decision>
    decreases |rs|
  {
    if rs == [] then [] else [PlainStep(g, rs[0]).1] + PlainDecisions(PlainStep(g, rs[0]).0, rs[1..])
  }

  /** The swept map lacks only entries whose window is over. */
  ghost predicate Agree(swept: Guard, plain: Guard, now: nat) {
    && swept.redis == plain.redis && swept.redisEnabled == plain.redisEnabled
    && swept.memory.counters.Keys <= plain.memory.counters.Keys
    && (forall k :: k in swept.memory.counters ==> swept.memory.counters[k] == plain.memory.counters[k])
    && (forall k :: k in plain.memory.counters && k !in swept.memory.counters ==>
          plain.memory.counters[k].resetAt <= now)
  }

  lemma AgreeStep(swept: Guard, plain: Guard, r: Request, now: nat)
    requires Agree(swept, plain, now) && now <= r.countedAt
    ensures Step(swept, r).1 == PlainStep(plain, r).1
    ensures Agree(Step(swept, r).0, PlainStep(plain, r).0, r.countedAt)
  {
    var cleaned := Cleanup(swept.memory, r.countedAt);
    assert forall k :: k in cleaned.counters ==> k in swept.memory.counters;
  }

  lemma {:induction false} AgreeRun(swept: Guard, plain: Guard, rs: seq<Request>, now: nat)
    requires Agree(swept, plain, now) && Chronological(now, rs)
    ensures Decisions(swept, rs) == PlainDecisions(plain, rs)
    decreases |rs|
  {
    if rs != [] {
      AgreeStep(swept, plain, rs[0], now);
      AgreeRun(Step(swept, rs[0]).0, PlainStep(plain, rs[0]).0, rs[1..], rs[0].countedAt);
    }
  }

  /** Every decision, Retry-After value and remaining count is the one a map that is never swept
      would give, with or without Redis and across the failover. */
  lemma CleanupUnobservable(rs: seq<Request>, redisEnabled: bool)
    requires Chronological(0, rs)
    ensures Decisions(Start(redisEnabled), rs) == PlainDecisions(Start(redisEnabled), rs)
  {
    AgreeRun(Start(redisEnabled), Start(redisEnabled), rs, 0);
  }

  // ---------------------------------------------------------------- any interval of one window

  /** Requests of `key` admitted while counted at a time in [a, b). */
  function AdmittedIn(g: Guard, rs: seq<Request>, key: string, a: nat, b: nat): nat
    decreases |rs|
  {
    if rs == [] then 0
    else
      var (next, d) := Step(g, rs[0]);
      (if rs[0].key == key && a <= rs[0].countedAt < b && d.Admitted? then 1 else 0)
      + AdmittedIn(next, rs[1..], key, a, b)
  }

  /** The key keeps one limit and one window through the run. */
  ghost predicate FixedPolicy(rs: seq<Request>, key: string, limit: nat, window: nat) {
    forall i :: 0 <= i < |rs| && rs[i].key == key ==> rs[i].limit == limit && rs[i].windowMs == window
  }

  function Remaining(limit: nat, count: nat): nat {
    if count < limit then limit - count else 0
  }

  /** The most the in-memory counter can still admit in [a, a + window) from time `now` on. */
  function MemoryRoom(e: Option<Entry>, limit: nat, window: nat, a: nat, now: nat): nat {
    if limit == 0 || now >= a + window then 0
    else if e.Some? && e.value.resetAt > now then
      if e.value.resetAt <= a then 2 * limit - 1
      else if e.value.resetAt < a + window then Remaining(limit, e.value.count) + limit
      else Remaining(limit, e.value.count)
    else if now < a then 2 * limit - 1
    else limit
  }

  /** The same while Redis still answers: its own windows, and then those of a memory counter. */
  function RedisRoom(c: Option<RedisCounter>, limit: nat, window: nat, a: nat, now: nat): nat {
    if limit == 0 || now >= a + window then 0
    else if c.Some? && now <= c.value.deadline then
      if c.value.deadline < a then 3 * limit - 1
      else if c.value.deadline < a + window then Remaining(limit, c.value.count) + 2 * limit
      else Remaining(limit, c.value.count) + limit
    else if now < a then 3 * limit - 1
    else 2 * limit
  }

  function Room(g: Guard, key: string, limit: nat, window: nat, a: nat, now: nat): nat {
    if g.redisEnabled then RedisRoom(Lookup(g.redis, key), limit, window, a, now)
    else MemoryRoom(Lookup(g.memory.counters, key), limit, window, a, now)
  }

  /** Windows of the key are one window long and hold at least the request that opened them; nothing
      is counted in memory while Redis answers. */
  ghost predicate Sound(g: Guard, key: string, window: nat, now: nat) {
    && (key in g.memory.counters ==>
          g.memory.counters[key].count >= 1 && g.memory.counters[key].resetAt <= now + window)
    && (key in g.redis ==> g.redis[key].count >= 1 && g.redis[key].deadline <= now + window)
    && (g.redisEnabled ==> key !in g.memory.counters)
  }

  function MemoryNext(e: Option<Entry>, window: nat, at: nat): Entry {
    if e.None? || e.value.resetAt <= at then Entry(1, at + window) else e.value.(count := e.value.count + 1)
  }

  function RedisNext(c: Option<RedisCounter>, window: nat, at: nat): RedisCounter {
    if c.None? || at > c.value.deadline then RedisCounter(1, at + window) else c.value.(count := c.value.count + 1)
  }

  /** 1 for a request admitted at `at` inside the interval. */
  function Hit(count: nat, limit: nat, a: nat, window: nat, at: nat): nat {
    if a <= at < a + window && count <= limit then 1 else 0
  }

  /** One request counted in memory uses up the room it is admitted into. */
  lemma MemoryRoomStep(e: Option<Entry>, limit: nat, window: nat, a: nat, now: nat, at: nat)
    requires now <= at
    requires e.Some? ==> e.value.count >= 1 && e.value.resetAt <= now + window
    ensures var next := MemoryNext(e, window, at);
            MemoryRoom(e, limit, window, a, now) >=
            Hit(next.count, limit, a, window, at) + MemoryRoom(Some(next), limit, window, a, at)
    ensures MemoryRoom(e, limit, window, a, now) >= MemoryRoom(e, limit, window, a, at)
    ensures e.Some? && e.value.resetAt <= at ==>
              MemoryRoom(e, limit, window, a, at) == MemoryRoom(None, limit, window, a, at)
  {
  }

  lemma RedisRoomStep(c: Option<RedisCounter>, limit: nat, window: nat, a: nat, now: nat, at: nat)
    requires now <= at
    requires c.Some? ==> c.value.count >= 1 && c.value.deadline <= now + window
    ensures var next := RedisNext(c, window, at);
            RedisRoom(c, limit, window, a, now) >=
            Hit(next.count, limit, a, window, at) + RedisRoom(Some(next), limit, window, a, at)
    ensures RedisRoom(c, limit, window, a, now) >= RedisRoom(c, limit, window, a, at)
    ensures RedisRoom(c, limit, window, a, now) >= MemoryRoom(None, limit, window, a, now)
  {
  }

  /** What one request does to one key of the memory store. */
  lemma KeyAfterMemory(g: Guard, r: Request, key: string)
    requires !g.redisEnabled || !r.redisAnswers
    ensures var e := Lookup(g.memory.counters, key);
            var e' := Lookup(Step(g, r).0.memory.counters, key);
            if r.key == key then
              e' == Some(MemoryNext(e, r.windowMs, r.countedAt))
              && (Step(g, r).1.Admitted? <==> MemoryNext(e, r.windowMs, r.countedAt).count <= r.limit)
            else e' == e || (e'.None? && e.Some? && e.value.resetAt <= r.countedAt)
  {
  }

  lemma KeyAfterRedis(g: Guard, r: Request, key: string)
    requires g.redisEnabled && r.redisAnswers
    ensures var c := Lookup(g.redis, key);
            var c' := Lookup(Step(g, r).0.redis, key);
            if r.key == key then
              c' == Some(RedisNext(c, r.windowMs, r.countedAt))
              && (Step(g, r).1.Admitted? <==> RedisNext(c, r.windowMs, r.countedAt).count <= r.limit)
            else c' == c
  {
  }

  lemma SoundStep(g: Guard, r: Request, key: string, window: nat, now: nat)
    requires Sound(g, key, window, now) && now <= r.countedAt
    requires r.key == key ==> r.windowMs == window
    ensures Sound(Step(g, r).0, key, window, r.countedAt)
  {
    if g.redisEnabled && r.redisAnswers {
      KeyAfterRedis(g, r, key);
    } else {
      KeyAfterMemory(g, r, key);
    }
  }

  function HitOf(g: Guard, r: Request, key: string, a: nat, b: nat): nat {
    if r.key == key && a <= r.countedAt < b && Step(g, r).1.Admitted? then 1 else 0
  }

  lemma RoomStepMemory(g: Guard, r: Request, key: string, limit: nat, window: nat, a: nat, now: nat)
    requires Sound(g, key, window, now) && now <= r.countedAt
    requires r.key == key ==> r.limit == limit && r.windowMs == window
    requires !g.redisEnabled || !r.redisAnswers
    ensures MemoryRoom(Lookup(g.memory.counters, key), limit, window, a, now) >=
            HitOf(g, r, key, a, a + window)
            + MemoryRoom(Lookup(Step(g, r).0.memory.counters, key), limit, window, a, r.countedAt)
  {
    MemoryRoomStep(Lookup(g.memory.counters, key), limit, window, a, now, r.countedAt);
    KeyAfterMemory(g, r, key);
  }

  lemma RoomStep(g: Guard, r: Request, key: string, limit: nat, window: nat, a: nat, now: nat)
    requires Sound(g, key, window, now) && now <= r.countedAt
    requires r.key == key ==> r.limit == limit && r.windowMs == window
    ensures Room(g, key, limit, window, a, now) >=
            HitOf(g, r, key, a, a + window) + Room(Step(g, r).0, key, limit, window, a, r.countedAt)
  {
    if g.redisEnabled && r.redisAnswers {
      RedisRoomStep(Lookup(g.redis, key), limit, window, a, now, r.countedAt);
      KeyAfterRedis(g, r, key);
    } else {
      RoomStepMemory(g, r, key, limit, window, a, now);
      if g.redisEnabled {
        RedisRoomStep(Lookup(g.redis, key), limit, window, a, now, r.countedAt);
      }
    }
  }

  lemma {:induction false} AdmittedWithinRoom(g: Guard, rs: seq<Request>, key: string, limit: nat, window: nat, a: nat,
                                              now: nat)
    requires Sound(g, key, window, now) && Chronological(now, rs)
    requires FixedPolicy(rs, key, limit, window)
    ensures AdmittedIn(g, rs, key, a, a + window) <= Room(g, key, limit, window, a, now)
    decreases |rs|
  {
    if rs != [] {
      SoundStep(g, rs[0], key, window, now);
      RoomStep(g, rs[0], key, limit, window, a, now);
      AdmittedWithinRoom(Step(g, rs[0]).0, rs[1..], key, limit, window, a, rs[0].countedAt);
    }
  }

  /** No half-open interval of one window length admits more than 2 * limit - 1 requests of a key
      in a memory-only run, nor more than 3 * limit - 1 across a failover from Redis. */
  lemma AnyIntervalBound(rs: seq<Request>, redisEnabled: bool, key: string, limit: nat, window: nat, a: nat)
    requires Chronological(0, rs) && FixedPolicy(rs, key, limit, window)
    ensures limit == 0 ==> AdmittedIn(Start(redisEnabled), rs, key, a, a + window) == 0
    ensures limit >= 1 ==>
              AdmittedIn(Start(redisEnabled), rs, key, a, a + window) <= (if redisEnabled then 3 else 2) * limit - 1
  {
    AdmittedWithinRoom(Start(redisEnabled), rs, key, limit, window, a, 0);
  }

  // ---------------------------------------------------------------- the bound is reached

  const KEY := "ip:POST:/auth/login"

  function Ask(limit: nat, window: nat, at: nat, redisAnswers: bool): Request {
    Request(KEY, limit, window, at, at, at, redisAnswers)
  }

  lemma {:induction false} BurstChronological(r: Request, n: nat, from: nat)
    requires r.askedAt == r.countedAt == r.answeredAt && from <= r.countedAt
    ensures Chronological(from, Repeat(r, n))
    decreases n
  {
    if n > 0 {
      assert Repeat(r, n)[1..] == Repeat(r, n - 1);
      BurstChronological(r, n - 1, r.countedAt);
    }
  }

  ghost function End(from: nat, rs: seq<Request>): nat {
    if rs == [] then from else rs[|rs| - 1].countedAt
  }

  lemma {:induction false} Append(g: Guard, xs: seq<Request>, ys: seq<Request>, key: string, a: nat, b: nat, from: nat)
    requires Chronological(from, xs) && Chronological(End(from, xs), ys)
    ensures Chronological(from, xs + ys)
    ensures Run(g, xs + ys) == Run(Run(g, xs), ys)
    ensures AdmittedIn(g, xs + ys, key, a, b) == AdmittedIn(g, xs, key, a, b) + AdmittedIn(Run(g, xs), ys, key, a, b)
    decreases |xs|
  {
    if xs == [] {
      assert xs + ys == ys;
    } else {
      assert (xs + ys)[0] == xs[0] && (xs + ys)[1..] == xs[1..] + ys;
      Append(Step(g, xs[0]).0, xs[1..], ys, key, a, b, xs[0].countedAt);
    }
  }

  /** The count the next request of the key would get in the store that judges it. */
  function NextCount(g: Guard, r: Request): nat {
    if g.redisEnabled && r.redisAnswers then CountInRedis(g.redis, r).count
    else CountInMemory(Cleanup(g.memory, r.countedAt).counters, r).count
  }

  /** When the window the request is counted in ends. */
  function WindowEnd(g: Guard, r: Request): nat {
    if g.redisEnabled && r.redisAnswers then CountInRedis(g.redis, r).deadline
    else CountInMemory(Cleanup(g.memory, r.countedAt).counters, r).resetAt
  }

  lemma {:induction false} BurstAdmitted(g: Guard, r: Request, n: nat, a: nat, b: nat)
    requires n >= 1 && r.windowMs >= 1
    requires NextCount(g, r) + n - 1 <= r.limit
    ensures AdmittedIn(g, Repeat(r, n), r.key, a, b) == if a <= r.countedAt < b then n else 0
    ensures var g' := Run(g, Repeat(r, n));
            if g.redisEnabled && r.redisAnswers then
              && g'.redisEnabled && g'.memory == g.memory
              && r.key in g'.redis
              && g'.redis[r.key] == RedisCounter(NextCount(g, r) + n - 1, WindowEnd(g, r))
            else
              && !g'.redisEnabled
              && r.key in g'.memory.counters
              && g'.memory.counters[r.key] == Entry(NextCount(g, r) + n - 1, WindowEnd(g, r))
    decreases n
  {
    var rs := Repeat(r, n);
    assert rs[0] == r && rs[1..] == Repeat(r, n - 1);
    var g1 := Step(g, r).0;
    if n > 1 {
      assert WindowEnd(g, r) >= r.countedAt;
      assert WindowEnd(g1, r) == WindowEnd(g, r);
      assert NextCount(g1, r) == NextCount(g, r) + 1;
      BurstAdmitted(g1, r, n - 1, a, b);
    } else {
      assert rs[1..] == [];
    }
  }

  /** A run of the key, where it leads, and how many of its requests the interval admitted. */
  ghost predicate Reached(redisEnabled: bool, rs: seq<Request>, limit: nat, window: nat, a: nat,
                          at: nat, g: Guard, admitted: nat)
  {
    && Chronological(0, rs) && End(0, rs) <= at && FixedPolicy(rs, KEY, limit, window)
    && Run(Start(redisEnabled), rs) == g
    && AdmittedIn(Start(redisEnabled), rs, KEY, a, a + window) == admitted
  }

  lemma Continue(redisEnabled: bool, rs: seq<Request>, limit: nat, window: nat, a: nat, at: nat, g: Guard,
                 admitted: nat,
                 r: Request, n: nat)
    returns (more: seq<Request>)
    requires Reached(redisEnabled, rs, limit, window, a, at, g, admitted)
    requires r == Ask(limit, window, r.countedAt, r.redisAnswers) && at <= r.countedAt && window >= 1
    requires n >= 1 ==> NextCount(g, r) + n - 1 <= limit
    ensures Reached(redisEnabled, more, limit, window, a, r.countedAt, Run(g, Repeat(r, n)),
                    admitted + if a <= r.countedAt < a + window then n else 0)
  {
    more := rs + Repeat(r, n);
    BurstChronological(r, n, End(0, rs));
    Append(Start(redisEnabled), rs, Repeat(r, n), KEY, a, a + window, 0);
    if n >= 1 {
      BurstAdmitted(g, r, n, a, a + window);
    }
  }

  /** Two windows of one store around the start of the interval: open one just before it, fill that
      inside, and fill the next one. (Redis keeps a window one millisecond longer.) */
  lemma Straddle(inRedis: bool, limit: nat, window: nat, a: nat) returns (rs: seq<Request>, g: Guard)
    requires limit >= 1 && window >= 2 && a == if inRedis then 2 else 1
    ensures Reached(inRedis, rs, limit, window, a, window + a - 1, g, 2 * limit - 1)
    ensures g.redisEnabled == inRedis
    ensures inRedis ==> g.memory == Start(true).memory
  {
    var r1, r2, r3 := Ask(limit, window, 0, inRedis), Ask(limit, window, a, inRedis),
      Ask(limit, window, window + a - 1, inRedis);
    var g0 := Start(inRedis);
    rs := Continue(inRedis, [], limit, window, a, 0, g0, 0, r1, 1);
    BurstAdmitted(g0, r1, 1, a, a + window);
    var g1 := Run(g0, Repeat(r1, 1));
    rs := Continue(inRedis, rs, limit, window, a, 0, g1, 0, r2, limit - 1);
    var g2 := Run(g1, Repeat(r2, limit - 1));
    if limit > 1 {
      BurstAdmitted(g1, r2, limit - 1, a, a + window);
    }
    rs := Continue(inRedis, rs, limit, window, a, a, g2, limit - 1, r3, limit);
    BurstAdmitted(g2, r3, limit, a, a + window);
    g := Run(g2, Repeat(r3, limit));
  }

  /** The memory-only bound is reached for every limit and every window of two or more. */
  lemma MemoryBoundReached(limit: nat, window: nat) returns (rs: seq<Request>)
    requires limit >= 1 && window >= 2
    ensures Chronological(0, rs) && FixedPolicy(rs, KEY, limit, window)
    ensures AdmittedIn(Start(false), rs, KEY, 1, 1 + window) == 2 * limit - 1
  {
    var g;
    rs, g := Straddle(false, limit, window, 1);
  }

  /** So is the bound across a failover: two windows of Redis, then one of memory. */
  lemma FailoverBoundReached(limit: nat, window: nat) returns (rs: seq<Request>)
    requires limit >= 1 && window >= 2
    ensures Chronological(0, rs) && FixedPolicy(rs, KEY, limit, window)
    ensures AdmittedIn(Start(true), rs, KEY, 2, 2 + window) == 3 * limit - 1
  {
    var g;
    rs, g := Straddle(true, limit, window, 2);
    var r := Ask(limit, window, window + 1, false);
    assert NextCount(g, r) == 1;
    rs := Continue(true, rs, limit, window, 2, window + 1, g, 2 * limit - 1, r, limit);
  }

  // ---------------------------------------------------------------- Retry-After

  /** A run in which the key's open window lasts, full, until `resetAt`. */
  lemma {:induction false} FullWindowLasts(g: Guard, rs: seq<Request>, key: string, limit: nat, resetAt: nat, now: nat)
    requires Chronological(now, rs) && !g.redisEnabled
    requires key in g.memory.counters && g.memory.counters[key].resetAt == resetAt
    requires g.memory.counters[key].count > limit
    requires forall i :: 0 <= i < |rs| && rs[i].key == key ==> rs[i].countedAt < resetAt
    ensures var g' := Run(g, rs);
            && !g'.redisEnabled
            && (key in g'.memory.counters ==>
                  g'.memory.counters[key].resetAt == resetAt && g'.memory.counters[key].count > limit)
            && (End(now, rs) < resetAt ==> key in g'.memory.counters)
    decreases |rs|
  {
    if rs != [] {
      var g1 := Step(g, rs[0]).0;
      if key in g1.memory.counters {
        FullWindowLasts(g1, rs[1..], key, limit, resetAt, rs[0].countedAt);
      } else {
        EntryStaysAway(g1, rs[1..], key, rs[0].countedAt, resetAt);
        EndNotBefore(rs[0].countedAt, rs[1..]);
      }
    }
  }

  lemma {:induction false} EndNotBefore(from: nat, rs: seq<Request>)
    requires Chronological(from, rs)
    ensures from <= End(from, rs)
    decreases |rs|
  {
    if rs != [] {
      EndNotBefore(rs[0].countedAt, rs[1..]);
    }
  }

  lemma {:induction false} EntryStaysAway(g: Guard, rs: seq<Request>, key: string, now: nat, resetAt: nat)
    requires Chronological(now, rs) && !g.redisEnabled && key !in g.memory.counters && resetAt <= now
    requires forall i :: 0 <= i < |rs| && rs[i].key == key ==> rs[i].countedAt < resetAt
    ensures !Run(g, rs).redisEnabled && key !in Run(g, rs).memory.counters
    decreases |rs|
  {
    if rs != [] {
      assert rs[0].key != key;
      EntryStaysAway(Step(g, rs[0]).0, rs[1..], key, rs[0].countedAt, resetAt);
    }
  }

  /** Retry-After is tight for a request the memory path turned away with r seconds, whatever other
      requests follow: when r > 1 the key is still refused r - 1 seconds after it was asked, and a
      client that waits out the r seconds is admitted, first in a new window. */
  lemma RetryAfterTight(g: Guard, refused: Request, later: seq<Request>, again: Request)
    requires !g.redisEnabled || !refused.redisAnswers
    requires refused.askedAt <= refused.countedAt && Step(g, refused).1.Rejected?
    requires Chronological(refused.countedAt, later) && End(refused.countedAt, later) <= again.countedAt
    requires again.key == refused.key && again.limit == refused.limit
    requires var resetAt := Increment(g, refused).1.resetAt;
             forall i :: 0 <= i < |later| && later[i].key == again.key ==> later[i].countedAt < resetAt
    ensures var r := Step(g, refused).1.retryAfterSeconds;
            var d := Step(Run(Step(g, refused).0, later), again).1;
            && (r > 1 && again.countedAt <= refused.askedAt + 1000 * (r - 1) ==> d.Rejected?)
            && (again.countedAt >= refused.askedAt + 1000 * r && again.limit >= 1 ==> d == Admitted(again.limit - 1))
  {
    var (g1, e) := Increment(g, refused);
    FullWindowLasts(g1, later, refused.key, refused.limit, e.resetAt, refused.countedAt);
  }
}
