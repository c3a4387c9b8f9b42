/**
 The two lockout stores on the same calls and one shared clock. Redis counts failures in a fixed
 window, the in-memory store in a sliding one, so they differ; memory is the stricter of the two,
 and the comparison of their locks holds for exactly the settings named in DominationIff.
 */
module LoginStoreComparison {
  import opened Wrappers
  import opened LoginAttempts
  import opened LoginAttemptLaws

  /** A live Redis counter never runs ahead of the in-memory count, nor outlives its window. */
  ghost predicate CountCovered(c: Config, cur: Option<Attempt>, ctr: Option<Counter>, now: nat) {
    && (cur.Some? ==> cur.value.failures >= 1 && cur.value.lastFailureAt <= now)
    && (ctr.Some? ==> ctr.value.count >= 1)
    && (ctr.Some? && now <= ctr.value.expiresAt ==>
          && cur.Some?
          && ctr.value.count <= cur.value.failures
          && ctr.value.expiresAt <= cur.value.lastFailureAt + c.windowMs)
  }

  ghost predicate CountsCovered(c: Config, m: map<string, Attempt>, r: Redis, now: nat) {
    forall k :: CountCovered(c, Lookup(m, k), Lookup(r.counters, k), now)
  }

  lemma CountStep(c: Config, m: map<string, Attempt>, r: Redis, call: Call, now: nat)
    requires CountsCovered(c, m, r, now) && now <= call.at
    ensures CountsCovered(c, PlainStep(c, m, call).0, RedisStep(c, r, call).0, call.at)
  {
    var m' := PlainStep(c, m, call).0;
    var r' := RedisStep(c, r, call).0;
    forall k ensures CountCovered(c, Lookup(m', k), Lookup(r'.counters, k), call.at) {
      assert CountCovered(c, Lookup(m, k), Lookup(r.counters, k), now);
    }
  }

  /** Whenever the Lua script sets a lock, the memory path sets one at least as long. */
  lemma MemoryLocksAtLeastAsLong(c: Config, m: map<string, Attempt>, r: Redis, key: string, at: nat)
    requires CountsCovered(c, m, r, at)
    ensures var failures := LiveCount(r, key, at) + 1;
            var next := AfterFailure(c, Lookup(m, key), at);
            && failures <= next.failures
            && (failures >= c.maxFailures ==>
                  RedisFailure(c, r, key, at).locks[key].lockUntil <= next.lockUntil)
  {
    assert CountCovered(c, Lookup(m, key), Lookup(r.counters, key), at);
    var failures := LiveCount(r, key, at) + 1;
    var next := AfterFailure(c, Lookup(m, key), at);
    if failures >= c.maxFailures {
      LockMsMonotone(c, failures - c.maxFailures, next.failures - c.maxFailures);
    }
  }

  lemma {:induction false} CountsCoveredRun(c: Config, m: map<string, Attempt>, r: Redis, calls: seq<Call>, now: nat)
    requires CountsCovered(c, m, r, now) && Chronological(now, calls)
    ensures CountsCovered(c, PlainRun(c, m, calls), RedisRun(c, r, calls), End(now, calls))
    decreases |calls|
  {
    if calls != [] {
      CountStep(c, m, r, calls[0], now);
      CountsCoveredRun(c, PlainStep(c, m, calls[0]).0, RedisStep(c, r, calls[0]).0, calls[1..], calls[0].at);
    }
  }

  /** On any run, the next failure counts no higher on Redis than in memory, and a lock the Lua
      script then sets ends no later than the one the memory path sets. */
  lemma RedisNeverAhead(c: Config, calls: seq<Call>, key: string, at: nat)
    requires c.enabled
    requires Chronological(0, calls) && End(0, calls) <= at
    ensures var m := Run(c, EMPTY_MEMORY, calls);
            var r := RedisRun(c, EMPTY_REDIS, calls);
            var next := Step(c, m, FailureAt(key, at)).0.attempts;
            && key in next
            && LiveCount(r, key, at) + 1 <= next[key].failures
            && (LiveCount(r, key, at) + 1 >= c.maxFailures ==>
                  var lock := RedisFailure(c, r, key, at).locks[key];
                  at <= lock.lockUntil <= next[key].lockUntil)
  {
    var plain := PlainRun(c, map[], calls);
    var r := RedisRun(c, EMPTY_REDIS, calls);
    AgreeRun(c, EMPTY_MEMORY, map[], calls, 0);
    CountsCoveredRun(c, map[], EMPTY_REDIS, calls, 0);
    assert CountsCovered(c, plain, r, at) by {
      forall k ensures CountCovered(c, Lookup(plain, k), Lookup(r.counters, k), at) {
        assert CountCovered(c, Lookup(plain, k), Lookup(r.counters, k), End(0, calls));
      }
    }
    MemoryLocksAtLeastAsLong(c, plain, r, key, at);
    AgreeStep(c, Run(c, EMPTY_MEMORY, calls), plain, FailureAt(key, at), End(0, calls));
  }

  // ---------------------------------------------------------------- locked on Redis, locked in memory

  predicate AtLeastAsStrict(redis: Answer, memory: Answer) {
    redis.Locked? ==> memory.Locked? && redis.retryAfterSeconds <= memory.retryAfterSeconds
  }

  /** At every instant after every run, a key locked on Redis is locked in memory, for as long. */
  ghost predicate Dominates(c: Config) {
    forall calls: seq<Call>, key: string, at: nat ::
      (Chronological(0, calls) && End(0, calls) <= at ==>
         AtLeastAsStrict(RedisLock(RedisRun(c, EMPTY_REDIS, calls), key, at),
                         Step(c, Run(c, EMPTY_MEMORY, calls), Call(at, key, Kind.AssertNotLocked)).1))
  }

  predicate CapFits(c: Config) {
    c.maxLockMs <= 2 * c.windowMs + 2 + c.baseLockMs
  }

  /** Why a Redis lock ending at `until` stays covered by the next in-memory lock: it was earned by
      the current streak; or both stores have restarted their counts together; or so much time
      has passed that even the shortest lock outlasts it. */
  ghost predicate LockCovered(c: Config, cur: Attempt, ctr: Option<Counter>, until: nat, now: nat) {
    || (cur.failures >= c.maxFailures
        && until <= cur.lastFailureAt + LockMs(c, cur.failures - c.maxFailures))
    || (&& cur.failures < c.maxFailures
        && ctr.Some? && ctr.value.count == cur.failures
        && (ctr.value.count == 1 ==> ctr.value.expiresAt == cur.lastFailureAt + c.windowMs)
        && until + 2 * c.windowMs + 1 <= ctr.value.expiresAt + c.maxLockMs)
    || (CapFits(c) && until <= now + LockMs(c, 0))
  }

  ghost predicate KeyCovered(c: Config, cur: Option<Attempt>, ctr: Option<Counter>, lock: Option<LockEntry>, now: nat) {
    && CountCovered(c, cur, ctr, now)
    && (lock.Some? && lock.value.lockUntil > now ==>
          && cur.Some?
          && lock.value.lockUntil <= cur.value.lockUntil
          && LockCovered(c, cur.value, ctr, lock.value.lockUntil, now))
  }

  ghost predicate Covered(c: Config, m: map<string, Attempt>, r: Redis, now: nat) {
    forall k :: KeyCovered(c, Lookup(m, k), Lookup(r.counters, k), Lookup(r.locks, k), now)
  }

  lemma CoveredFailure(c: Config, m: map<string, Attempt>, r: Redis, key: string, at: nat, now: nat)
    requires CapFits(c) || c.maxFailures <= 2
    requires KeyCovered(c, Lookup(m, key), Lookup(r.counters, key), Lookup(r.locks, key), now) && now <= at
    ensures var next := AfterFailure(c, Lookup(m, key), at);
            var r' := RedisFailure(c, r, key, at);
            KeyCovered(c, Some(next), Lookup(r'.counters, key), Lookup(r'.locks, key), at)
  {
    var next := AfterFailure(c, Lookup(m, key), at);
    var failures := LiveCount(r, key, at) + 1;
    assert CountCovered(c, Lookup(m, key), Lookup(r.counters, key), at);
    LockMsMonotone(c, 0, Stage(c, next.failures));
    LockMsMonotone(c, Stage(c, failures), Stage(c, next.failures));
    if key in m {
      LockMsMonotone(c, 0, Stage(c, m[key].failures));
      LockMsMonotone(c, Min(Stage(c, m[key].failures), Stage(c, next.failures)), Stage(c, next.failures));
    }
  }

  lemma CoveredStep(c: Config, m: map<string, Attempt>, r: Redis, call: Call, now: nat)
    requires CapFits(c) || c.maxFailures <= 2
    requires Covered(c, m, r, now) && now <= call.at
    ensures Covered(c, PlainStep(c, m, call).0, RedisStep(c, r, call).0, call.at)
  {
    var m' := PlainStep(c, m, call).0;
    var r' := RedisStep(c, r, call).0;
    forall k ensures KeyCovered(c, Lookup(m', k), Lookup(r'.counters, k), Lookup(r'.locks, k), call.at) {
      assert KeyCovered(c, Lookup(m, k), Lookup(r.counters, k), Lookup(r.locks, k), now);
      if c.enabled && call.kind == Kind.RecordFailure && k == call.key {
        CoveredFailure(c, m, r, k, call.at, now);
      }
    }
  }

  lemma {:induction false} CoveredRun(c: Config, m: map<string, Attempt>, r: Redis, calls: seq<Call>, now: nat)
    requires CapFits(c) || c.maxFailures <= 2
    requires Covered(c, m, r, now) && Chronological(now, calls)
    ensures Covered(c, PlainRun(c, m, calls), RedisRun(c, r, calls), End(now, calls))
    decreases |calls|
  {
    if calls != [] {
      CoveredStep(c, m, r, calls[0], now);
      CoveredRun(c, PlainStep(c, m, calls[0]).0, RedisStep(c, r, calls[0]).0, calls[1..], calls[0].at);
    }
  }

  lemma DominationHolds(c: Config, calls: seq<Call>, key: string, at: nat)
    requires CapFits(c) || c.maxFailures <= 2
    requires Chronological(0, calls) && End(0, calls) <= at
    requires c.enabled
    ensures AtLeastAsStrict(RedisLock(RedisRun(c, EMPTY_REDIS, calls), key, at),
                            Step(c, Run(c, EMPTY_MEMORY, calls), Call(at, key, Kind.AssertNotLocked)).1)
  {
    var plain := PlainRun(c, map[], calls);
    var r := RedisRun(c, EMPTY_REDIS, calls);
    AgreeRun(c, EMPTY_MEMORY, map[], calls, 0);
    AgreeStep(c, Run(c, EMPTY_MEMORY, calls), plain, Call(at, key, Kind.AssertNotLocked), End(0, calls));
    CoveredRun(c, map[], EMPTY_REDIS, calls, 0);
    assert KeyCovered(c, Lookup(plain, key), Lookup(r.counters, key), Lookup(r.locks, key), End(0, calls));
  }

  lemma {:induction false} RedisRunAppend(c: Config, r: Redis, xs: seq<Call>, ys: seq<Call>)
    ensures RedisRun(c, r, xs + ys) == RedisRun(c, RedisRun(c, r, xs), ys)
    decreases |xs|
  {
    if xs == [] {
      assert xs + ys == ys;
    } else {
      assert (xs + ys)[0] == xs[0] && (xs + ys)[1..] == xs[1..] + ys;
      RedisRunAppend(c, RedisStep(c, r, xs[0]).0, xs[1..], ys);
    }
  }

  lemma {:induction false} RedisBurstResult(c: Config, r: Redis, key: string, at: nat, n: nat)
    requires c.enabled && n >= 1
    ensures var r' := RedisRun(c, r, Repeat(FailureAt(key, at), n));
            var count := LiveCount(r, key, at) + n;
            && key in r'.counters
            && r'.counters[key].count == count
            && r'.counters[key].expiresAt ==
               (if LiveCount(r, key, at) == 0 then at + c.windowMs else r.counters[key].expiresAt)
            && Lookup(r'.locks, key) ==
               if count >= c.maxFailures
               then Some(LockEntry(at + LockMs(c, count - c.maxFailures), at + LockMs(c, count - c.maxFailures)))
               else Lookup(r.locks, key)
    decreases n
  {
    var calls := Repeat(FailureAt(key, at), n);
    assert calls[0] == FailureAt(key, at);
    assert calls[1..] == Repeat(FailureAt(key, at), n - 1);
    if n > 1 {
      var r1 := RedisStep(c, r, calls[0]).0;
      RedisBurstResult(c, r1, key, at, n - 1);
    } else {
      assert calls[1..] == [];
    }
  }

  const K := "k"

  /** What a run has left in the two stores for one key. */
  ghost predicate Stands(c: Config, calls: seq<Call>, at: nat, a: Attempt, ctr: Counter, redisLock: nat) {
    && Chronological(0, calls) && End(0, calls) == at
    && Lookup(Run(c, EMPTY_MEMORY, calls).attempts, K) == Some(a)
    && Lookup(RedisRun(c, EMPTY_REDIS, calls).counters, K) == Some(ctr)
    && Lookup(RedisRun(c, EMPTY_REDIS, calls).locks, K) == Some(LockEntry(redisLock, redisLock))
  }

  lemma LockedForTheCap(c: Config) returns (calls: seq<Call>)
    requires c.enabled && Validated(c)
    ensures Stands(c, calls, 0, Attempt(c.maxFailures + c.maxLockMs, 0, c.maxLockMs),
                   Counter(c.maxFailures + c.maxLockMs, c.windowMs), c.maxLockMs)
  {
    var n := c.maxFailures + c.maxLockMs;
    calls := Repeat(FailureAt(K, 0), n);
    LockMsCapped(c, c.maxLockMs);
    BurstChronological(K, 0, n, 0);
    BurstResult(c, EMPTY_MEMORY, K, 0, n);
    RedisBurstResult(c, EMPTY_REDIS, K, 0, n);
  }

  /** `n` more failures that lock neither store. */
  lemma MoreFailures(c: Config, calls: seq<Call>, from: nat, a: Attempt, ctr: Counter, redisLock: nat, at: nat, n: nat)
    returns (more: seq<Call>)
    requires c.enabled && n >= 1 && from <= at
    requires Stands(c, calls, from, a, ctr, redisLock)
    requires !Disposable(c, a, at) && ctr.count >= 1
    requires var live := if at <= ctr.expiresAt then ctr.count else 0; live + n < c.maxFailures
    ensures var failures := NextFailures(c, Some(a), at) + n - 1;
            var live := if at <= ctr.expiresAt then ctr.count else 0;
            Stands(c, more, at,
                   Attempt(failures, at, if failures >= c.maxFailures then at + LockMs(c, failures - c.maxFailures)
                           else a.lockUntil),
                   Counter(live + n, if live == 0 then at + c.windowMs else ctr.expiresAt), redisLock)
  {
    var burst := Repeat(FailureAt(K, at), n);
    more := calls + burst;
    BurstChronological(K, at, n, End(0, calls));
    ChronologicalAppend(0, calls, burst);
    RunAppend(c, EMPTY_MEMORY, calls, burst);
    RedisRunAppend(c, EMPTY_REDIS, calls, burst);
    BurstResult(c, Run(c, EMPTY_MEMORY, calls), K, at, n);
    RedisBurstResult(c, RedisRun(c, EMPTY_REDIS, calls), K, at, n);
  }

  /** Beyond the cap: lock for the cap at time 0; restart both counts just past the window; fail at
      the end of the fixed window and again just after it, where only memory still counts on. */
  lemma DominationFails(c: Config)
    requires c.enabled && Validated(c)
    requires !CapFits(c) && c.maxFailures >= 3
    ensures !Dominates(c)
  {
    var w, max, cap := c.windowMs, c.maxFailures, c.maxLockMs;
    LockMsMonotone(c, 0, 0);
    var run1 := LockedForTheCap(c);
    var run2 := MoreFailures(c, run1, 0, Attempt(max + cap, 0, cap), Counter(max + cap, w), cap, w + 1, 1);
    var run3 := MoreFailures(c, run2, w + 1, Attempt(1, w + 1, cap), Counter(1, 2 * w + 1), cap, 2 * w + 1, max - 2);
    var run4 := MoreFailures(c, run3, 2 * w + 1, Attempt(max - 1, 2 * w + 1, cap), Counter(max - 1, 2 * w + 1), cap,
                             2 * w + 2, 1);
    var at := 2 * w + 2 + c.baseLockMs;
    assert Stands(c, run4, 2 * w + 2, Attempt(max, 2 * w + 2, at), Counter(1, 3 * w + 2), cap);
    assert Step(c, Run(c, EMPTY_MEMORY, run4), Call(at, K, Kind.AssertNotLocked)).1 == Quiet;
    assert RedisLock(RedisRun(c, EMPTY_REDIS, run4), K, at).Locked?;
    assert !AtLeastAsStrict(RedisLock(RedisRun(c, EMPTY_REDIS, run4), K, at),
                            Step(c, Run(c, EMPTY_MEMORY, run4), Call(at, K, Kind.AssertNotLocked)).1);
  }

  /** Locked on Redis implies locked in memory, for at least as long, on every run and at every
      instant, exactly when fewer than three failures lock or the cap is at most two windows
      and the base lock (and two milliseconds of boundary). */
  lemma DominationIff(c: Config)
    requires c.enabled && Validated(c)
    ensures Dominates(c) <==> c.maxFailures <= 2 || c.maxLockMs <= 2 * c.windowMs + 2 + c.baseLockMs
  {
    if CapFits(c) || c.maxFailures <= 2 {
      forall calls: seq<Call>, key: string, at: nat | Chronological(0, calls) && End(0, calls) <= at
        ensures AtLeastAsStrict(RedisLock(RedisRun(c, EMPTY_REDIS, calls), key, at),
                                Step(c, Run(c, EMPTY_MEMORY, calls), Call(at, key, Kind.AssertNotLocked)).1)
      {
        DominationHolds(c, calls, key, at);
      }
    } else {
      DominationFails(c);
    }
  }

  lemma ShippedSettingsDominate()
    ensures Dominates(SHIPPED)
  {
    DominationIff(SHIPPED);
  }
}
