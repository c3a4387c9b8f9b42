/**
 The lockout on Redis, alone. Its fixed window forgets the count while a lock may still be in force,
 so overlapping requests can shorten a lock under far more settings than in memory; where the
 logins of each key do not overlap, none does.
 */
module LoginRedisLaws {
  import opened Wrappers
  import opened LoginAttempts
  import opened LoginAttemptLaws
  import opened LoginStoreComparison

  // ---------------------------------------------------------------- a lock in force is not shortened

  predicate RedisInForce(r: Redis, key: string, at: nat) {
    RedisLock(r, key, at).Locked?
  }

  ghost predicate RedisKeepsLock(r: Redis, r': Redis, key: string, at: nat) {
    RedisInForce(r, key, at) ==> key in r'.locks && r'.locks[key].lockUntil >= r.locks[key].lockUntil
  }

  /** No failure recorded anywhere in a run brings the end of a lock in force closer. */
  ghost predicate RedisNeverShortens(c: Config) {
    forall calls: seq<Call>, key: string, at: nat :: Chronological(0, calls) && End(0, calls) <= at ==>
      var r := RedisRun(c, EMPTY_REDIS, calls);
      RedisKeepsLock(r, RedisStep(c, r, FailureAt(key, at)).0, key, at)
  }

  /** A lock was set in an earlier window than the counter's, or by a count the counter has reached. */
  ghost predicate LockInWindow(c: Config, lockUntil: nat, counter: Counter, now: nat) {
    || lockUntil + c.windowMs + 1 <= counter.expiresAt + c.maxLockMs
    || (&& counter.count >= c.maxFailures
        && lockUntil <= counter.expiresAt + c.maxLockMs
        && lockUntil <= now + LockMs(c, counter.count - c.maxFailures))
  }

  ghost predicate LocksInWindow(c: Config, r: Redis, now: nat) {
    && (forall k :: k in r.counters ==>
          r.counters[k].count >= 1 && c.windowMs <= r.counters[k].expiresAt <= now + c.windowMs)
    && (forall k :: k in r.locks ==> k in r.counters && LockInWindow(c, r.locks[k].lockUntil, r.counters[k], now))
  }

  lemma CoveredFailureOnRedis(c: Config, r: Redis, key: string, at: nat, now: nat)
    requires c.maxLockMs <= c.baseLockMs + 1
    requires LocksInWindow(c, r, now) && now <= at
    ensures var r' := RedisFailure(c, r, key, at);
            && r'.counters[key].count >= 1 && c.windowMs <= r'.counters[key].expiresAt <= at + c.windowMs
            && (key in r'.locks ==> LockInWindow(c, r'.locks[key].lockUntil, r'.counters[key], at))
            && RedisKeepsLock(r, r', key, at)
  {
    var r' := RedisFailure(c, r, key, at);
    var count := r'.counters[key].count;
    if count >= c.maxFailures {
      LockMsMonotone(c, 0, count - c.maxFailures);
      if key in r.locks && r.counters[key].count >= c.maxFailures && LiveCount(r, key, at) > 0 {
        LockMsMonotone(c, r.counters[key].count - c.maxFailures, count - c.maxFailures);
      }
    }
  }

  lemma LocksInWindowStep(c: Config, r: Redis, call: Call, now: nat)
    requires c.maxLockMs <= c.baseLockMs + 1
    requires LocksInWindow(c, r, now) && now <= call.at
    ensures LocksInWindow(c, RedisStep(c, r, call).0, call.at)
  {
    if c.enabled && call.kind == Kind.RecordFailure {
      CoveredFailureOnRedis(c, r, call.key, call.at, now);
    }
  }

  lemma {:induction false} LocksInWindowRun(c: Config, r: Redis, calls: seq<Call>, now: nat)
    requires c.maxLockMs <= c.baseLockMs + 1
    requires LocksInWindow(c, r, now) && Chronological(now, calls)
    ensures LocksInWindow(c, RedisRun(c, r, calls), End(now, calls))
    decreases |calls|
  {
    if calls != [] {
      LocksInWindowStep(c, r, calls[0], now);
      LocksInWindowRun(c, RedisStep(c, r, calls[0]).0, calls[1..], calls[0].at);
    }
  }

  /** What a run has left on Redis for the key `K`. */
  ghost predicate Leaves(c: Config, calls: seq<Call>, at: nat, counter: Counter, lockUntil: Option<nat>) {
    && Chronological(0, calls) && End(0, calls) <= at
    && Lookup(RedisRun(c, EMPTY_REDIS, calls).counters, K) == Some(counter)
    && Lookup(RedisRun(c, EMPTY_REDIS, calls).locks, K) ==
       (if lockUntil.None? then None else Some(LockEntry(lockUntil.value, lockUntil.value)))
  }

  /** `n` failures at once, on top of a run. */
  lemma AddFailures(c: Config, calls: seq<Call>, from: nat, counter: Counter, lockUntil: Option<nat>, at: nat, n: nat)
    returns (more: seq<Call>)
    requires c.enabled && n >= 1 && from <= at && counter.count >= 1
    requires Leaves(c, calls, from, counter, lockUntil)
    ensures var live := if at <= counter.expiresAt then counter.count else 0;
            var count := live + n;
            Leaves(c, more, at, Counter(count, if live == 0 then at + c.windowMs else counter.expiresAt),
                   if count >= c.maxFailures then Some(at + LockMs(c, count - c.maxFailures)) else lockUntil)
  {
    var burst := Repeat(FailureAt(K, at), n);
    more := calls + burst;
    BurstChronological(K, at, n, End(0, calls));
    ChronologicalAppend(0, calls, burst);
    RedisRunAppend(c, EMPTY_REDIS, calls, burst);
    RedisBurstResult(c, RedisRun(c, EMPTY_REDIS, calls), K, at, n);
  }

  lemma FirstFailure(c: Config) returns (calls: seq<Call>, lockUntil: Option<nat>)
    requires c.enabled
    ensures Leaves(c, calls, 0, Counter(1, c.windowMs), lockUntil)
  {
    calls := Repeat(FailureAt(K, 0), 1);
    BurstChronological(K, 0, 1, 0);
    RedisBurstResult(c, EMPTY_REDIS, K, 0, 1);
    lockUntil := if 1 >= c.maxFailures then Some(LockMs(c, 1 - c.maxFailures)) else None;
  }

  /** Fail enough for the longest lock at the last moment of a window, then start over in the next:
      the first lock earned there is the base lock. */
  lemma RedisShorteningRun(c: Config)
    requires c.enabled && Validated(c) && c.maxLockMs > c.baseLockMs + 1
    ensures !RedisNeverShortens(c)
  {
    var at := c.windowMs + 1;
    LockMsCapped(c, c.maxLockMs);
    LockMsMonotone(c, 0, 0);
    var calls, lockUntil := FirstFailure(c);
    var n := c.maxFailures + c.maxLockMs - 1;
    calls := AddFailures(c, calls, 0, Counter(1, c.windowMs), lockUntil, c.windowMs, n);
    var counter := Counter(c.maxFailures + c.maxLockMs, c.windowMs);
    lockUntil := Some(c.windowMs + c.maxLockMs);
    assert Leaves(c, calls, c.windowMs, counter, lockUntil);
    if c.maxFailures > 1 {
      calls := AddFailures(c, calls, c.windowMs, counter, lockUntil, at, c.maxFailures - 1);
      counter := Counter(c.maxFailures - 1, at + c.windowMs);
    }
    assert Leaves(c, calls, at, counter, lockUntil);
    var r := RedisRun(c, EMPTY_REDIS, calls);
    var r' := RedisStep(c, r, FailureAt(K, at)).0;
    assert RedisInForce(r, K, at);
    assert r'.locks[K].lockUntil == at + LockMs(c, 0);
    assert !RedisKeepsLock(r, r', K, at);
  }

  /** On Redis a lock in force survives every later failure, in every interleaving of calls, exactly
      when the longest lock is at most a millisecond longer than the base lock. */
  lemma RedisNeverShortensIff(c: Config)
    requires c.enabled && Validated(c)
    ensures RedisNeverShortens(c) <==> c.maxLockMs <= c.baseLockMs + 1
  {
    if c.maxLockMs > c.baseLockMs + 1 {
      RedisShorteningRun(c);
    } else {
      forall calls: seq<Call>, key: string, at: nat | Chronological(0, calls) && End(0, calls) <= at
        ensures var r := RedisRun(c, EMPTY_REDIS, calls);
                RedisKeepsLock(r, RedisStep(c, r, FailureAt(key, at)).0, key, at)
      {
        LocksInWindowRun(c, EMPTY_REDIS, calls, 0);
        CoveredFailureOnRedis(c, RedisRun(c, EMPTY_REDIS, calls), key, at, End(0, calls));
      }
    }
  }

  lemma ShippedSettingsCanShortenOnRedis()
    ensures !RedisNeverShortens(SHIPPED)
  {
    RedisNeverShortensIff(SHIPPED);
  }

  // ---------------------------------------------------------------- one login per key at a time

  function RedisCleared(c: Config, r: Redis, call: Call, cleared: set<string>): set<string> {
    if call.kind == Kind.AssertNotLocked && RedisStep(c, r, call).1 == Quiet then cleared + {call.key}
    else cleared - {call.key}
  }

  /** The logins of one key do not overlap, as for the in-memory store. */
  ghost predicate RedisPerKeySerial(c: Config, r: Redis, calls: seq<Call>, cleared: set<string>)
    decreases |calls|
  {
    calls == [] ||
    (&& (calls[0].kind == Kind.RecordFailure ==> calls[0].key in cleared)
     && RedisPerKeySerial(c, RedisStep(c, r, calls[0]).0, calls[1..], RedisCleared(c, r, calls[0], cleared)))
  }

  ghost predicate RedisKeepsLocks(c: Config, r: Redis, calls: seq<Call>)
    decreases |calls|
  {
    calls == [] ||
    (var r' := RedisStep(c, r, calls[0]).0;
     && (calls[0].kind == Kind.RecordFailure ==>
           !RedisInForce(r, calls[0].key, calls[0].at) && RedisKeepsLock(r, r', calls[0].key, calls[0].at))
     && RedisKeepsLocks(c, r', calls[1..]))
  }

  ghost predicate NoneLocked(r: Redis, keys: set<string>, now: nat) {
    forall k :: k in keys ==> !RedisInForce(r, k, now)
  }

  lemma RedisClearedStep(c: Config, r: Redis, call: Call, cleared: set<string>, now: nat)
    requires c.enabled && now <= call.at && NoneLocked(r, cleared, now)
    ensures NoneLocked(r, cleared, call.at)
    ensures NoneLocked(RedisStep(c, r, call).0, RedisCleared(c, r, call, cleared), call.at)
  {
    forall k | k in cleared ensures !RedisInForce(r, k, call.at) {
      assert !RedisInForce(r, k, now);
    }
  }

  lemma {:induction false} RedisPerKeyRun(c: Config, r: Redis, calls: seq<Call>, cleared: set<string>, now: nat)
    requires c.enabled && Chronological(now, calls)
    requires NoneLocked(r, cleared, now) && RedisPerKeySerial(c, r, calls, cleared)
    ensures RedisKeepsLocks(c, r, calls)
    decreases |calls|
  {
    if calls != [] {
      RedisClearedStep(c, r, calls[0], cleared, now);
      RedisPerKeyRun(c, RedisStep(c, r, calls[0]).0, calls[1..], RedisCleared(c, r, calls[0], cleared), calls[0].at);
    }
  }

  /** Whatever the settings: on Redis too, per-key serial runs record no failure against a locked key
      and never shorten a lock in force. */
  lemma RedisPerKeySerialNeverShortens(c: Config, calls: seq<Call>)
    requires c.enabled && Chronological(0, calls) && RedisPerKeySerial(c, EMPTY_REDIS, calls, {})
    ensures RedisKeepsLocks(c, EMPTY_REDIS, calls)
  {
    RedisPerKeyRun(c, EMPTY_REDIS, calls, {}, 0);
  }
}
