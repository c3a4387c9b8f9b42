/**
 Login lockout: the failure record kept per `ip|email` key, the exponential lock it earns, the
 lazy cleanup of the in-memory store, and the alternative Redis store.

 Times are milliseconds of one shared clock. A key is the string the service has already built
 from the address and the e-mail.
 */
module LoginAttempts {
  import opened Wrappers

  datatype Config = Config(enabled: bool, maxFailures: nat, windowMs: nat, baseLockMs: nat, maxLockMs: nat)

  /** The bounds the environment schema puts on the lockout settings at start-up. */
  ghost predicate Validated(c: Config) {
    && c.maxFailures >= 1
    && c.windowMs >= 60_000
    && c.baseLockMs >= 1_000
    && c.maxLockMs >= 1_000
  }

  const SHIPPED := Config(true, 5, 900_000, 60_000, 1_800_000)
  const CLEANUP_INTERVAL_MS: nat := 60_000

  function Pow2(n: nat): (p: nat)
    ensures p >= 1
  {
    if n == 0 then 1 else 2 * Pow2(n - 1)
  }

  /** The lock earned `stage` failures past the threshold. */
  function LockMs(c: Config, stage: nat): nat {
    Min(c.baseLockMs * Pow2(stage), c.maxLockMs)
  }

  // ---------------------------------------------------------------- in-memory store

  datatype Attempt = Attempt(failures: nat, lastFailureAt: nat, lockUntil: nat)

  datatype Memory = Memory(attempts: map<string, Attempt>, lastCleanupAt: nat)

  const EMPTY_MEMORY := Memory(map[], 0)

  predicate WindowExpired(c: Config, a: Attempt, now: nat) {
    now > a.lastFailureAt + c.windowMs
  }

  predicate Disposable(c: Config, a: Attempt, now: nat) {
    WindowExpired(c, a, now) && a.lockUntil <= now
  }

  function NextFailures(c: Config, current: Option<Attempt>, now: nat): nat {
    if current.Some? && !WindowExpired(c, current.value, now) then current.value.failures + 1 else 1
  }

  function AfterFailure(c: Config, current: Option<Attempt>, now: nat): Attempt {
    var failures := NextFailures(c, current, now);
    var lockUntil :=
      if failures >= c.maxFailures then now + LockMs(c, failures - c.maxFailures)
      else if current.Some? then current.value.lockUntil
      else 0;
    Attempt(failures, now, lockUntil)
  }

  function Cleaned(c: Config, attempts: map<string, Attempt>, now: nat): map<string, Attempt> {
    map k | k in attempts && !Disposable(c, attempts[k], now) :: attempts[k]
  }

  function Cleanup(c: Config, m: Memory, now: nat): Memory {
    if now < m.lastCleanupAt + CLEANUP_INTERVAL_MS then m
    else Memory(Cleaned(c, m.attempts, now), now)
  }

  // ---------------------------------------------------------------- calls and answers

  datatype Kind = AssertNotLocked | RecordFailure | RecordSuccess

  datatype Call = Call(at: nat, key: string, kind: Kind)

  /** `Locked` is the 429 answer of `assertNotLocked`; every other call ends quietly. */
  datatype Answer = Quiet | Locked(retryAfterSeconds: nat)

  /** Milliseconds rounded up to whole seconds, at least one. */
  function RetryAfter(remainingMs: nat): nat {
    Max(1, (remainingMs + 999) / 1000)
  }

  function LockAnswer(lockUntil: nat, now: nat): Answer {
    if lockUntil > now then Locked(RetryAfter(lockUntil - now)) else Quiet
  }

  function Step(c: Config, m: Memory, call: Call): (Memory, Answer) {
    if !c.enabled then (m, Quiet)
    else
      match call.kind
      case AssertNotLocked =>
        var swept := Cleanup(c, m, call.at);
        var current := Lookup(swept.attempts, call.key);
        if current.None? then (swept, Quiet)
        else if current.value.lockUntil > call.at then (swept, LockAnswer(current.value.lockUntil, call.at))
        else if WindowExpired(c, current.value, call.at) then
          (swept.(attempts := swept.attempts - {call.key}), Quiet)
        else (swept, Quiet)
      case RecordFailure =>
        var swept := Cleanup(c, m, call.at);
        var next := AfterFailure(c, Lookup(swept.attempts, call.key), call.at);
        (swept.(attempts := swept.attempts[call.key := next]), Quiet)
      case RecordSuccess =>
        (m.(attempts := m.attempts - {call.key}), Quiet)
  }

  function Run(c: Config, m: Memory, calls: seq<Call>): Memory
    decreases |calls|
  {
    if calls == [] then m
    else Run(c, Step(c, m, calls[0]).0, calls[1..])
  }

  function Answers(c: Config, m: Memory, calls: seq<Call>): seq<Answer>
    decreases |calls|
  {
    if calls == [] then []
    else
      var (next, answer) := Step(c, m, calls[0]);
      [answer] + Answers(c, next, calls[1..])
  }

  /** The calls never go back in time, and none comes before `from`. */
  ghost predicate Chronological(from: nat, calls: seq<Call>)
    decreases |calls|
  {
    calls == [] || (from <= calls[0].at && Chronological(calls[0].at, calls[1..]))
  }

  // ---------------------------------------------------------------- Redis store

  /** A key with an expiry answers until its deadline has passed. */
  datatype Counter = Counter(count: nat, expiresAt: nat)

  datatype LockEntry = LockEntry(lockUntil: nat, expiresAt: nat)

  datatype Redis = Redis(counters: map<string, Counter>, locks: map<string, LockEntry>)

  const EMPTY_REDIS := Redis(map[], map[])

  function LiveCount(r: Redis, key: string, now: nat): nat {
    if key in r.counters && now <= r.counters[key].expiresAt then r.counters[key].count else 0
  }

  /** `INCR`, `PEXPIRE` on the first failure, then `SET .. PX` once the threshold is reached. */
  function RedisFailure(c: Config, r: Redis, key: string, now: nat): Redis {
    var failures := LiveCount(r, key, now) + 1;
    var expiresAt := if failures == 1 || key !in r.counters then now + c.windowMs else r.counters[key].expiresAt;
    var counters := r.counters[key := Counter(failures, expiresAt)];
    if failures >= c.maxFailures then
      var lockMs := LockMs(c, failures - c.maxFailures);
      Redis(counters, r.locks[key := LockEntry(now + lockMs, now + lockMs)])
    else
      Redis(counters, r.locks)
  }

  function RedisLock(r: Redis, key: string, now: nat): Answer {
    if key in r.locks && now <= r.locks[key].expiresAt then LockAnswer(r.locks[key].lockUntil, now) else Quiet
  }

  function RedisStep(c: Config, r: Redis, call: Call): (Redis, Answer) {
    if !c.enabled then (r, Quiet)
    else
      match call.kind
      case AssertNotLocked => (r, RedisLock(r, call.key, call.at))
      case RecordFailure => (RedisFailure(c, r, call.key, call.at), Quiet)
      case RecordSuccess => (Redis(r.counters - {call.key}, r.locks - {call.key}), Quiet)
  }

  function RedisRun(c: Config, r: Redis, calls: seq<Call>): Redis
    decreases |calls|
  {
    if calls == [] then r
    else RedisRun(c, RedisStep(c, r, calls[0]).0, calls[1..])
  }

  // ---------------------------------------------------------------- the service

  datatype Store = Store(memory: Memory, redis: Redis)

  /** One call on the store chosen at start-up; the other one is left alone. */
  function StoreStep(c: Config, onRedis: bool, s: Store, call: Call): (Store, Answer) {
    if onRedis then
      var (redis, answer) := RedisStep(c, s.redis, call);
      (s.(redis := redis), answer)
    else
      var (memory, answer) := Step(c, s.memory, call);
      (s.(memory := memory), answer)
  }

  /** The service object: the attempts map, the cleanup mark, and the store chosen at start-up. */
  class LoginAttemptService {
    const config: Config
    const redisEnabled: bool
    var attempts: map<string, Attempt>
    var lastMemoryCleanupAt: nat
    var redis: Redis

    constructor (config: Config, redisEnabled: bool)
      ensures this.config == config && this.redisEnabled == redisEnabled
      ensures State() == Store(EMPTY_MEMORY, EMPTY_REDIS)
    {
      this.config := config;
      this.redisEnabled := redisEnabled;
      attempts := map[];
      lastMemoryCleanupAt := 0;
      redis := EMPTY_REDIS;
    }

    ghost function State(): Store
      reads this
    {
      Store(Memory(attempts, lastMemoryCleanupAt), redis)
    }

    method AssertNotLocked(key: string, now: nat) returns (answer: Answer)
      modifies this
      ensures (State(), answer) == StoreStep(config, redisEnabled, old(State()), Call(now, key, Kind.AssertNotLocked))
    {
      if !config.enabled {
        return Quiet;
      }
      if redisEnabled {
        return RedisLock(redis, key, now);
      }
      CleanupExpiredAttempts(now);
      if key !in attempts {
        return Quiet;
      }
      var current := attempts[key];
      if current.lockUntil > now {
        return Locked(RetryAfter(current.lockUntil - now));
      }
      if now > current.lastFailureAt + config.windowMs {
        attempts := attempts - {key};
      }
      answer := Quiet;
    }

    method RecordSuccess(key: string, now: nat)
      modifies this
      ensures State() == StoreStep(config, redisEnabled, old(State()), Call(now, key, Kind.RecordSuccess)).0
    {
      if !config.enabled {
        return;
      }
      if redisEnabled {
        redis := Redis(redis.counters - {key}, redis.locks - {key});
        return;
      }
      attempts := attempts - {key};
    }

    method RecordFailure(key: string, now: nat)
      modifies this
      ensures State() == StoreStep(config, redisEnabled, old(State()), Call(now, key, Kind.RecordFailure)).0
    {
      if !config.enabled {
        return;
      }
      if redisEnabled {
        redis := RedisFailure(config, redis, key, now);
        return;
      }
      CleanupExpiredAttempts(now);
      var nextFailures := 1;
      var lockUntil := 0;
      if key in attempts {
        if now <= attempts[key].lastFailureAt + config.windowMs {
          nextFailures := attempts[key].failures + 1;
        }
        lockUntil := attempts[key].lockUntil;
      }
      if nextFailures >= config.maxFailures {
        var lockStage := nextFailures - config.maxFailures;
        var lockMs := Min(config.baseLockMs * Pow2(lockStage), config.maxLockMs);
        lockUntil := now + lockMs;
      }
      attempts := attempts[key := Attempt(nextFailures, now, lockUntil)];
    }

    method CleanupExpiredAttempts(now: nat)
      modifies this`attempts, this`lastMemoryCleanupAt
      ensures State().memory == Cleanup(config, old(State().memory), now)
    {
      if now < lastMemoryCleanupAt + CLEANUP_INTERVAL_MS {
        return;
      }
      var pending := attempts.Keys;
      while pending != {}
        invariant pending <= old(attempts).Keys
        invariant attempts == map k | k in old(attempts) && (k in pending || !Disposable(config, old(attempts)[k], now))
                                :: old(attempts)[k]
        invariant lastMemoryCleanupAt == old(lastMemoryCleanupAt)
        decreases |pending|
      {
        var key :| key in pending;
        pending := pending - {key};
        var record := attempts[key];
        if now > record.lastFailureAt + config.windowMs && record.lockUntil <= now {
          attempts := attempts - {key};
        }
      }
      lastMemoryCleanupAt := now;
    }
  }
}
