/**
 The rate limit guard: fixed-window counters per `ip:method:route` key, kept in Redis while it
 answers and in memory once it has failed, with a lazy sweep of the in-memory map.

 Each request is one step. Its three clock readings are separate: when the guard is asked, when
 the request is counted, and when a Redis answer is stamped.
 */
module RateLimit {
  import opened Wrappers

  datatype Entry = Entry(count: nat, resetAt: nat)

  datatype Memory = Memory(counters: map<string, Entry>, lastCleanupAt: nat)

  /** A Redis counter answers until its deadline has passed. */
  datatype RedisCounter = RedisCounter(count: nat, deadline: nat)

  datatype Guard = Guard(memory: Memory, redis: map<string, RedisCounter>, redisEnabled: bool)

  const CLEANUP_INTERVAL_MS: nat := 60_000

  datatype Request = Request(
    key: string, limit: nat, windowMs: nat,
    askedAt: nat, countedAt: nat, answeredAt: nat,
    redisAnswers: bool)

  datatype Decision = Admitted(remaining: nat) | Rejected(retryAfterSeconds: nat)

  function Cleanup(m: Memory, now: nat): Memory {
    if now < m.lastCleanupAt + CLEANUP_INTERVAL_MS then m
    else Memory(map k | k in m.counters && m.counters[k].resetAt > now :: m.counters[k], now)
  }

  function CountInMemory(counters: map<string, Entry>, r: Request): Entry {
    if r.key !in counters || counters[r.key].resetAt <= r.countedAt then Entry(1, r.countedAt + r.windowMs)
    else counters[r.key].(count := counters[r.key].count + 1)
  }

  function CountInRedis(redis: map<string, RedisCounter>, r: Request): RedisCounter {
    if r.key in redis && r.countedAt <= redis[r.key].deadline
    then redis[r.key].(count := redis[r.key].count + 1)
    else RedisCounter(1, r.countedAt + r.windowMs)
  }

  /** What the caller of the Lua script makes of count and remaining time to live. */
  function FromRedis(c: RedisCounter, r: Request): Entry {
    var ttl := c.deadline - r.countedAt;
    Entry(c.count, r.answeredAt + if ttl > 0 then ttl else r.windowMs)
  }

  /** A failing Redis is abandoned for good, and the same request is counted in memory. */
  function Increment(g: Guard, r: Request): (Guard, Entry) {
    if g.redisEnabled && r.redisAnswers then
      var c := CountInRedis(g.redis, r);
      (g.(redis := g.redis[r.key := c]), FromRedis(c, r))
    else
      var swept := Cleanup(g.memory, r.countedAt);
      var e := CountInMemory(swept.counters, r);
      (Guard(swept.(counters := swept.counters[r.key := e]), g.redis, false), e)
  }

  function SecondsUntil(resetAt: nat, now: nat): nat {
    Max(1, if resetAt > now then (resetAt - now + 999) / 1000 else 0)
  }

  function Decide(e: Entry, r: Request): Decision {
    if e.count > r.limit then Rejected(SecondsUntil(e.resetAt, r.askedAt)) else Admitted(r.limit - e.count)
  }

  function Step(g: Guard, r: Request): (Guard, Decision) {
    var (next, e) := Increment(g, r);
    (next, Decide(e, r))
  }

  function Run(g: Guard, rs: seq<Request>): Guard
    decreases |rs|
  {
    if rs == [] then g else Run(Step(g, rs[0]).0, rs[1..])
  }

  function Decisions(g: Guard, rs: seq<Request>): seq<Decision>
    decreases |rs|
  {
    if rs == [] then [] else [Step(g, rs[0]).1] + Decisions(Step(g, rs[0]).0, rs[1..])
  }

  /** A process starts with empty counters, with or without Redis. */
  function Start(redisEnabled: bool): Guard {
    Guard(Memory(map[], 0), map[], redisEnabled)
  }

  /** Requests are counted in clock order, each between being asked and being answered. */
  ghost predicate Chronological(from: nat, rs: seq<Request>)
    decreases |rs|
  {
    rs == [] ||
    (&& rs[0].askedAt <= rs[0].countedAt <= rs[0].answeredAt
     && from <= rs[0].countedAt
     && Chronological(rs[0].countedAt, rs[1..]))
  }

  /** The guard object. The in-memory map belongs to the process; one guard stands for it here. */
  class RateLimitGuard {
    var counters: map<string, Entry>
    var lastMemoryCleanupAt: nat
    var redis: map<string, RedisCounter>
    var redisEnabled: bool

    constructor (redisEnabled: bool)
      ensures State() == Start(redisEnabled)
    {
      counters := map[];
      lastMemoryCleanupAt := 0;
      redis := map[];
      this.redisEnabled := redisEnabled;
    }

    ghost function State(): Guard
      reads this
    {
      Guard(Memory(counters, lastMemoryCleanupAt), redis, redisEnabled)
    }

    method CanActivate(r: Request) returns (decision: Decision)
      requires r.askedAt <= r.countedAt <= r.answeredAt
      modifies this
      ensures (State(), decision) == Step(old(State()), r)
    {
      var result := IncrementCounter(r);
      if result.count > r.limit {
        var remainingMs := if result.resetAt > r.askedAt then result.resetAt - r.askedAt else 0;
        return Rejected(Max(1, (remainingMs + 999) / 1000));
      }
      return Admitted(r.limit - result.count);
    }

    method IncrementCounter(r: Request) returns (result: Entry)
      modifies this
      ensures (State(), result) == Increment(old(State()), r)
    {
      if redisEnabled {
        if r.redisAnswers {
          var count, deadline := 1, r.countedAt + r.windowMs;
          if r.key in redis && r.countedAt <= redis[r.key].deadline {
            count, deadline := redis[r.key].count + 1, redis[r.key].deadline;
          }
          redis := redis[r.key := RedisCounter(count, deadline)];
          var ttl := deadline - r.countedAt;
          var ttlMs := if ttl > 0 then ttl else r.windowMs;
          return Entry(count, r.answeredAt + ttlMs);
        }
        redisEnabled := false;
      }
      CleanupExpiredCounters(r.countedAt);
      if r.key !in counters || counters[r.key].resetAt <= r.countedAt {
        result := Entry(1, r.countedAt + r.windowMs);
      } else {
        var existing := counters[r.key];
        result := existing.(count := existing.count + 1);
      }
      counters := counters[r.key := result];
    }

    method CleanupExpiredCounters(now: nat)
      modifies this`counters, this`lastMemoryCleanupAt
      ensures Memory(counters, lastMemoryCleanupAt) == Cleanup(old(Memory(counters, lastMemoryCleanupAt)), now)
    {
      if now < lastMemoryCleanupAt + CLEANUP_INTERVAL_MS {
        return;
      }
      var pending := counters.Keys;
      while pending != {}
        invariant pending <= old(counters).Keys
        invariant counters == map k | k in old(counters) && (k in pending || old(counters)[k].resetAt > now)
                                :: old(counters)[k]
        invariant lastMemoryCleanupAt == old(lastMemoryCleanupAt)
        decreases |pending|
      {
        var key :| key in pending;
        pending := pending - {key};
        if counters[key].resetAt <= now {
          counters := counters - {key};
        }
      }
      lastMemoryCleanupAt := now;
    }
  }
}
