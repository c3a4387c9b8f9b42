/**
 What the rate limit guard answers: Retry-After when Redis judges the request, and the number of
 remaining requests in either store.
 */
module RateLimitAnswers {
  import opened Wrappers
  import opened RateLimit
  import opened RateLimitLaws

  // ---------------------------------------------------------------- counters that last

  lemma {:induction false} StaysOffRedis(g: Guard, rs: seq<Request>)
    requires !g.redisEnabled
    ensures !Run(g, rs).redisEnabled
    decreases |rs|
  {
    if rs != [] {
      StaysOffRedis(Step(g, rs[0]).0, rs[1..]);
    }
  }

  /** While Redis answers, a counter keeps its deadline and never falls, as long as its key is counted
      only within the window; without requests of the key it does not change at all. */
  lemma {:induction false} RedisCounterKept(g: Guard, rs: seq<Request>, key: string)
    requires Run(g, rs).redisEnabled && key in g.redis
    requires forall i :: 0 <= i < |rs| && rs[i].key == key ==> rs[i].countedAt <= g.redis[key].deadline
    ensures var g' := Run(g, rs);
            && g.redisEnabled && key in g'.redis
            && g'.redis[key].deadline == g.redis[key].deadline && g'.redis[key].count >= g.redis[key].count
    ensures (forall i :: 0 <= i < |rs| ==> rs[i].key != key) ==> Run(g, rs).redis[key] == g.redis[key]
    decreases |rs|
  {
    if rs != [] {
      var g1 := Step(g, rs[0]).0;
      if !g.redisEnabled || !rs[0].redisAnswers {
        StaysOffRedis(g1, rs[1..]);
      } else {
        KeyAfterRedis(g, rs[0], key);
        RedisCounterKept(g1, rs[1..], key);
      }
    }
  }

  lemma {:induction false} MemoryEntryKept(g: Guard, rs: seq<Request>, key: string, now: nat)
    requires !g.redisEnabled && key in g.memory.counters
    requires Chronological(now, rs) && End(now, rs) < g.memory.counters[key].resetAt
    requires forall i :: 0 <= i < |rs| ==> rs[i].key != key
    ensures var g' := Run(g, rs);
            !g'.redisEnabled && key in g'.memory.counters && g'.memory.counters[key] == g.memory.counters[key]
    decreases |rs|
  {
    if rs != [] {
      EndNotBefore(rs[0].countedAt, rs[1..]);
      KeyAfterMemory(g, rs[0], key);
      MemoryEntryKept(Step(g, rs[0]).0, rs[1..], key, rs[0].countedAt);
    }
  }

  lemma {:induction false} CountedByEnd(from: nat, rs: seq<Request>, i: nat)
    requires Chronological(from, rs) && i < |rs|
    ensures rs[i].countedAt <= End(from, rs)
    decreases |rs|
  {
    if i == 0 {
      EndNotBefore(rs[0].countedAt, rs[1..]);
    } else {
      CountedByEnd(rs[0].countedAt, rs[1..], i - 1);
    }
  }

  // ---------------------------------------------------------------- Retry-After on Redis

  /** `again` asks for the same key after `later`, and both requests are judged by Redis. */
  ghost predicate AskedAgain(g: Guard, refused: Request, later: seq<Request>, again: Request) {
    && g.redisEnabled && refused.redisAnswers
    && refused.askedAt <= refused.countedAt <= refused.answeredAt
    && Chronological(refused.countedAt, later) && End(refused.countedAt, later) <= again.countedAt
    && again.key == refused.key && again.limit == refused.limit
    && Run(Step(g, refused).0, later).redisEnabled && again.redisAnswers
  }

  /** When the window in which Redis counted the request ends. */
  function Deadline(g: Guard, r: Request): nat
    requires g.redisEnabled && r.redisAnswers
  {
    Step(g, r).0.redis[r.key].deadline
  }

  /** The value: the seconds, rounded up, from the question to the end of the window, plus the time the
      answer took; or, if the window ended at the very moment of counting, a whole window. */
  lemma RedisRetryValue(g: Guard, refused: Request)
    requires g.redisEnabled && refused.redisAnswers
    requires refused.askedAt <= refused.countedAt <= refused.answeredAt && Step(g, refused).1.Rejected?
    ensures var r := Step(g, refused).1.retryAfterSeconds;
            var deadline := Deadline(g, refused);
            var left := if refused.countedAt < deadline then deadline - refused.countedAt else refused.windowMs;
            var wait := refused.answeredAt + left - refused.askedAt;
            && refused.countedAt <= deadline
            && r >= 1 && wait <= 1000 * r && (r > 1 ==> 1000 * (r - 1) < wait)
  {
  }

  /** A window counted past its limit refuses to its end, and the first request counted later opens a
      new one. */
  lemma RedisWindowDecides(g: Guard, refused: Request, later: seq<Request>, again: Request)
    requires AskedAgain(g, refused, later, again) && Step(g, refused).1.Rejected?
    requires forall i :: 0 <= i < |later| && later[i].key == refused.key ==> later[i].countedAt <= Deadline(g, refused)
    ensures var d := Step(Run(Step(g, refused).0, later), again).1;
            if again.countedAt <= Deadline(g, refused) then d.Rejected?
            else if again.limit == 0 then d.Rejected?
            else d == Admitted(again.limit - 1)
  {
    var g1 := Step(g, refused).0;
    RedisCounterKept(g1, later, refused.key);
    KeyAfterRedis(g, refused, refused.key);
    KeyAfterRedis(Run(g1, later), again, again.key);
  }

  /** Retry-After on Redis is long enough: after r seconds the window is at its end, and a request of
      the key counted past it, the first one, is admitted with a whole new window before it. */
  lemma RedisRetryEnough(g: Guard, refused: Request, later: seq<Request>, again: Request)
    requires AskedAgain(g, refused, later, again) && Step(g, refused).1.Rejected?
    requires forall i :: 0 <= i < |later| && later[i].key == refused.key ==> later[i].countedAt <= Deadline(g, refused)
    requires again.countedAt > refused.askedAt + 1000 * Step(g, refused).1.retryAfterSeconds
    ensures Deadline(g, refused) <= refused.askedAt + 1000 * Step(g, refused).1.retryAfterSeconds
    ensures again.limit >= 1 ==> Step(Run(Step(g, refused).0, later), again).1 == Admitted(again.limit - 1)
  {
    RedisRetryValue(g, refused);
    RedisWindowDecides(g, refused, later, again);
  }

  /** Up to r - 1 seconds after asking, less the time the answer took, the key is still refused. */
  ghost predicate RetryIsTight(g: Guard, refused: Request)
    requires Step(g, refused).1.Rejected?
  {
    forall later: seq<Request>, again: Request ::
      AskedAgain(g, refused, later, again) && Early(g, refused, again) ==>
        Step(Run(Step(g, refused).0, later), again).1.Rejected?
  }

  predicate Early(g: Guard, refused: Request, again: Request)
    requires Step(g, refused).1.Rejected?
  {
    again.countedAt + refused.answeredAt <=
    refused.askedAt + 1000 * (Step(g, refused).1.retryAfterSeconds - 1) + refused.countedAt
  }

  lemma TightBeforeDeadline(g: Guard, refused: Request, later: seq<Request>, again: Request)
    requires AskedAgain(g, refused, later, again) && Step(g, refused).1.Rejected?
    requires again.countedAt <= Deadline(g, refused)
    ensures Step(Run(Step(g, refused).0, later), again).1.Rejected?
  {
    forall i | 0 <= i < |later| ensures later[i].countedAt <= Deadline(g, refused) {
      CountedByEnd(refused.countedAt, later, i);
    }
    RedisWindowDecides(g, refused, later, again);
  }

  /** Retry-After on Redis is tight except for a request counted at the last moment of its window, when
      no time to live is left and a whole window is announced instead: then a request one millisecond
      later is admitted, if it still falls in the time announced. */
  lemma RedisRetryTightIff(g: Guard, refused: Request)
    requires g.redisEnabled && refused.redisAnswers && refused.limit >= 1
    requires refused.askedAt <= refused.countedAt <= refused.answeredAt && Step(g, refused).1.Rejected?
    ensures RetryIsTight(g, refused) <==>
            || refused.countedAt < Deadline(g, refused)
            || refused.answeredAt + 1 > refused.askedAt + 1000 * (Step(g, refused).1.retryAfterSeconds - 1)
  {
    RedisRetryValue(g, refused);
    var r := Step(g, refused).1.retryAfterSeconds;
    if refused.countedAt < Deadline(g, refused) || refused.answeredAt + 1 > refused.askedAt + 1000 * (r - 1) {
      forall later: seq<Request>, again: Request | AskedAgain(g, refused, later, again) && Early(g, refused, again)
        ensures Step(Run(Step(g, refused).0, later), again).1.Rejected?
      {
        EndNotBefore(refused.countedAt, later);
        TightBeforeDeadline(g, refused, later, again);
      }
    } else {
      var at := refused.countedAt + 1;
      var again := refused.(askedAt := at, countedAt := at, answeredAt := at);
      KeyAfterRedis(g, refused, refused.key);
      assert Run(Step(g, refused).0, []) == Step(g, refused).0;
      assert AskedAgain(g, refused, [], again) && Early(g, refused, again);
      RedisWindowDecides(g, refused, [], again);
    }
  }

  // ---------------------------------------------------------------- remaining requests

  /** The store that judges the request has no open window for its key. */
  predicate FirstInWindow(g: Guard, r: Request) {
    if g.redisEnabled && r.redisAnswers then r.key !in g.redis || g.redis[r.key].deadline < r.countedAt
    else r.key !in g.memory.counters || g.memory.counters[r.key].resetAt <= r.countedAt
  }

  /** The first request of a window leaves all the others of the limit. */
  lemma FirstAnswer(g: Guard, r: Request)
    requires FirstInWindow(g, r)
    ensures r.limit >= 1 ==> Step(g, r).1 == Admitted(r.limit - 1)
    ensures r.limit == 0 ==> Step(g, r).1.Rejected?
  {
    if g.redisEnabled && r.redisAnswers {
      KeyAfterRedis(g, r, r.key);
    } else {
      KeyAfterMemory(g, r, r.key);
    }
  }

  /** Two requests of a key with only other keys between are judged by one store, in one window. */
  ghost predicate SameWindow(g: Guard, r: Request, later: seq<Request>, again: Request) {
    var g1 := Step(g, r).0;
    && Chronological(r.countedAt, later) && End(r.countedAt, later) <= again.countedAt
    && again.key == r.key && again.limit == r.limit
    && (forall i :: 0 <= i < |later| ==> later[i].key != r.key)
    && if g.redisEnabled && r.redisAnswers then
         Run(g1, later).redisEnabled && again.redisAnswers && again.countedAt <= g1.redis[r.key].deadline
       else again.countedAt < g1.memory.counters[r.key].resetAt
  }

  /** The remaining number counts down: after an answer that leaves k, the next request of the window is
      admitted with k - 1 left, and refused if k was 0; after a refusal it is refused. */
  lemma RemainingCountsDown(g: Guard, r: Request, later: seq<Request>, again: Request)
    requires SameWindow(g, r, later, again)
    ensures var (g1, first) := Step(g, r);
            var second := Step(Run(g1, later), again).1;
            match first {
              case Admitted(k) => if k >= 1 then second == Admitted(k - 1) else second.Rejected?
              case Rejected(_) => second.Rejected?
            }
  {
    var g1 := Step(g, r).0;
    if g.redisEnabled && r.redisAnswers {
      RedisCounterKept(g1, later, r.key);
    } else {
      EndNotBefore(r.countedAt, later);
      MemoryEntryKept(g1, later, r.key, r.countedAt);
    }
  }

  /** The sweep runs when a request is counted in memory, at most once a minute, and takes exactly the
      counters whose window is over. */
  lemma SweepSchedule(g: Guard, r: Request, other: string)
    requires !g.redisEnabled && other != r.key
    ensures var m' := Step(g, r).0.memory;
            var due := r.countedAt >= g.memory.lastCleanupAt + 60_000;
            var e := Lookup(g.memory.counters, other);
            && m'.lastCleanupAt == (if due then r.countedAt else g.memory.lastCleanupAt)
            && Lookup(m'.counters, other) == if due && e.Some? && e.value.resetAt <= r.countedAt then None else e
  {
  }
}
