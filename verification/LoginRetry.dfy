/**
 The retry time of a locked login, on both stores, and what the service does when the lockout is
 switched off or its sweep is due.
 */
module LoginRetry {
  import opened Wrappers
  import opened LoginAttempts
  import opened LoginAttemptLaws

  function StoreRun(c: Config, onRedis: bool, s: Store, calls: seq<Call>): Store
    decreases |calls|
  {
    if calls == [] then s else StoreRun(c, onRedis, StoreStep(c, onRedis, s, calls[0]).0, calls[1..])
  }

  const EMPTY_STORE := Store(EMPTY_MEMORY, EMPTY_REDIS)

  function CheckAt(key: string, at: nat): Call {
    Call(at, key, Kind.AssertNotLocked)
  }

  /** No failure and no success of the key is recorded. */
  ghost predicate OnlyChecked(calls: seq<Call>, key: string) {
    forall i :: 0 <= i < |calls| && calls[i].key == key ==> calls[i].kind == Kind.AssertNotLocked
  }

  /** A Redis lock expires when it ends. */
  ghost predicate EntriesMatch(r: Redis) {
    forall k :: k in r.locks ==> r.locks[k].expiresAt == r.locks[k].lockUntil
  }

  lemma {:induction false} EntriesMatchRun(c: Config, onRedis: bool, s: Store, calls: seq<Call>)
    requires EntriesMatch(s.redis)
    ensures EntriesMatch(StoreRun(c, onRedis, s, calls).redis)
    decreases |calls|
  {
    if calls != [] {
      EntriesMatchRun(c, onRedis, StoreStep(c, onRedis, s, calls[0]).0, calls[1..]);
    }
  }

  /** The key's lock ends at `until`; once that is past, its record may be gone. */
  ghost predicate LockedUntil(onRedis: bool, s: Store, key: string, until: nat, now: nat) {
    if onRedis then Lookup(s.redis.locks, key) == Some(LockEntry(until, until))
    else
      var cur := Lookup(s.memory.attempts, key);
      (cur.Some? && cur.value.lockUntil == until) || (cur.None? && until <= now)
  }

  lemma {:induction false} LockedUntilRun(c: Config, onRedis: bool, s: Store, key: string, until: nat, calls: seq<Call>,
                                          now: nat)
    requires LockedUntil(onRedis, s, key, until, now)
    requires Chronological(now, calls) && OnlyChecked(calls, key)
    ensures LockedUntil(onRedis, StoreRun(c, onRedis, s, calls), key, until, End(now, calls))
    decreases |calls|
  {
    if calls != [] {
      LockedUntilRun(c, onRedis, StoreStep(c, onRedis, s, calls[0]).0, key, until, calls[1..], calls[0].at);
    }
  }

  /** While the lock of the key ends at `until`, a check is refused exactly before that moment, with the
      time left in whole seconds, rounded up. */
  lemma CheckAnswer(c: Config, onRedis: bool, s: Store, key: string, until: nat, at: nat)
    requires c.enabled && LockedUntil(onRedis, s, key, until, at)
    ensures var answer := StoreStep(c, onRedis, s, CheckAt(key, at)).1;
            && (at >= until ==> answer == Quiet)
            && (at < until ==>
                  && answer.Locked? && answer.retryAfterSeconds >= 1
                  && 1000 * (answer.retryAfterSeconds - 1) < until - at <= 1000 * answer.retryAfterSeconds)
  {
  }

  /** What a locked answer tells of the store. */
  lemma LockedMeans(c: Config, onRedis: bool, s: Store, key: string, at: nat) returns (until: nat)
    requires EntriesMatch(s.redis)
    requires StoreStep(c, onRedis, s, CheckAt(key, at)).1.Locked?
    ensures c.enabled && until > at
            && LockedUntil(onRedis, StoreStep(c, onRedis, s, CheckAt(key, at)).0, key, until, at)
    ensures LockedUntil(onRedis, s, key, until, at)
  {
    until := if onRedis then s.redis.locks[key].lockUntil else Cleanup(c, s.memory, at).attempts[key].lockUntil;
  }

  /** The retry time of the lockout is tight, on either store and after any run: when a check at t is
      refused with r seconds and no failure or success of the key comes after, every check from
      t + r seconds on is let through, and if r > 1 every check up to t + (r - 1) seconds is refused. */
  lemma LockRetryTight(c: Config, onRedis: bool, before: seq<Call>, key: string, t: nat, later: seq<Call>, at: nat)
    requires var s := StoreRun(c, onRedis, EMPTY_STORE, before);
             StoreStep(c, onRedis, s, CheckAt(key, t)).1.Locked?
    requires Chronological(t, later) && OnlyChecked(later, key) && End(t, later) <= at
    ensures var s := StoreRun(c, onRedis, EMPTY_STORE, before);
            var (s1, first) := StoreStep(c, onRedis, s, CheckAt(key, t));
            var second := StoreStep(c, onRedis, StoreRun(c, onRedis, s1, later), CheckAt(key, at)).1;
            var r := first.retryAfterSeconds;
            && r >= 1
            && (at >= t + 1000 * r ==> second == Quiet)
            && (r > 1 && at <= t + 1000 * (r - 1) ==> second.Locked?)
  {
    var s := StoreRun(c, onRedis, EMPTY_STORE, before);
    EntriesMatchRun(c, onRedis, EMPTY_STORE, before);
    var s1 := StoreStep(c, onRedis, s, CheckAt(key, t)).0;
    var until := LockedMeans(c, onRedis, s, key, t);
    CheckAnswer(c, onRedis, s, key, until, t);
    EndNotBefore(t, later);
    LockedUntilRun(c, onRedis, s1, key, until, later, t);
    CheckAnswer(c, onRedis, StoreRun(c, onRedis, s1, later), key, until, at);
  }

  /** Switched off, the lockout answers quietly to everything and records nothing. */
  lemma DisabledDoesNothing(c: Config, onRedis: bool, s: Store, call: Call)
    requires !c.enabled
    ensures StoreStep(c, onRedis, s, call) == (s, Quiet)
  {
  }

  /** A success forgets everything about its key, and nothing about any other. */
  lemma SuccessForgets(c: Config, onRedis: bool, s: Store, key: string, at: nat, other: string)
    requires c.enabled
    ensures var s' := StoreStep(c, onRedis, s, Call(at, key, Kind.RecordSuccess)).0;
            && (onRedis ==>
                  && key !in s'.redis.counters && key !in s'.redis.locks && s'.memory == s.memory
                  && (other != key ==>
                        && Lookup(s'.redis.counters, other) == Lookup(s.redis.counters, other)
                        && Lookup(s'.redis.locks, other) == Lookup(s.redis.locks, other)))
            && (!onRedis ==>
                  && key !in s'.memory.attempts && s'.redis == s.redis
                  && (other != key ==> Lookup(s'.memory.attempts, other) == Lookup(s.memory.attempts, other)))
  {
  }

  /** The sweep runs with a check or a failure, at most once a minute, and takes exactly the records
      whose window and lock are both over; a check also drops such a record of its own key. */
  lemma SweepSchedule(c: Config, m: Memory, call: Call, other: string)
    requires c.enabled && call.kind != Kind.RecordSuccess && other != call.key
    ensures var m' := Step(c, m, call).0;
            var due := call.at >= m.lastCleanupAt + 60_000;
            var a := Lookup(m.attempts, other);
            var over := a.Some? && call.at > a.value.lastFailureAt + c.windowMs && a.value.lockUntil <= call.at;
            && m'.lastCleanupAt == (if due then call.at else m.lastCleanupAt)
            && Lookup(m'.attempts, other) == (if due && over then None else a)
    ensures var own := Lookup(m.attempts, call.key);
            call.kind == Kind.AssertNotLocked ==>
              Lookup(Step(c, m, call).0.attempts, call.key) ==
              if own.Some? && call.at > own.value.lastFailureAt + c.windowMs && own.value.lockUntil <= call.at
              then None else own
  {
  }
}
