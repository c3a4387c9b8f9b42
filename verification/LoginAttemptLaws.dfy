/**
 What the lockout promises over whole runs: lazy deletion cannot be observed, the backoff has a
 closed form, and exact conditions say when a lock can be shortened, how many failures a
 serial client can pile up, and when the in-memory store is at least as strict as Redis.
 */
module LoginAttemptLaws {
  import opened Wrappers
  import opened LoginAttempts

  // ---------------------------------------------------------------- lazy deletion

  /** The reference service: a record goes away only on a successful login. */
  function PlainStep(c: Config, m: map<string, Attempt>, call: Call): (map<string, Attempt>, Answer) {
    if !c.enabled then (m, Quiet)
    else
      match call.kind
      case AssertNotLocked =>
        (m, if call.key in m then LockAnswer(m[call.key].lockUntil, call.at) else Quiet)
      case RecordFailure => (m[call.key := AfterFailure(c, Lookup(m, call.key), call.at)], Quiet)
      case RecordSuccess => (m - {call.key}, Quiet)
  }

  function PlainRun(c: Config, m: map<string, Attempt>, calls: seq<Call>): map<string, Attempt>
    decreases |calls|
  {
    if calls == [] then m
    else PlainRun(c, PlainStep(c, m, calls[0]).0, calls[1..])
  }

  function PlainAnswers(c: Config, m: map<string, Attempt>, calls: seq<Call>): seq<Answer>
    decreases |calls|
  {
    if calls == [] then []
    else
      var (next, answer) := PlainStep(c, m, calls[0]);
      [answer] + PlainAnswers(c, next, calls[1..])
  }

  /** Same record, except that a lock already in the past may have been forgotten. */
  ghost predicate SameRecord(a: Attempt, b: Attempt, now: nat) {
    && a.failures == b.failures
    && a.lastFailureAt == b.lastFailureAt
    && (a.lockUntil == b.lockUntil || (a.lockUntil <= now && b.lockUntil <= now))
  }

  ghost predicate Agree(c: Config, swept: map<string, Attempt>, plain: map<string, Attempt>, now: nat) {
    && swept.Keys <= plain.Keys
    && (forall k :: k in swept ==> SameRecord(swept[k], plain[k], now))
    && (forall k :: k in plain && k !in swept ==> Disposable(c, plain[k], now))
  }

  lemma AgreeStep(c: Config, m: Memory, plain: map<string, Attempt>, call: Call, now: nat)
    requires Agree(c, m.attempts, plain, now) && now <= call.at
    ensures Step(c, m, call).1 == PlainStep(c, plain, call).1
    ensures Agree(c, Step(c, m, call).0.attempts, PlainStep(c, plain, call).0, call.at)
  {
    assert Agree(c, m.attempts, plain, call.at);
    assert Agree(c, Cleanup(c, m, call.at).attempts, plain, call.at);
  }

  lemma {:induction false} AgreeRun(c: Config, m: Memory, plain: map<string, Attempt>, calls: seq<Call>, now: nat)
    requires Agree(c, m.attempts, plain, now) && Chronological(now, calls)
    ensures Answers(c, m, calls) == PlainAnswers(c, plain, calls)
    ensures Agree(c, Run(c, m, calls).attempts, PlainRun(c, plain, calls), End(now, calls))
    decreases |calls|
  {
    if calls != [] {
      AgreeStep(c, m, plain, calls[0], now);
      AgreeRun(c, Step(c, m, calls[0]).0, PlainStep(c, plain, calls[0]).0, calls[1..], calls[0].at);
    }
  }

  /** For every sequence of calls over any keys, every answer and every retry-after value is the
      one a service that never deletes lazily would give. */
  lemma LazyDeletionUnobservable(c: Config, calls: seq<Call>)
    requires Chronological(0, calls)
    ensures Answers(c, EMPTY_MEMORY, calls) == PlainAnswers(c, map[], calls)
  {
    AgreeRun(c, EMPTY_MEMORY, map[], calls, 0);
  }

  // ---------------------------------------------------------------- arithmetic of the backoff

  lemma {:induction false} Pow2Exceeds(n: nat)
    ensures Pow2(n) > n
  {
    if n > 0 {
      Pow2Exceeds(n - 1);
    }
  }

  lemma {:induction false} Pow2Monotone(i: nat, j: nat)
    requires i <= j
    ensures Pow2(i) <= Pow2(j)
    decreases j
  {
    if i < j {
      Pow2Monotone(i, j - 1);
    }
  }

  lemma TimesMonotone(a: nat, p: nat, q: nat)
    requires p <= q
    ensures a * p <= a * q
  {
  }

  lemma LockMsMonotone(c: Config, i: nat, j: nat)
    requires i <= j
    ensures LockMs(c, i) <= LockMs(c, j) <= c.maxLockMs
    ensures LockMs(c, 0) == Min(c.baseLockMs, c.maxLockMs)
  {
    Pow2Monotone(i, j);
    TimesMonotone(c.baseLockMs, Pow2(i), Pow2(j));
  }

  /** The doubling reaches the cap. */
  lemma LockMsCapped(c: Config, stage: nat)
    requires c.baseLockMs >= 1 && stage >= c.maxLockMs
    ensures LockMs(c, stage) == c.maxLockMs
  {
    Pow2Exceeds(stage);
    TimesMonotone(Pow2(stage), 1, c.baseLockMs);
  }

  // ---------------------------------------------------------------- runs, appended and split

  lemma {:induction false} RunAppend(c: Config, m: Memory, xs: seq<Call>, ys: seq<Call>)
    ensures Run(c, m, xs + ys) == Run(c, Run(c, m, xs), ys)
    decreases |xs|
  {
    if xs == [] {
      assert xs + ys == ys;
    } else {
      assert (xs + ys)[0] == xs[0] && (xs + ys)[1..] == xs[1..] + ys;
      RunAppend(c, Step(c, m, xs[0]).0, xs[1..], ys);
    }
  }

  ghost function End(from: nat, calls: seq<Call>): nat {
    if calls == [] then from else calls[|calls| - 1].at
  }

  lemma {:induction false} ChronologicalAppend(from: nat, xs: seq<Call>, ys: seq<Call>)
    requires Chronological(from, xs) && Chronological(End(from, xs), ys)
    ensures Chronological(from, xs + ys)
    ensures End(from, xs + ys) == End(End(from, xs), ys)
    decreases |xs|
  {
    if xs == [] {
      assert xs + ys == ys;
    } else {
      assert (xs + ys)[0] == xs[0] && (xs + ys)[1..] == xs[1..] + ys;
      ChronologicalAppend(xs[0].at, xs[1..], ys);
    }
  }

  lemma {:induction false} EndNotBefore(from: nat, calls: seq<Call>)
    requires Chronological(from, calls)
    ensures from <= End(from, calls)
    decreases |calls|
  {
    if calls != [] {
      EndNotBefore(calls[0].at, calls[1..]);
    }
  }

  function FailureAt(key: string, at: nat): Call {
    Call(at, key, Kind.RecordFailure)
  }

  lemma {:induction false} BurstChronological(key: string, at: nat, n: nat, from: nat)
    requires from <= at
    ensures Chronological(from, Repeat(FailureAt(key, at), n))
    decreases n
  {
    if n > 0 {
      assert Repeat(FailureAt(key, at), n)[1..] == Repeat(FailureAt(key, at), n - 1);
      BurstChronological(key, at, n - 1, at);
    }
  }

  /** A record whose window or lock is still open survives the sweep. */
  lemma FailureStep(c: Config, m: Memory, key: string, at: nat)
    requires c.enabled
    requires key in m.attempts ==> !Disposable(c, m.attempts[key], at)
    ensures var m' := Step(c, m, FailureAt(key, at)).0;
            key in m'.attempts && m'.attempts[key] == AfterFailure(c, Lookup(m.attempts, key), at)
  {
  }

  lemma {:induction false} BurstResult(c: Config, m: Memory, key: string, at: nat, n: nat)
    requires c.enabled && n >= 1
    requires key in m.attempts ==> !Disposable(c, m.attempts[key], at)
    ensures var m' := Run(c, m, Repeat(FailureAt(key, at), n));
            var failures := NextFailures(c, Lookup(m.attempts, key), at) + n - 1;
            && key in m'.attempts
            && m'.attempts[key].failures == failures
            && m'.attempts[key].lastFailureAt == at
            && (failures >= c.maxFailures ==> m'.attempts[key].lockUntil == at + LockMs(c, failures - c.maxFailures))
            && (failures < c.maxFailures ==>
                  m'.attempts[key].lockUntil == if key in m.attempts then m.attempts[key].lockUntil else 0)
    decreases n
  {
    var calls := Repeat(FailureAt(key, at), n);
    FailureStep(c, m, key, at);
    var m1 := Step(c, m, calls[0]).0;
    assert calls[1..] == Repeat(FailureAt(key, at), n - 1);
    assert calls[0] == FailureAt(key, at);
    if n == 1 {
      assert calls[1..] == [];
    } else {
      BurstResult(c, m1, key, at, n - 1);
    }
  }

  // ---------------------------------------------------------------- closed form of the backoff

  predicate IsFailure(call: Call, key: string) {
    call.key == key && call.kind == Kind.RecordFailure
  }

  /** When the failures of the key were recorded. */
  function FailureTimes(calls: seq<Call>, key: string): seq<nat>
    decreases |calls|
  {
    if calls == [] then []
    else
      var n := |calls| - 1;
      FailureTimes(calls[..n], key) + if IsFailure(calls[n], key) then [calls[n].at] else []
  }

  /** No success of the key, and each of its failures within the window of the one before. Checks of
      the key and calls of other keys may come anywhere. */
  ghost predicate Streak(c: Config, key: string, calls: seq<Call>)
    decreases |calls|
  {
    calls == [] ||
    (var n := |calls| - 1;
     var times := FailureTimes(calls[..n], key);
     && !(calls[n].key == key && calls[n].kind == Kind.RecordSuccess)
     && (IsFailure(calls[n], key) && times != [] ==> calls[n].at <= times[|times| - 1] + c.windowMs)
     && Streak(c, key, calls[..n]))
  }

  /** The record that `n` failures in a row earn, the last of them at `last`. */
  function EarnedRecord(c: Config, n: nat, last: nat): Attempt {
    Attempt(n, last, if n < c.maxFailures then 0 else last + LockMs(c, n - c.maxFailures))
  }

  /** The record is the earned one; it may be gone once its window and its lock are both over. */
  ghost predicate Holds(c: Config, cur: Option<Attempt>, times: seq<nat>, now: nat) {
    if times == [] then cur == None
    else
      var earned := EarnedRecord(c, |times|, times[|times| - 1]);
      && times[|times| - 1] <= now
      && (cur == Some(earned) || (cur == None && Disposable(c, earned, now)))
  }

  lemma HoldsStep(c: Config, m: Memory, key: string, call: Call, times: seq<nat>, now: nat)
    requires c.enabled && now <= call.at
    requires Holds(c, Lookup(m.attempts, key), times, now)
    requires !(call.key == key && call.kind == Kind.RecordSuccess)
    requires IsFailure(call, key) && times != [] ==> call.at <= times[|times| - 1] + c.windowMs
    ensures Holds(c, Lookup(Step(c, m, call).0.attempts, key),
                  times + if IsFailure(call, key) then [call.at] else [], call.at)
  {
    if IsFailure(call, key) {
      FailureStep(c, m, key, call.at);
    }
  }

  lemma {:induction false} ChronologicalFront(from: nat, calls: seq<Call>)
    requires Chronological(from, calls) && calls != []
    ensures Chronological(from, calls[..|calls| - 1])
    ensures End(from, calls[..|calls| - 1]) <= calls[|calls| - 1].at
    decreases |calls|
  {
    if |calls| > 1 {
      var n := |calls| - 1;
      ChronologicalFront(calls[0].at, calls[1..]);
      assert calls[1..][..n - 1] == calls[..n][1..];
    }
  }

  /** The store after any such run, from one without the key. */
  lemma {:induction false} StreakHolds(c: Config, m: Memory, key: string, calls: seq<Call>, from: nat)
    requires c.enabled && key !in m.attempts
    requires Chronological(from, calls) && Streak(c, key, calls)
    ensures Holds(c, Lookup(Run(c, m, calls).attempts, key), FailureTimes(calls, key), End(from, calls))
    decreases |calls|
  {
    if calls != [] {
      var n := |calls| - 1;
      var front, call := calls[..n], calls[n];
      assert calls == front + [call];
      RunAppend(c, m, front, [call]);
      var m0 := Run(c, m, front);
      assert Run(c, m0, [call]) == Step(c, m0, call).0 by {
        assert [call][1..] == [];
      }
      ChronologicalFront(from, calls);
      StreakHolds(c, m, key, front, from);
      HoldsStep(c, m0, key, call, FailureTimes(front, key), End(from, front));
    }
  }

  /** After n failures with gaps inside the window and no success, whatever checks and calls of other
      keys come between and after, the record counts n and, from the threshold on, its lock runs
      min(base * 2^(n - maxFailures), max) past the last failure, for as long as the window or the
      lock is open. */
  lemma BackoffClosedForm(c: Config, m: Memory, key: string, calls: seq<Call>, from: nat)
    requires c.enabled && key !in m.attempts
    requires Chronological(from, calls) && Streak(c, key, calls)
    ensures var times := FailureTimes(calls, key);
            var cur := Lookup(Run(c, m, calls).attempts, key);
            var n := |times|;
            && (n == 0 ==> cur == None)
            && (n > 0 ==>
                  var last := times[n - 1];
                  var lockUntil := if n < c.maxFailures then 0 else last + LockMs(c, n - c.maxFailures);
                  && last <= End(from, calls)
                  && (End(from, calls) <= last + c.windowMs || End(from, calls) < lockUntil ==>
                        cur == Some(Attempt(n, last, lockUntil)))
                  && (cur.Some? ==> cur == Some(Attempt(n, last, lockUntil))))
  {
    StreakHolds(c, m, key, calls, from);
  }

  // ---------------------------------------------------------------- a lock in force is not shortened

  /** No failure recorded anywhere in a run brings the end of a lock in force closer. */
  ghost predicate NeverShortens(c: Config) {
    forall calls: seq<Call>, key: string, at: nat ::
      (Chronological(0, calls) && End(0, calls) <= at ==>
         KeepsLock(Run(c, EMPTY_MEMORY, calls), Step(c, Run(c, EMPTY_MEMORY, calls), FailureAt(key, at)).0, key, at))
  }

  ghost predicate KeepsLock(m: Memory, m': Memory, key: string, at: nat) {
    key in m.attempts && m.attempts[key].lockUntil > at ==>
      key in m'.attempts && m'.attempts[key].lockUntil >= m.attempts[key].lockUntil
  }

  function Stage(c: Config, failures: nat): nat {
    if failures >= c.maxFailures then failures - c.maxFailures else 0
  }

  /** The lock never reaches past what the current count would earn at the last failure. */
  ghost predicate LockCovered(c: Config, a: Attempt, now: nat) {
    a.lastFailureAt <= now && a.lockUntil <= a.lastFailureAt + LockMs(c, Stage(c, a.failures))
  }

  ghost predicate LockEarned(c: Config, m: Memory, now: nat) {
    forall k :: k in m.attempts ==> LockCovered(c, m.attempts[k], now)
  }

  lemma FailureCovers(c: Config, cur: Option<Attempt>, at: nat)
    requires c.maxLockMs <= c.windowMs + 1 + c.baseLockMs
    requires cur.Some? ==> LockCovered(c, cur.value, at)
    ensures LockCovered(c, AfterFailure(c, cur, at), at)
    ensures cur.Some? && cur.value.lockUntil > at ==> cur.value.lockUntil <= AfterFailure(c, cur, at).lockUntil
  {
    if cur.Some? {
      var a := cur.value;
      var next := NextFailures(c, cur, at);
      LockMsMonotone(c, 0, Stage(c, next));
      LockMsMonotone(c, 0, Stage(c, a.failures));
      if !WindowExpired(c, a, at) {
        LockMsMonotone(c, Stage(c, a.failures), Stage(c, next));
      }
    }
  }

  lemma LockEarnedStep(c: Config, m: Memory, call: Call, now: nat)
    requires c.maxLockMs <= c.windowMs + 1 + c.baseLockMs
    requires LockEarned(c, m, now) && now <= call.at
    ensures LockEarned(c, Step(c, m, call).0, call.at)
    ensures call.kind == Kind.RecordFailure ==> KeepsLock(m, Step(c, m, call).0, call.key, call.at)
  {
    var swept := Cleanup(c, m, call.at);
    assert LockEarned(c, swept, call.at);
    if call.kind == Kind.RecordFailure {
      FailureCovers(c, Lookup(swept.attempts, call.key), call.at);
    }
  }

  lemma {:induction false} LockEarnedRun(c: Config, m: Memory, calls: seq<Call>, now: nat)
    requires c.maxLockMs <= c.windowMs + 1 + c.baseLockMs
    requires LockEarned(c, m, now) && Chronological(now, calls)
    ensures LockEarned(c, Run(c, m, calls), End(now, calls))
    decreases |calls|
  {
    if calls != [] {
      LockEarnedStep(c, m, calls[0], now);
      LockEarnedRun(c, Step(c, m, calls[0]).0, calls[1..], calls[0].at);
    }
  }

  /** With a long enough cap: lock for the cap at time 0, then a fresh streak just past the window. */
  lemma ShorteningRun(c: Config)
    requires c.enabled && Validated(c)
    requires c.maxLockMs > c.windowMs + 1 + c.baseLockMs
    ensures !NeverShortens(c)
  {
    var key := "k";
    var at := c.windowMs + 1;
    var first := Repeat(FailureAt(key, 0), c.maxFailures + c.maxLockMs);
    BurstChronological(key, 0, c.maxFailures + c.maxLockMs, 0);
    BurstResult(c, EMPTY_MEMORY, key, 0, c.maxFailures + c.maxLockMs);
    LockMsCapped(c, c.maxLockMs);
    LockMsMonotone(c, 0, 0);
    var second := Repeat(FailureAt(key, at), c.maxFailures - 1);
    BurstChronological(key, at, c.maxFailures - 1, 0);
    var m1 := Run(c, EMPTY_MEMORY, first);
    if c.maxFailures > 1 {
      BurstResult(c, m1, key, at, c.maxFailures - 1);
    }
    var calls := first + second;
    BurstChronological(key, at, c.maxFailures - 1, End(0, first));
    ChronologicalAppend(0, first, second);
    RunAppend(c, EMPTY_MEMORY, first, second);
    var m2 := Run(c, EMPTY_MEMORY, calls);
    FailureStep(c, m2, key, at);
    assert !KeepsLock(m2, Step(c, m2, FailureAt(key, at)).0, key, at);
  }

  /** A lock in force survives every later failure, in every interleaving of calls, exactly when
      the cap does not exceed the window by more than the base lock. */
  lemma NeverShortensIff(c: Config)
    requires c.enabled && Validated(c)
    ensures NeverShortens(c) <==> c.maxLockMs <= c.windowMs + 1 + c.baseLockMs
  {
    if c.maxLockMs > c.windowMs + 1 + c.baseLockMs {
      ShorteningRun(c);
    } else {
      forall calls: seq<Call>, key: string, at: nat | Chronological(0, calls) && End(0, calls) <= at
        ensures var m := Run(c, EMPTY_MEMORY, calls); KeepsLock(m, Step(c, m, FailureAt(key, at)).0, key, at)
      {
        LockEarnedRun(c, EMPTY_MEMORY, calls, 0);
        LockEarnedStep(c, Run(c, EMPTY_MEMORY, calls), FailureAt(key, at), End(0, calls));
      }
    }
  }

  /** The shipped settings are on the other side: an interleaved failure can shorten a lock. */
  lemma ShippedSettingsCanShorten()
    ensures !NeverShortens(SHIPPED)
  {
    NeverShortensIff(SHIPPED);
  }

  // ---------------------------------------------------------------- how far a serial client gets

  predicate InForce(m: Memory, key: string, at: nat) {
    key in m.attempts && m.attempts[key].lockUntil > at
  }

  /** No failure is recorded against a key whose lock is in force. */
  ghost predicate Guarded(c: Config, m: Memory, calls: seq<Call>)
    decreases |calls|
  {
    calls == [] ||
    (&& (calls[0].kind == Kind.RecordFailure ==> !InForce(m, calls[0].key, calls[0].at))
     && Guarded(c, Step(c, m, calls[0]).0, calls[1..]))
  }

  /** A count past the threshold was reached only across locks no longer than the window. */
  ghost predicate CountEarned(c: Config, failures: nat) {
    failures >= 1 && forall stage: nat :: stage + c.maxFailures < failures ==> LockMs(c, stage) <= c.windowMs
  }

  ghost predicate RecordEarned(c: Config, a: Attempt, now: nat) {
    && a.lastFailureAt <= now
    && CountEarned(c, a.failures)
    && (a.failures < c.maxFailures ==> a.lockUntil <= a.lastFailureAt)
    && (a.failures >= c.maxFailures ==> a.lockUntil == a.lastFailureAt + LockMs(c, a.failures - c.maxFailures))
  }

  ghost predicate AllEarned(c: Config, m: Memory, now: nat) {
    forall k :: k in m.attempts ==> RecordEarned(c, m.attempts[k], now)
  }

  lemma EarnedStep(c: Config, m: Memory, call: Call, now: nat)
    requires c.maxFailures >= 1 && AllEarned(c, m, now) && now <= call.at
    requires call.kind == Kind.RecordFailure ==> !InForce(m, call.key, call.at)
    ensures AllEarned(c, Step(c, m, call).0, call.at)
  {
    var swept := Cleanup(c, m, call.at);
    assert AllEarned(c, swept, call.at);
    if call.kind == Kind.RecordFailure && call.key in swept.attempts {
      var a := swept.attempts[call.key];
      assert RecordEarned(c, a, call.at);
      assert RecordEarned(c, AfterFailure(c, Some(a), call.at), call.at);
    }
  }

  /** Whatever else overlaps, as long as no failure is recorded against a locked key: every record
      counts only failures paid for, and its lock is exactly the one that count earns. */
  lemma {:induction false} GuardedRunsEarn(c: Config, m: Memory, calls: seq<Call>, now: nat)
    requires c.maxFailures >= 1
    requires AllEarned(c, m, now) && Chronological(now, calls) && Guarded(c, m, calls)
    ensures AllEarned(c, Run(c, m, calls), End(now, calls))
    decreases |calls|
  {
    if calls != [] {
      EarnedStep(c, m, calls[0], now);
      GuardedRunsEarn(c, Step(c, m, calls[0]).0, calls[1..], calls[0].at);
    }
  }

  /** One login request: checked, then recorded, then (after a failure) checked again. */
  datatype Login = Login(key: string, checkAt: nat, recordAt: nat, recheckAt: nat, valid: bool)

  /** The lockout calls a login makes, given what its first check answers. */
  function LoginCalls(c: Config, m: Memory, l: Login): seq<Call> {
    var check := Call(l.checkAt, l.key, Kind.AssertNotLocked);
    if Step(c, m, check).1.Locked? then [check]
    else if l.valid then [check, Call(l.recordAt, l.key, Kind.RecordSuccess)]
    else [check, FailureAt(l.key, l.recordAt), Call(l.recheckAt, l.key, Kind.AssertNotLocked)]
  }

  function SerialCalls(c: Config, m: Memory, logins: seq<Login>): seq<Call>
    decreases |logins|
  {
    if logins == [] then []
    else
      var calls := LoginCalls(c, m, logins[0]);
      calls + SerialCalls(c, Run(c, m, calls), logins[1..])
  }

  /** Each request finishes before the next one starts. */
  ghost predicate Serial(from: nat, logins: seq<Login>)
    decreases |logins|
  {
    logins == [] ||
    (&& from <= logins[0].checkAt <= logins[0].recordAt <= logins[0].recheckAt
     && Serial(logins[0].recheckAt, logins[1..]))
  }

  lemma ThreeSteps(c: Config, m: Memory, x: Call, y: Call, z: Call)
    ensures Run(c, m, [x, y, z]) == Step(c, Step(c, Step(c, m, x).0, y).0, z).0
    ensures forall from: nat :: from <= x.at <= y.at <= z.at ==> Chronological(from, [x, y, z])
  {
    var m1 := Step(c, m, x).0;
    var m2 := Step(c, m1, y).0;
    assert [z][1..] == [] && [y, z][1..] == [z] && [x, y, z][1..] == [y, z];
    assert Run(c, m2, [z]) == Step(c, m2, z).0;
    assert Run(c, m1, [y, z]) == Run(c, m2, [z]);
    forall from: nat | from <= x.at <= y.at <= z.at ensures Chronological(from, [x, y, z]) {
      assert Chronological(z.at, []) && Chronological(y.at, [z]) && Chronological(x.at, [y, z]);
    }
  }

  /** What one login request leaves of the failure records. */
  function AfterLogin(c: Config, m: Memory, l: Login): Memory {
    var check := Step(c, m, Call(l.checkAt, l.key, Kind.AssertNotLocked));
    if check.1.Locked? then check.0
    else if l.valid then Step(c, check.0, Call(l.recordAt, l.key, Kind.RecordSuccess)).0
    else Step(c, Step(c, check.0, FailureAt(l.key, l.recordAt)).0, Call(l.recheckAt, l.key, Kind.AssertNotLocked)).0
  }

  /** The login request as the service runs it makes exactly the calls of LoginCalls. */
  lemma LoginRun(c: Config, m: Memory, l: Login)
    ensures Run(c, m, LoginCalls(c, m, l)) == AfterLogin(c, m, l)
  {
    var check := Call(l.checkAt, l.key, Kind.AssertNotLocked);
    var calls := LoginCalls(c, m, l);
    var m1 := Step(c, m, check).0;
    if |calls| == 3 {
      ThreeSteps(c, m, calls[0], calls[1], calls[2]);
    } else {
      assert Run(c, m, calls) == Run(c, m1, calls[1..]);
      if |calls| == 2 {
        assert calls[1..] == [calls[1]] && [calls[1]][1..] == [];
        assert Run(c, m1, [calls[1]]) == Run(c, Step(c, m1, calls[1]).0, []);
      }
    }
  }

  // ---------------------------------------------------------------- one login per key at a time

  /** The logins of one key do not overlap: a failure of the key is recorded only if the last call
      of that key was a check that let it through. Logins of different keys overlap freely. */
  ghost predicate PerKeySerial(c: Config, m: Memory, calls: seq<Call>, cleared: set<string>)
    decreases |calls|
  {
    calls == [] ||
    (&& (calls[0].kind == Kind.RecordFailure ==> calls[0].key in cleared)
     && PerKeySerial(c, Step(c, m, calls[0]).0, calls[1..], Cleared(c, m, calls[0], cleared)))
  }

  /** The keys whose last call let a login through, after one more call. */
  function Cleared(c: Config, m: Memory, call: Call, cleared: set<string>): set<string> {
    if call.kind == Kind.AssertNotLocked && Step(c, m, call).1 == Quiet then cleared + {call.key}
    else cleared - {call.key}
  }

  ghost predicate NoneInForce(m: Memory, keys: set<string>, now: nat) {
    forall k :: k in keys ==> !InForce(m, k, now)
  }

  lemma ClearedStep(c: Config, m: Memory, call: Call, cleared: set<string>, now: nat)
    requires c.enabled && now <= call.at && NoneInForce(m, cleared, now)
    ensures NoneInForce(Step(c, m, call).0, Cleared(c, m, call, cleared), call.at)
  {
    var swept := Cleanup(c, m, call.at);
    assert forall k :: k in swept.attempts ==> k in m.attempts && swept.attempts[k] == m.attempts[k];
  }

  /** However logins of other keys overlap: no failure is recorded against a locked key. */
  lemma {:induction false} PerKeySerialGuarded(c: Config, m: Memory, calls: seq<Call>, cleared: set<string>, now: nat)
    requires c.enabled && Chronological(now, calls)
    requires NoneInForce(m, cleared, now) && PerKeySerial(c, m, calls, cleared)
    ensures Guarded(c, m, calls)
    decreases |calls|
  {
    if calls != [] {
      ClearedStep(c, m, calls[0], cleared, now);
      PerKeySerialGuarded(c, Step(c, m, calls[0]).0, calls[1..], Cleared(c, m, calls[0], cleared), calls[0].at);
    }
  }

  /** No failure recorded in the run brings the end of a lock in force closer. */
  ghost predicate KeepsLocks(c: Config, m: Memory, calls: seq<Call>)
    decreases |calls|
  {
    calls == [] ||
    (&& (calls[0].kind == Kind.RecordFailure ==> KeepsLock(m, Step(c, m, calls[0]).0, calls[0].key, calls[0].at))
     && KeepsLocks(c, Step(c, m, calls[0]).0, calls[1..]))
  }

  lemma {:induction false} GuardedKeepsLocks(c: Config, m: Memory, calls: seq<Call>)
    requires Guarded(c, m, calls)
    ensures KeepsLocks(c, m, calls)
    decreases |calls|
  {
    if calls != [] {
      GuardedKeepsLocks(c, Step(c, m, calls[0]).0, calls[1..]);
    }
  }

  /** Whatever the settings: in per-key serial runs a lock in force is never shortened. */
  lemma PerKeySerialNeverShortens(c: Config, calls: seq<Call>)
    requires c.enabled && Chronological(0, calls) && PerKeySerial(c, EMPTY_MEMORY, calls, {})
    ensures KeepsLocks(c, EMPTY_MEMORY, calls)
  {
    PerKeySerialGuarded(c, EMPTY_MEMORY, calls, {}, 0);
    GuardedKeepsLocks(c, EMPTY_MEMORY, calls);
  }

  // ---------------------------------------------------------------- a series of logins

  /** Per-key serial whatever the last calls of the keys were before. */
  ghost predicate SerialFromAnywhere(c: Config, m: Memory, calls: seq<Call>) {
    forall cleared: set<string> :: PerKeySerial(c, m, calls, cleared)
  }

  lemma {:induction false} PerKeyAppend(c: Config, m: Memory, xs: seq<Call>, ys: seq<Call>, cleared: set<string>)
    requires PerKeySerial(c, m, xs, cleared) && SerialFromAnywhere(c, Run(c, m, xs), ys)
    ensures PerKeySerial(c, m, xs + ys, cleared)
    decreases |xs|
  {
    if xs == [] {
      assert xs + ys == ys;
      assert PerKeySerial(c, m, ys, cleared);
    } else {
      assert (xs + ys)[0] == xs[0] && (xs + ys)[1..] == xs[1..] + ys;
      PerKeyAppend(c, Step(c, m, xs[0]).0, xs[1..], ys, Cleared(c, m, xs[0], cleared));
    }
  }

  lemma LoginPerKey(c: Config, m: Memory, l: Login, from: nat, cleared: set<string>)
    requires from <= l.checkAt <= l.recordAt <= l.recheckAt
    ensures PerKeySerial(c, m, LoginCalls(c, m, l), cleared)
    ensures Chronological(from, LoginCalls(c, m, l))
    ensures End(from, LoginCalls(c, m, l)) <= l.recheckAt
  {
    var calls := LoginCalls(c, m, l);
    var m1 := Step(c, m, calls[0]).0;
    var cleared1 := Cleared(c, m, calls[0], cleared);
    if |calls| == 3 {
      ThreeSteps(c, m, calls[0], calls[1], calls[2]);
      assert calls[1..][1..] == [calls[2]] && [calls[2]][1..] == [];
      assert PerKeySerial(c, m1, calls[1..], cleared1);
    } else {
      assert calls[1..] == [] || (calls[1..] == [calls[1]] && calls[1..][1..] == []);
      assert PerKeySerial(c, m1, calls[1..], cleared1);
      assert Chronological(calls[0].at, calls[1..]);
    }
  }

  /** A series of logins, each finished before the next one starts, is a per-key serial run. */
  lemma {:induction false} SerialLoginsPerKey(c: Config, m: Memory, logins: seq<Login>, from: nat, start: nat,
                                              cleared: set<string>)
    requires from <= start && Serial(start, logins)
    ensures PerKeySerial(c, m, SerialCalls(c, m, logins), cleared)
    ensures Chronological(from, SerialCalls(c, m, logins))
    decreases |logins|
  {
    if logins != [] {
      var calls := LoginCalls(c, m, logins[0]);
      LoginPerKey(c, m, logins[0], from, cleared);
      EndNotBefore(from, calls);
      var next := Run(c, m, calls);
      var rest := SerialCalls(c, next, logins[1..]);
      forall after: set<string> ensures PerKeySerial(c, next, rest, after) && Chronological(End(from, calls), rest) {
        SerialLoginsPerKey(c, next, logins[1..], End(from, calls), logins[0].recheckAt, after);
      }
      assert SerialFromAnywhere(c, next, rest) && Chronological(End(from, calls), rest) by {
        assert PerKeySerial(c, next, rest, {});
      }
      PerKeyAppend(c, m, calls, rest, cleared);
      ChronologicalAppend(from, calls, rest);
    }
  }

  /** Some key can be brought to `n` counted failures by a per-key serial run. */
  ghost predicate PerKeyReachable(c: Config, n: nat) {
    exists calls: seq<Call>, key: string ::
      && Chronological(0, calls) && PerKeySerial(c, EMPTY_MEMORY, calls, {})
      && CountsTo(Run(c, EMPTY_MEMORY, calls), key, n)
  }

  /** Some key can be brought to `n` counted failures by logins made one after the other. */
  ghost predicate SeriallyReachable(c: Config, n: nat) {
    exists logins: seq<Login>, key: string :: Serial(0, logins) && ReachesCount(c, logins, key, n)
  }

  predicate CountsTo(m: Memory, key: string, n: nat) {
    key in m.attempts && m.attempts[key].failures == n
  }

  ghost predicate ReachesCount(c: Config, logins: seq<Login>, key: string, n: nat) {
    CountsTo(Run(c, EMPTY_MEMORY, SerialCalls(c, EMPTY_MEMORY, logins)), key, n)
  }

  /** A failed login at the first moment it is let through. */
  lemma FailedLogin(c: Config, m: Memory, key: string, at: nat)
    requires c.enabled
    requires key in m.attempts ==> m.attempts[key].lockUntil <= at && !WindowExpired(c, m.attempts[key], at)
    ensures var m' := Run(c, m, LoginCalls(c, m, Login(key, at, at, at, false)));
            key in m'.attempts && m'.attempts[key] == AfterFailure(c, Lookup(m.attempts, key), at)
  {
    var check := Call(at, key, Kind.AssertNotLocked);
    ThreeSteps(c, m, check, FailureAt(key, at), check);
    var m1 := Step(c, m, check).0;
    FailureStep(c, m1, key, at);
    var m2 := Step(c, m1, FailureAt(key, at)).0;
    assert !Disposable(c, m2.attempts[key], at);
  }

  lemma {:induction false} SerialCallsAppend(c: Config, m: Memory, logins: seq<Login>, l: Login)
    ensures SerialCalls(c, m, logins + [l]) ==
            SerialCalls(c, m, logins) + LoginCalls(c, Run(c, m, SerialCalls(c, m, logins)), l)
    decreases |logins|
  {
    if logins == [] {
      assert logins + [l] == [l] && [l][1..] == [];
      var calls := LoginCalls(c, m, l);
      assert SerialCalls(c, m, [l]) == calls + SerialCalls(c, Run(c, m, calls), []);
      assert calls + [] == calls;
    } else {
      var calls := LoginCalls(c, m, logins[0]);
      assert (logins + [l])[0] == logins[0] && (logins + [l])[1..] == logins[1..] + [l];
      SerialCallsAppend(c, Run(c, m, calls), logins[1..], l);
      var rest := SerialCalls(c, Run(c, m, calls), logins[1..]);
      RunAppend(c, m, calls, rest);
      var m1 := Run(c, Run(c, m, calls), rest);
      assert calls + (rest + LoginCalls(c, m1, l)) == (calls + rest) + LoginCalls(c, m1, l);
    }
  }

  lemma {:induction false} SerialAppend(from: nat, logins: seq<Login>, at: nat, l: Login)
    requires Serial(from, logins) && from <= at
    requires forall i :: 0 <= i < |logins| ==> logins[i].recheckAt <= at
    requires l.checkAt == l.recordAt == l.recheckAt == at
    ensures Serial(from, logins + [l])
    decreases |logins|
  {
    if logins != [] {
      assert (logins + [l])[0] == logins[0] && (logins + [l])[1..] == logins[1..] + [l];
      SerialAppend(logins[0].recheckAt, logins[1..], at, l);
    } else {
      assert (logins + [l])[1..] == [];
    }
  }

  /** Where a series of logins of key "k" has brought its record. */
  ghost predicate Brought(c: Config, logins: seq<Login>, a: Attempt) {
    && Serial(0, logins)
    && Lookup(Run(c, EMPTY_MEMORY, SerialCalls(c, EMPTY_MEMORY, logins)).attempts, "k") == Some(a)
    && forall i :: 0 <= i < |logins| ==> logins[i].recheckAt <= a.lastFailureAt
  }

  lemma FirstLogin(c: Config) returns (logins: seq<Login>)
    requires c.enabled
    ensures Brought(c, logins, AfterFailure(c, None, 0))
  {
    logins := [Login("k", 0, 0, 0, false)];
    FailedLogin(c, EMPTY_MEMORY, "k", 0);
    assert logins[1..] == [];
    var calls := LoginCalls(c, EMPTY_MEMORY, logins[0]);
    assert SerialCalls(c, EMPTY_MEMORY, logins) == calls + [] == calls;
  }

  lemma OneMoreLogin(c: Config, front: seq<Login>, a: Attempt, at: nat) returns (logins: seq<Login>)
    requires c.enabled && Brought(c, front, a)
    requires a.lastFailureAt <= at && a.lockUntil <= at && !WindowExpired(c, a, at)
    ensures Brought(c, logins, AfterFailure(c, Some(a), at))
  {
    var calls := SerialCalls(c, EMPTY_MEMORY, front);
    var m := Run(c, EMPTY_MEMORY, calls);
    var l := Login("k", at, at, at, false);
    logins := front + [l];
    FailedLogin(c, m, "k", at);
    SerialAppend(0, front, at, l);
    SerialCallsAppend(c, EMPTY_MEMORY, front, l);
    RunAppend(c, EMPTY_MEMORY, calls, LoginCalls(c, m, l));
  }

  /** The most patient attacker: fail again the moment each lock runs out. */
  lemma {:induction false} PersistentLogins(c: Config, n: nat) returns (logins: seq<Login>, a: Attempt)
    requires c.enabled && c.maxFailures >= 1 && CountEarned(c, n)
    ensures Brought(c, logins, a) && a.failures == n
    ensures RecordEarned(c, a, a.lastFailureAt)
    decreases n
  {
    if n == 1 {
      logins := FirstLogin(c);
      a := AfterFailure(c, None, 0);
    } else {
      var front, before := PersistentLogins(c, n - 1);
      var at := Max(before.lastFailureAt, before.lockUntil);
      logins := OneMoreLogin(c, front, before, at);
      a := AfterFailure(c, Some(before), at);
    }
  }

  /** Exactly the counts whose earlier locks all fit in the window can be reached by per-key serial
      runs, and a plain series of logins reaches them too. */
  lemma SerialReachIff(c: Config, n: nat)
    requires c.enabled && Validated(c)
    ensures PerKeyReachable(c, n) <==> CountEarned(c, n)
    ensures SeriallyReachable(c, n) <==> CountEarned(c, n)
  {
    if CountEarned(c, n) {
      var logins, a := PersistentLogins(c, n);
      assert ReachesCount(c, logins, "k", n);
    }
    if SeriallyReachable(c, n) {
      var logins: seq<Login>, key: string :| Serial(0, logins) && ReachesCount(c, logins, key, n);
      SerialLoginsPerKey(c, EMPTY_MEMORY, logins, 0, 0, {});
      assert PerKeyReachable(c, n);
    }
    if PerKeyReachable(c, n) {
      var calls: seq<Call>, key: string :|
        && Chronological(0, calls) && PerKeySerial(c, EMPTY_MEMORY, calls, {})
        && CountsTo(Run(c, EMPTY_MEMORY, calls), key, n);
      PerKeySerialGuarded(c, EMPTY_MEMORY, calls, {}, 0);
      GuardedRunsEarn(c, EMPTY_MEMORY, calls, 0);
    }
  }

  ghost predicate WithinBound(c: Config, m: Memory, key: string, failures: nat, lockMs: nat) {
    key in m.attempts ==>
      && m.attempts[key].failures <= failures
      && m.attempts[key].lockUntil <= m.attempts[key].lastFailureAt + lockMs
  }

  /** If `s` is a stage whose lock outlasts the window, no per-key serial run gets a key past
      `maxFailures + s` failures or a lock of `LockMs(s)`. */
  lemma PerKeyLockBound(c: Config, calls: seq<Call>, key: string, s: nat)
    requires c.enabled && Validated(c)
    requires Chronological(0, calls) && PerKeySerial(c, EMPTY_MEMORY, calls, {})
    requires LockMs(c, s) > c.windowMs
    ensures WithinBound(c, Run(c, EMPTY_MEMORY, calls), key, c.maxFailures + s, LockMs(c, s))
  {
    PerKeySerialGuarded(c, EMPTY_MEMORY, calls, {}, 0);
    GuardedRunsEarn(c, EMPTY_MEMORY, calls, 0);
    var m := Run(c, EMPTY_MEMORY, calls);
    if key in m.attempts {
      var a := m.attempts[key];
      assert RecordEarned(c, a, End(0, calls));
      assert s + c.maxFailures < a.failures ==> LockMs(c, s) <= c.windowMs;
      if a.failures >= c.maxFailures {
        LockMsMonotone(c, a.failures - c.maxFailures, s);
      }
    }
  }

  /** In particular for a series of logins of all keys. */
  lemma SerialLockBound(c: Config, logins: seq<Login>, key: string, s: nat)
    requires c.enabled && Validated(c) && Serial(0, logins)
    requires LockMs(c, s) > c.windowMs
    ensures WithinBound(c, Run(c, EMPTY_MEMORY, SerialCalls(c, EMPTY_MEMORY, logins)), key, c.maxFailures + s,
                        LockMs(c, s))
  {
    SerialLoginsPerKey(c, EMPTY_MEMORY, logins, 0, 0, {});
    PerKeyLockBound(c, SerialCalls(c, EMPTY_MEMORY, logins), key, s);
  }

  /** With the shipped settings: nine failures and a 16 minute lock, and nine is reached. */
  lemma ShippedSerialBound(calls: seq<Call>, key: string)
    requires Chronological(0, calls) && PerKeySerial(SHIPPED, EMPTY_MEMORY, calls, {})
    ensures WithinBound(SHIPPED, Run(SHIPPED, EMPTY_MEMORY, calls), key, 9, 960_000)
    ensures PerKeyReachable(SHIPPED, 9)
  {
    assert Pow2(2) == 4 && Pow2(3) == 8;
    assert LockMs(SHIPPED, 4) == 960_000 by { assert Pow2(4) == 16; }
    PerKeyLockBound(SHIPPED, calls, key, 4);
    assert LockMs(SHIPPED, 3) == 480_000;
    forall stage: nat | stage + 5 < 9 ensures LockMs(SHIPPED, stage) <= SHIPPED.windowMs {
      LockMsMonotone(SHIPPED, stage, 3);
    }
    SerialReachIff(SHIPPED, 9);
  }
}
