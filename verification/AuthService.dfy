/**
 The auth service as it runs one request at a time: each method makes its reads and writes on the
 tables in the order of the source, and its contract ties the new tables to the steps of
 AuthSessions. The lockout service is its collaborator. Uuids and signed tokens are new each time.
 */
module AuthServiceModel {
  import opened Wrappers
  import opened AuthSessions
  import opened AuthSerial
  import LoginAttempts
  import LoginAttemptLaws
  import LoginRetry

  /** The request handle of the one request in progress. */
  const ME: Id := 0

  /** The answer of a login: the lockout's 429, or the answer of the session step. */
  datatype LoginReply = TooManyAttempts(retryAfterSeconds: nat) | Judged(reply: Reply)

  /** What the lockout and the credentials say: refused with an answer, or let in to open a session. */
  datatype Verdict = LetIn | Denied(reply: LoginReply)

  /** What a login answers and leaves of the lockout store, given how the credentials were judged. */
  function LoginVerdict(c: LoginAttempts.Config, onRedis: bool, s: LoginAttempts.Store, l: LoginAttemptLaws.Login):
    (LoginAttempts.Store, Verdict)
  {
    var check := LoginAttempts.Call(l.checkAt, l.key, LoginAttempts.Kind.AssertNotLocked);
    var (s1, first) := LoginAttempts.StoreStep(c, onRedis, s, check);
    if first.Locked? then (s1, Denied(TooManyAttempts(first.retryAfterSeconds)))
    else if l.valid then
      var success := LoginAttempts.Call(l.recordAt, l.key, LoginAttempts.Kind.RecordSuccess);
      (LoginAttempts.StoreStep(c, onRedis, s1, success).0, LetIn)
    else Refusal(c, onRedis, s1, l.key, l.recordAt, l.recheckAt)
  }

  /** A failure is recorded, then answered 429 if the key is locked by now, else 401. */
  function Refusal(c: LoginAttempts.Config, onRedis: bool, s: LoginAttempts.Store, key: string, recordAt: nat,
                   recheckAt: nat):
    (LoginAttempts.Store, Verdict)
  {
    var s1 := LoginAttempts.StoreStep(c, onRedis, s, LoginAttemptLaws.FailureAt(key, recordAt)).0;
    var recheck := LoginAttempts.Call(recheckAt, key, LoginAttempts.Kind.AssertNotLocked);
    var (s2, second) := LoginAttempts.StoreStep(c, onRedis, s1, recheck);
    (s2, Denied(if second.Locked? then TooManyAttempts(second.retryAfterSeconds) else Judged(Unauthorized)))
  }

  /** On the in-memory store a login leaves what its calls leave, and is let in exactly if its key is
      not locked and its credentials match. */
  lemma VerdictInMemory(c: LoginAttempts.Config, s: LoginAttempts.Store, l: LoginAttemptLaws.Login)
    ensures var (s', verdict) := LoginVerdict(c, false, s, l);
            && s'.memory == LoginAttempts.Run(c, s.memory, LoginAttemptLaws.LoginCalls(c, s.memory, l))
            && s'.redis == s.redis
            && (verdict.LetIn? <==> l.valid && !(c.enabled && LoginAttemptLaws.InForce(s.memory, l.key, l.checkAt)))
  {
    LoginAttemptLaws.LoginRun(c, s.memory, l);
  }

  /** When the lock of the key ends, on the store in use; 0 without one. */
  function LockEnd(onRedis: bool, s: LoginAttempts.Store, key: string): nat {
    if onRedis then if key in s.redis.locks then s.redis.locks[key].lockUntil else 0
    else if key in s.memory.attempts then s.memory.attempts[key].lockUntil else 0
  }

  /** The answer that a key is locked for `left` more milliseconds: whole seconds, rounded up. */
  predicate TellsToWait(verdict: Verdict, left: int) {
    && verdict.Denied? && verdict.reply.TooManyAttempts? && verdict.reply.retryAfterSeconds >= 1
    && 1000 * (verdict.reply.retryAfterSeconds - 1) < left <= 1000 * verdict.reply.retryAfterSeconds
  }

  /** What a login is answered, on either store: 429 with the time left while its key is locked, and
      then nothing is recorded; else, with good credentials, it is let in and its key forgotten; else
      its failure is recorded, and it is 429 if that has locked the key until after the second check,
      and 401 otherwise. */
  lemma VerdictTold(c: LoginAttempts.Config, onRedis: bool, s: LoginAttempts.Store, l: LoginAttemptLaws.Login)
    requires c.enabled && LoginRetry.EntriesMatch(s.redis)
    ensures var (s', verdict) := LoginVerdict(c, onRedis, s, l);
            if LockEnd(onRedis, s, l.key) > l.checkAt then
              && TellsToWait(verdict, LockEnd(onRedis, s, l.key) - l.checkAt)
              && LockEnd(onRedis, s', l.key) == LockEnd(onRedis, s, l.key) && s'.redis == s.redis
            else if l.valid then
              verdict == LetIn && LockEnd(onRedis, s', l.key) == 0
            else
              && (if LockEnd(onRedis, s', l.key) > l.recheckAt then
                    TellsToWait(verdict, LockEnd(onRedis, s', l.key) - l.recheckAt)
                  else verdict == Denied(Judged(Unauthorized)))
              && (onRedis ==>
                    s'.memory == s.memory && s'.redis == LoginAttempts.RedisFailure(c, s.redis, l.key, l.recordAt))
  {
  }

  /** Switched off, the lockout lets every good login in and answers every other 401. */
  lemma VerdictWithoutLockout(c: LoginAttempts.Config, onRedis: bool, s: LoginAttempts.Store, l: LoginAttemptLaws.Login)
    requires !c.enabled
    ensures LoginVerdict(c, onRedis, s, l) == (s, if l.valid then LetIn else Denied(Judged(Unauthorized)))
  {
  }

  predicate CredentialsMatch(env: Env, s: State, found: Option<Id>, password: string) {
    found.Some? && found.value in s.users && s.users[found.value].isActive
    && env.compare(password, s.users[found.value].password)
  }

  /** `createSession`: the insert, and for a rotation the update of the replaced row with it. */
  function SessionCreated(env: Env, s: State, userId: Id, replaced: Option<Id>, sid: Id, token: string,
                          salt: nat, now: nat): (State, Reply)
  {
    match replaced
    case Some(oldId) => Rotate(env, Tick(s), userId, oldId, sid, token, salt, now)
    case None =>
      if CanInsert(Tick(s), userId, sid, token)
      then (Insert(env, Tick(s), userId, sid, token, salt, now, None), Tokens(token))
      else (Tick(s), Aborted)
  }

  // With no other request in flight, a request taken whole is its check and its write.

  lemma HeldThenDropped(s: State, p: Pending)
    requires s.pending == map[]
    ensures Drop(Tick(Hold(s, ME, p)), ME) == Tick(s)
  {
  }

  lemma LoginForm(env: Env, s: State, found: Option<Id>, password: string, sid: Id, token: string, salt: nat, now: nat)
    requires s.pending == map[]
    ensures SerialLogin(env, s, ME, found, password, sid, token, salt, now) ==
            if CredentialsMatch(env, s, found, password)
            then SessionCreated(env, Tick(s), found.value, None, sid, token, salt, now)
            else (Tick(s), Unauthorized)
  {
    if CredentialsMatch(env, s, found, password) {
      HeldThenDropped(Tick(s), Opening(found.value));
    }
  }

  lemma RegisterForm(env: Env, s: State, userId: Id, password: string, passwordSalt: nat,
                     sid: Id, token: string, salt: nat, now: nat)
    requires s.pending == map[]
    ensures SerialRegister(env, s, ME, userId, password, passwordSalt, sid, token, salt, now) ==
            if userId in s.users then (Tick(s), Forbidden)
            else
              var added := Tick(s).(users := s.users[userId := User(env.hash(password, passwordSalt), true)]);
              SessionCreated(env, added, userId, None, sid, token, salt, now)
  {
    if userId !in s.users {
      HeldThenDropped(Tick(s).(users := s.users[userId := User(env.hash(password, passwordSalt), true)]),
                      Opening(userId));
    }
  }

  lemma RefreshForm(env: Env, s: State, token: string, verified: bool, readAt: nat,
                    sid: Id, newToken: string, salt: nat, commitAt: nat)
    requires s.pending == map[]
    ensures SerialRefresh(env, s, ME, token, verified, readAt, sid, newToken, salt, commitAt) ==
            match ReadRefresh(env, s, token, verified, readAt) {
              case Failure(reply) => (Tick(s), reply)
              case Success(Rotating(userId, old')) =>
                SessionCreated(env, Tick(s), userId, Some(old'), sid, newToken, salt, commitAt)
              case Success(p) =>
                (Tick(Tick(s)).(sessions := RevokeAll(s.sessions, p.userId, commitAt)), Forbidden)
            }
  {
    var r := ReadRefresh(env, Tick(s), token, verified, readAt);
    if r.Success? {
      HeldThenDropped(Tick(s), r.value);
    }
  }

  class AuthService {
    const env: Env
    const loginAttempts: LoginAttempts.LoginAttemptService
    var users: map<Id, User>
    var sessions: map<Id, Session>
    var resetTokens: map<Id, ResetToken>
    var issued: map<string, Id>
    ghost var born: map<Id, Birth>
    ghost var wipedAt: map<Id, nat>
    ghost var tick: nat

    constructor (env: Env, loginAttempts: LoginAttempts.LoginAttemptService)
      ensures this.env == env && this.loginAttempts == loginAttempts && Db() == EMPTY
    {
      this.env := env;
      this.loginAttempts := loginAttempts;
      users, sessions, resetTokens, issued := map[], map[], map[], map[];
      born, wipedAt, tick := map[], map[], 0;
    }

    ghost function Db(): State
      reads this
    {
      State(users, sessions, resetTokens, map[], issued, born, wipedAt, tick)
    }

    method Register(userId: Id, password: string, passwordSalt: nat, sid: Id, token: string, salt: nat, now: nat)
      returns (reply: Reply)
      requires sid !in born && token !in issued
      modifies this
      ensures (Db(), reply) == SerialRegister(env, old(Db()), ME, userId, password, passwordSalt, sid, token, salt, now)
    {
      RegisterForm(env, Db(), userId, password, passwordSalt, sid, token, salt, now);
      tick := tick + 1;
      if userId in users {
        return Forbidden;
      }
      users := users[userId := User(env.hash(password, passwordSalt), true)];
      reply := CreateSession(userId, None, sid, token, salt, now);
    }

    /** The lockout store and a refusal are those of LoginVerdict; no table changes unless that lets
        the login in, and then as in the serial login of LoginForm. */
    method Login(key: string, found: Option<Id>, password: string, checkAt: nat, recordAt: nat, recheckAt: nat,
                 sid: Id, token: string, salt: nat)
      returns (reply: LoginReply)
      requires sid !in born && token !in issued
      modifies this, loginAttempts
      ensures var valid := CredentialsMatch(env, old(Db()), found, password);
              var (store, verdict) :=
                LoginVerdict(loginAttempts.config, loginAttempts.redisEnabled, old(loginAttempts.State()),
                             LoginAttemptLaws.Login(key, checkAt, recordAt, recheckAt, valid));
              && loginAttempts.State() == store
              && (verdict.Denied? ==> reply == verdict.reply)
              && match verdict {
                   case Denied(_) => Db() == old(Db()) || Db() == Tick(old(Db()))
                   case LetIn =>
                     reply.Judged? &&
                     (Db(), reply.reply) ==
                       SessionCreated(env, Tick(old(Db())), found.value, None, sid, token, salt, recordAt)
                 }
    {
      var first := loginAttempts.AssertNotLocked(key, checkAt);
      if first.Locked? {
        return TooManyAttempts(first.retryAfterSeconds);
      }
      tick := tick + 1;
      if found.None? || found.value !in users || !users[found.value].isActive {
        reply := Refuse(key, recordAt, recheckAt);
        return;
      }
      if !env.compare(password, users[found.value].password) {
        reply := Refuse(key, recordAt, recheckAt);
        return;
      }
      loginAttempts.RecordSuccess(key, recordAt);
      var created := CreateSession(found.value, None, sid, token, salt, recordAt);
      reply := Judged(created);
    }

    /** A failed login, on either store. */
    method Refuse(key: string, recordAt: nat, recheckAt: nat) returns (reply: LoginReply)
      modifies loginAttempts
      ensures (loginAttempts.State(), Denied(reply)) ==
              Refusal(loginAttempts.config, loginAttempts.redisEnabled, old(loginAttempts.State()), key, recordAt,
                      recheckAt)
    {
      loginAttempts.RecordFailure(key, recordAt);
      var second := loginAttempts.AssertNotLocked(key, recheckAt);
      reply := if second.Locked? then TooManyAttempts(second.retryAfterSeconds) else Judged(Unauthorized);
    }

    method Refresh(token: string, verified: bool, readAt: nat, sid: Id, newToken: string, salt: nat, commitAt: nat)
      returns (reply: Reply)
      requires sid !in born && newToken !in issued
      modifies this
      ensures (Db(), reply) == SerialRefresh(env, old(Db()), ME, token, verified, readAt, sid, newToken, salt, commitAt)
    {
      RefreshForm(env, Db(), token, verified, readAt, sid, newToken, salt, commitAt);
      tick := tick + 1;
      if !verified || token !in issued {
        return Unauthorized;
      }
      var id := issued[token];
      if id !in sessions {
        return Unauthorized;
      }
      var session := sessions[id];
      if session.userId !in users || !users[session.userId].isActive || session.revokedAt.Some?
         || session.expiresAt < readAt
      {
        return Unauthorized;
      }
      if !env.compare(token, session.hashedRefreshToken) {
        RevokeAllOf(session.userId, commitAt);
        return Forbidden;
      }
      reply := CreateSession(session.userId, Some(id), sid, newToken, salt, commitAt);
    }

    method Logout(token: string, verified: bool, now: nat) returns (reply: Reply)
      modifies this
      ensures (Db(), reply) == SerialLogout(env, old(Db()), ME, token, verified, now)
    {
      tick := tick + 1;
      if !verified || token !in issued {
        return Ok;
      }
      var id := issued[token];
      if id !in sessions || sessions[id].revokedAt.Some? {
        return Ok;
      }
      if !env.compare(token, sessions[id].hashedRefreshToken) {
        return Ok;
      }
      tick := tick + 1;
      sessions := sessions[id := sessions[id].(revokedAt := Some(now), lastUsedAt := Some(now))];
      reply := Ok;
    }

    method LogoutAll(userId: Id, now: nat) returns (reply: Reply)
      modifies this
      ensures (Db(), reply) == Apply(env, old(Db()), Step.LogoutAll(userId, now))
    {
      RevokeAllOf(userId, now);
      reply := Ok;
    }

    method ResetPassword(found: Option<Id>, readAt: nat, next: string, salt: nat, now: nat) returns (reply: Reply)
      modifies this
      ensures (Db(), reply) == SerialReset(env, old(Db()), ME, found, readAt, next, salt, now)
    {
      tick := tick + 1;
      if found.None? || found.value !in resetTokens
         || resetTokens[found.value].usedAt.Some? || resetTokens[found.value].expiresAt < readAt
      {
        return Forbidden;
      }
      tick := tick + 1;
      var reset := resetTokens[found.value];
      if reset.userId !in users {
        return Aborted;
      }
      resetTokens := resetTokens[found.value := reset.(usedAt := Some(now))];
      SetPasswordAndDropSessions(reset.userId, env.hash(next, salt));
      reply := Ok;
    }

    method ChangePassword(userId: Id, current: string, next: string, salt: nat) returns (reply: Reply)
      modifies this
      ensures (Db(), reply) == SerialChange(env, old(Db()), ME, userId, current, next, salt)
    {
      tick := tick + 1;
      if userId !in users {
        return Forbidden;
      }
      if !env.compare(current, users[userId].password) {
        return Forbidden;
      }
      tick := tick + 1;
      SetPasswordAndDropSessions(userId, env.hash(next, salt));
      reply := Ok;
    }

    /** The insert, and for a rotation the update of the replaced row in the same transaction. */
    method CreateSession(userId: Id, replaced: Option<Id>, sid: Id, token: string, salt: nat, now: nat)
      returns (reply: Reply)
      requires sid !in born && token !in issued
      modifies this
      ensures (Db(), reply) == SessionCreated(env, old(Db()), userId, replaced, sid, token, salt, now)
    {
      tick := tick + 1;
      if userId !in users {
        return Aborted;
      }
      if replaced.Some? && replaced.value !in sessions {
        return Aborted;
      }
      sessions := sessions[sid := NewSession(env, userId, token, salt, now)];
      issued := issued[token := sid];
      born := born[sid := Birth(tick, replaced)];
      if replaced.Some? {
        sessions := sessions[replaced.value := sessions[replaced.value].(
          revokedAt := Some(now), lastUsedAt := Some(now), replacedById := Some(sid))];
      }
      reply := Tokens(token);
    }

    method RevokeAllOf(userId: Id, now: nat)
      modifies this`sessions, this`tick
      ensures Db() == Tick(old(Db())).(sessions := RevokeAll(old(sessions), userId, now))
    {
      tick := tick + 1;
      sessions := map k | k in sessions ::
        if sessions[k].userId == userId then sessions[k].(revokedAt := Some(now)) else sessions[k];
    }

    method SetPasswordAndDropSessions(userId: Id, password: string)
      requires userId in users
      modifies this`users, this`sessions, this`wipedAt
      ensures Db() == Wipe(old(Db()), userId, password)
    {
      users := users[userId := users[userId].(password := password)];
      sessions := map k | k in sessions && sessions[k].userId != userId :: sessions[k];
      wipedAt := wipedAt[userId := tick];
    }
  }
}
