/**
 Refresh-token sessions. Every database round trip of the auth service is one atomic step, so the
 read of a refresh and its commit are separate steps and requests interleave freely.

 Users, sessions and reset tokens are the tables. The rest of the state is bookkeeping: requests
 between two of their steps, the tokens signed for each session, and when things happened.
 */
module AuthSessions {
  import opened Wrappers

  /** A uuid. */
  type Id = nat

  /** bcrypt and the session life time, as parameters. */
  datatype Env = Env(hash: (string, nat) -> string, compare: (string, string) -> bool, refreshMaxAgeMs: nat)

  /** All that is assumed of bcrypt: a value matches its own hash, whatever the salt. */
  ghost predicate Sound(env: Env) {
    forall secret: string, salt: nat :: env.compare(secret, env.hash(secret, salt))
  }

  datatype User = User(password: string, isActive: bool)

  datatype Session = Session(
    userId: Id, hashedRefreshToken: string, expiresAt: nat,
    revokedAt: Option<nat>, replacedById: Option<Id>, lastUsedAt: Option<nat>)

  datatype ResetToken = ResetToken(userId: Id, expiresAt: nat, usedAt: Option<nat>)

  /** Where a request stands between its read and its write. */
  datatype Pending =
    | Opening(userId: Id)                   // credentials accepted, session not inserted yet
    | Rotating(userId: Id, sid: Id)         // refresh accepted, rotation not committed yet
    | RevokingAll(userId: Id)               // refresh judged to be reuse
    | LoggingOut(sid: Id)
    | Resetting(userId: Id, resetId: Id)
    | Changing(userId: Id)

  /** When a session was inserted, and the session it was rotated from (none for a login). */
  datatype Birth = Birth(tick: nat, parent: Option<Id>)

  datatype State = State(
    users: map<Id, User>,
    sessions: map<Id, Session>,
    resetTokens: map<Id, ResetToken>,
    pending: map<Id, Pending>,
    issued: map<string, Id>,
    born: map<Id, Birth>,
    wipedAt: map<Id, nat>,
    tick: nat)

  const EMPTY := State(map[], map[], map[], map[], map[], map[], map[], 0)

  datatype Step =
    | RegisterUser(request: Id, userId: Id, password: string, salt: nat)
    | LoginRead(request: Id, found: Option<Id>, password: string)
    | InsertSession(request: Id, sid: Id, token: string, salt: nat, now: nat)
    | RefreshRead(request: Id, token: string, verified: bool, now: nat)
    | RotateCommit(request: Id, sid: Id, token: string, salt: nat, now: nat)
    | RevokeAllCommit(request: Id, now: nat)
    | LogoutRead(request: Id, token: string, verified: bool)
    | LogoutCommit(request: Id, now: nat)
    | LogoutAll(userId: Id, now: nat)
    | ForgotPassword(userId: Id, resetId: Id, now: nat)
    | ResetRead(request: Id, found: Option<Id>, now: nat)
    | ResetCommit(request: Id, password: string, salt: nat, now: nat)
    | ChangeRead(request: Id, userId: Id, password: string)
    | ChangeCommit(request: Id, password: string, salt: nat)
    | SetActive(userId: Id, isActive: bool)

  datatype Reply = Continue | Tokens(token: string) | Ok | Unauthorized | Forbidden | Aborted

  function Hold(s: State, request: Id, p: Pending): State {
    s.(pending := s.pending[request := p])
  }

  function Drop(s: State, request: Id): State {
    s.(pending := s.pending - {request})
  }

  function NewSession(env: Env, userId: Id, token: string, salt: nat, now: nat): Session {
    Session(userId, env.hash(token, salt), now + env.refreshMaxAgeMs, None, None, None)
  }

  /** `authSession.create`: the uuid and the token are new, the user exists. */
  predicate CanInsert(s: State, userId: Id, sid: Id, token: string) {
    sid !in s.born && token !in s.issued && userId in s.users
  }

  function Insert(env: Env, s: State, userId: Id, sid: Id, token: string, salt: nat, now: nat,
                  parent: Option<Id>): State {
    s.(sessions := s.sessions[sid := NewSession(env, userId, token, salt, now)],
       issued := s.issued[token := sid],
       born := s.born[sid := Birth(s.tick, parent)])
  }

  /** `authSession.updateMany({ where: { userId }, data: { revokedAt } })` */
  function RevokeAll(sessions: map<Id, Session>, userId: Id, now: nat): map<Id, Session> {
    map k | k in sessions ::
      if sessions[k].userId == userId then sessions[k].(revokedAt := Some(now)) else sessions[k]
  }

  /** The transaction of a password change: new hash, and all sessions of the user deleted. */
  function Wipe(s: State, userId: Id, password: string): State
    requires userId in s.users
  {
    s.(users := s.users[userId := s.users[userId].(password := password)],
       sessions := map k | k in s.sessions && s.sessions[k].userId != userId :: s.sessions[k],
       wipedAt := s.wipedAt[userId := s.tick])
  }

  function ReadRefresh(env: Env, s: State, token: string, verified: bool, now: nat): Result<Pending, Reply> {
    if !verified || token !in s.issued then Failure(Unauthorized)
    else
      var sid := s.issued[token];
      if || sid !in s.sessions
         || s.sessions[sid].userId !in s.users || !s.users[s.sessions[sid].userId].isActive
         || s.sessions[sid].revokedAt.Some?
         || s.sessions[sid].expiresAt < now
      then Failure(Unauthorized)
      else if !env.compare(token, s.sessions[sid].hashedRefreshToken) then Success(RevokingAll(s.sessions[sid].userId))
      else Success(Rotating(s.sessions[sid].userId, sid))
  }

  /** The rotation transaction: insert the successor, then update the old row by id; a missing
      row aborts both. */
  function Rotate(env: Env, s: State, userId: Id, oldId: Id, sid: Id, token: string, salt: nat, now: nat):
    (State, Reply)
  {
    if !CanInsert(s, userId, sid, token) || oldId !in s.sessions then (s, Aborted)
    else
      var s1 := Insert(env, s, userId, sid, token, salt, now, Some(oldId));
      var row := s1.sessions[oldId].(revokedAt := Some(now), lastUsedAt := Some(now), replacedById := Some(sid));
      (s1.(sessions := s1.sessions[oldId := row]), Tokens(token))
  }

  // ---------------------------------------------------------------- what a step leaves alone

  /** No session row is touched. */
  ghost predicate KeepsSessions(s: State, s': State) {
    && s'.sessions == s.sessions && s'.born == s.born && s'.wipedAt == s.wipedAt && s'.issued == s.issued
    && s'.tick == s.tick && s.users.Keys <= s'.users.Keys
  }

  /** Rows are at most revoked: none appears, disappears, or changes its user or its successor. */
  ghost predicate OnlyRevokes(s: State, s': State) {
    && s'.born == s.born && s'.wipedAt == s.wipedAt && s'.issued == s.issued && s.tick <= s'.tick
    && s.users.Keys <= s'.users.Keys
    && s'.sessions.Keys == s.sessions.Keys
    && forall k :: k in s.sessions ==>
         && s'.sessions[k].userId == s.sessions[k].userId
         && s'.sessions[k].hashedRefreshToken == s.sessions[k].hashedRefreshToken
         && s'.sessions[k].expiresAt == s.sessions[k].expiresAt
         && s'.sessions[k].replacedById == s.sessions[k].replacedById
         && (s.sessions[k].revokedAt.Some? ==> s'.sessions[k].revokedAt.Some?)
  }

  /** History only grows: an inserted id or a signed token keeps its meaning, a row keeps its user,
      its hash, its expiry and its revocation, and what is new bears the current tick. */
  ghost predicate Continues(s: State, s': State) {
    && s.tick <= s'.tick && s.users.Keys <= s'.users.Keys
    && (forall k :: k in s.born ==> k in s'.born && s'.born[k] == s.born[k])
    && (forall k :: k in s'.born && k !in s.born ==> s'.born[k].tick == s'.tick)
    && (forall t :: t in s.issued ==> t in s'.issued && s'.issued[t] == s.issued[t])
    && (forall k :: k in s.born && k in s'.sessions ==>
          && k in s.sessions
          && s'.sessions[k].userId == s.sessions[k].userId
          && s'.sessions[k].hashedRefreshToken == s.sessions[k].hashedRefreshToken
          && s'.sessions[k].expiresAt == s.sessions[k].expiresAt
          && (s.sessions[k].revokedAt.Some? ==> s'.sessions[k].revokedAt.Some?))
    && (forall u :: u in s.wipedAt ==> u in s'.wipedAt)
    && (forall u :: u in s'.wipedAt ==> (u in s.wipedAt && s'.wipedAt[u] == s.wipedAt[u]) || s'.wipedAt[u] == s'.tick)
  }

  /** The request was in flight before, at the same point. */
  ghost predicate Carried(s: State, s': State, request: Id)
    requires request in s'.pending
  {
    request in s.pending && s.pending[request] == s'.pending[request]
  }

  /** No request takes off here: those in flight afterwards were in flight before. */
  ghost predicate NoTakeOff(s: State, s': State) {
    forall r :: r in s'.pending ==> Carried(s, s', r)
  }

  // ---------------------------------------------------------------- the steps, one by one

  function Register(env: Env, s: State, request: Id, userId: Id, password: string, salt: nat): (r: (State, Reply))
    ensures KeepsSessions(s, r.0)
    ensures forall q :: q in r.0.pending ==> Carried(s, r.0, q) || r.0.pending[q].Opening?
    ensures r.0.resetTokens == s.resetTokens
  {
    if userId in s.users then (s, Forbidden)
    else (Hold(s.(users := s.users[userId := User(env.hash(password, salt), true)]), request, Opening(userId)),
          Continue)
  }

  function CheckLogin(env: Env, s: State, request: Id, found: Option<Id>, password: string): (r: (State, Reply))
    ensures KeepsSessions(s, r.0)
    ensures forall q :: q in r.0.pending ==> Carried(s, r.0, q) || r.0.pending[q].Opening?
    ensures r.0.resetTokens == s.resetTokens
  {
    if found.None? || found.value !in s.users || !s.users[found.value].isActive then (s, Unauthorized)
    else if !env.compare(password, s.users[found.value].password) then (s, Unauthorized)
    else (Hold(s, request, Opening(found.value)), Continue)
  }

  function OpenSession(env: Env, s: State, request: Id, sid: Id, token: string, salt: nat, now: nat):
    (r: (State, Reply))
    ensures Continues(s, r.0) && NoTakeOff(s, r.0)
    ensures r.0.resetTokens == s.resetTokens
  {
    if request !in s.pending || !s.pending[request].Opening? then (s, Continue)
    else
      var userId := s.pending[request].userId;
      if !CanInsert(s, userId, sid, token) then (Drop(s, request), Aborted)
      else (Insert(env, Drop(s, request), userId, sid, token, salt, now, None), Tokens(token))
  }

  function CheckRefresh(env: Env, s: State, request: Id, token: string, verified: bool, now: nat): (r: (State, Reply))
    ensures KeepsSessions(s, r.0)
    ensures forall q :: q in r.0.pending ==>
            Carried(s, r.0, q) || r.0.pending[q].Rotating? || r.0.pending[q].RevokingAll?
    ensures r.0.resetTokens == s.resetTokens
  {
    match ReadRefresh(env, s, token, verified, now)
    case Failure(reply) => (s, reply)
    case Success(p) => (Hold(s, request, p), Continue)
  }

  function CommitRotation(env: Env, s: State, request: Id, sid: Id, token: string, salt: nat, now: nat):
    (r: (State, Reply))
    ensures Continues(s, r.0) && NoTakeOff(s, r.0)
    ensures r.0.resetTokens == s.resetTokens
  {
    if request !in s.pending || !s.pending[request].Rotating? then (s, Continue)
    else
      var p := s.pending[request];
      Rotate(env, Drop(s, request), p.userId, p.sid, sid, token, salt, now)
  }

  function CommitRevokeAll(s: State, request: Id, now: nat): (r: (State, Reply))
    ensures OnlyRevokes(s, r.0) && NoTakeOff(s, r.0)
    ensures r.0.resetTokens == s.resetTokens
  {
    if request !in s.pending || !s.pending[request].RevokingAll? then (s, Continue)
    else (Drop(s, request).(sessions := RevokeAll(s.sessions, s.pending[request].userId, now)), Forbidden)
  }

  function CheckLogout(env: Env, s: State, request: Id, token: string, verified: bool): (r: (State, Reply))
    ensures KeepsSessions(s, r.0)
    ensures forall q :: q in r.0.pending ==> Carried(s, r.0, q) || r.0.pending[q].LoggingOut?
    ensures r.0.resetTokens == s.resetTokens
  {
    if !verified || token !in s.issued then (s, Ok)
    else
      var sid := s.issued[token];
      if sid !in s.sessions || s.sessions[sid].revokedAt.Some? then (s, Ok)
      else if !env.compare(token, s.sessions[sid].hashedRefreshToken) then (s, Ok)
      else (Hold(s, request, LoggingOut(sid)), Continue)
  }

  function CommitLogout(s: State, request: Id, now: nat): (r: (State, Reply))
    ensures OnlyRevokes(s, r.0) && NoTakeOff(s, r.0)
    ensures r.0.resetTokens == s.resetTokens
  {
    if request !in s.pending || !s.pending[request].LoggingOut? then (s, Continue)
    else
      var sid := s.pending[request].sid;
      if sid !in s.sessions then (Drop(s, request), Aborted)
      else
        var row := s.sessions[sid].(revokedAt := Some(now), lastUsedAt := Some(now));
        (Drop(s, request).(sessions := s.sessions[sid := row]), Ok)
  }

  function LogoutEverywhere(s: State, userId: Id, now: nat): (r: (State, Reply))
    ensures OnlyRevokes(s, r.0) && NoTakeOff(s, r.0)
    ensures r.0.resetTokens == s.resetTokens
  {
    (s.(sessions := RevokeAll(s.sessions, userId, now)), Ok)
  }

  const RESET_TTL_MS: nat := 1_800_000

  function RequestReset(s: State, userId: Id, resetId: Id, now: nat): (r: (State, Reply))
    ensures KeepsSessions(s, r.0) && NoTakeOff(s, r.0)
  {
    if userId !in s.users || resetId in s.resetTokens then (s, Ok)
    else (s.(resetTokens := s.resetTokens[resetId := ResetToken(userId, now + RESET_TTL_MS, None)]), Ok)
  }

  function CheckReset(s: State, request: Id, found: Option<Id>, now: nat): (r: (State, Reply))
    ensures KeepsSessions(s, r.0)
    ensures forall q :: q in r.0.pending ==> Carried(s, r.0, q) || r.0.pending[q].Resetting?
    ensures r.0.resetTokens == s.resetTokens
  {
    if || found.None? || found.value !in s.resetTokens
       || s.resetTokens[found.value].usedAt.Some? || s.resetTokens[found.value].expiresAt < now
    then (s, Forbidden)
    else (Hold(s, request, Resetting(s.resetTokens[found.value].userId, found.value)), Continue)
  }

  function CommitReset(env: Env, s: State, request: Id, password: string, salt: nat, now: nat): (r: (State, Reply))
    ensures Continues(s, r.0) && NoTakeOff(s, r.0)
  {
    if request !in s.pending || !s.pending[request].Resetting? then (s, Continue)
    else
      var p := s.pending[request];
      if p.userId !in s.users || p.resetId !in s.resetTokens then (Drop(s, request), Aborted)
      else
        var used := s.resetTokens[p.resetId].(usedAt := Some(now));
        var s1 := Drop(s, request).(resetTokens := s.resetTokens[p.resetId := used]);
        (Wipe(s1, p.userId, env.hash(password, salt)), Ok)
  }

  function CheckChange(env: Env, s: State, request: Id, userId: Id, password: string): (r: (State, Reply))
    ensures KeepsSessions(s, r.0)
    ensures forall q :: q in r.0.pending ==> Carried(s, r.0, q) || r.0.pending[q].Changing?
    ensures r.0.resetTokens == s.resetTokens
  {
    if userId !in s.users || !env.compare(password, s.users[userId].password) then (s, Forbidden)
    else (Hold(s, request, Changing(userId)), Continue)
  }

  function CommitChange(env: Env, s: State, request: Id, password: string, salt: nat): (r: (State, Reply))
    ensures Continues(s, r.0) && NoTakeOff(s, r.0)
    ensures r.0.resetTokens == s.resetTokens
  {
    if request !in s.pending || !s.pending[request].Changing? then (s, Continue)
    else
      var userId := s.pending[request].userId;
      if userId !in s.users then (Drop(s, request), Aborted)
      else (Wipe(Drop(s, request), userId, env.hash(password, salt)), Ok)
  }

  function Activate(s: State, userId: Id, isActive: bool): (r: (State, Reply))
    ensures KeepsSessions(s, r.0) && NoTakeOff(s, r.0)
    ensures r.0.resetTokens == s.resetTokens
  {
    if userId !in s.users then (s, Ok)
    else (s.(users := s.users[userId := s.users[userId].(isActive := isActive)]), Ok)
  }

  function Tick(s: State): State {
    s.(tick := s.tick + 1)
  }

  function Apply(env: Env, s: State, step: Step): (State, Reply) {
    match step
    case RegisterUser(request, userId, password, salt) => Register(env, Tick(s), request, userId, password, salt)
    case LoginRead(request, found, password) => CheckLogin(env, Tick(s), request, found, password)
    case InsertSession(request, sid, token, salt, now) => OpenSession(env, Tick(s), request, sid, token, salt, now)
    case RefreshRead(request, token, verified, now) => CheckRefresh(env, Tick(s), request, token, verified, now)
    case RotateCommit(request, sid, token, salt, now) => CommitRotation(env, Tick(s), request, sid, token, salt, now)
    case RevokeAllCommit(request, now) => CommitRevokeAll(Tick(s), request, now)
    case LogoutRead(request, token, verified) => CheckLogout(env, Tick(s), request, token, verified)
    case LogoutCommit(request, now) => CommitLogout(Tick(s), request, now)
    case LogoutAll(userId, now) => LogoutEverywhere(Tick(s), userId, now)
    case ForgotPassword(userId, resetId, now) => RequestReset(Tick(s), userId, resetId, now)
    case ResetRead(request, found, now) => CheckReset(Tick(s), request, found, now)
    case ResetCommit(request, password, salt, now) => CommitReset(env, Tick(s), request, password, salt, now)
    case ChangeRead(request, userId, password) => CheckChange(env, Tick(s), request, userId, password)
    case ChangeCommit(request, password, salt) => CommitChange(env, Tick(s), request, password, salt)
    case SetActive(userId, isActive) => Activate(Tick(s), userId, isActive)
  }

  function Run(env: Env, s: State, steps: seq<Step>): State
    decreases |steps|
  {
    if steps == [] then s else Run(env, Apply(env, s, steps[0]).0, steps[1..])
  }
}
