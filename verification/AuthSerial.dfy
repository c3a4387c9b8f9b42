/**
 Tokens, and requests taken whole. An issued token always matches the hash of its own session, so
 the reuse branch is never taken. What one refresh, login or logout does to the unrevoked sessions
 of each user is exact; with two refreshes in flight it is not, and a run shows it.
 */
module AuthSerial {
  import opened Wrappers
  import opened AuthSessions
  import opened AuthSessionLaws

  // ---------------------------------------------------------------- tokens and hashes

  ghost predicate TokenMatches(env: Env, s: State, t: string)
    requires t in s.issued
  {
    s.issued[t] in s.born &&
    (s.issued[t] in s.sessions ==> env.compare(t, s.sessions[s.issued[t]].hashedRefreshToken))
  }

  ghost predicate TokensMatch(env: Env, s: State) {
    && (forall t :: t in s.issued ==> TokenMatches(env, s, t))
    && (forall k :: k in s.sessions ==> k in s.born)
    && (forall r :: r in s.pending ==> !s.pending[r].RevokingAll?)
  }

  lemma QuietKeepsMatches(env: Env, s: State, s': State)
    requires TokensMatch(env, s) && OnlyRevokes(s, s')
    requires forall r :: r in s'.pending ==> !s'.pending[r].RevokingAll?
    ensures TokensMatch(env, s')
  {
    forall t | t in s'.issued ensures TokenMatches(env, s', t) {
      assert TokenMatches(env, s, t);
    }
  }

  lemma InsertKeepsMatches(env: Env, s: State, userId: Id, sid: Id, token: string, salt: nat, now: nat,
                           parent: Option<Id>)
    requires Sound(env) && TokensMatch(env, s) && CanInsert(s, userId, sid, token)
    ensures TokensMatch(env, Insert(env, s, userId, sid, token, salt, now, parent))
  {
    var s' := Insert(env, s, userId, sid, token, salt, now, parent);
    forall t | t in s'.issued ensures TokenMatches(env, s', t) {
      if t != token {
        assert TokenMatches(env, s, t);
      }
    }
  }

  lemma CheckRefreshNeverReuse(env: Env, s: State, request: Id, token: string, verified: bool, now: nat)
    requires TokensMatch(env, s)
    ensures TokensMatch(env, CheckRefresh(env, s, request, token, verified, now).0)
  {
    var s' := CheckRefresh(env, s, request, token, verified, now).0;
    if verified && token in s.issued {
      assert TokenMatches(env, s, token);
    }
    forall t | t in s'.issued ensures TokenMatches(env, s', t) {
      assert TokenMatches(env, s, t);
    }
  }

  lemma OpenSessionKeepsMatches(env: Env, s: State, request: Id, sid: Id, token: string, salt: nat, now: nat)
    requires Sound(env) && TokensMatch(env, s)
    ensures TokensMatch(env, OpenSession(env, s, request, sid, token, salt, now).0)
  {
    QuietKeepsMatches(env, s, Drop(s, request));
    if request in s.pending && s.pending[request].Opening? && CanInsert(s, s.pending[request].userId, sid, token) {
      InsertKeepsMatches(env, Drop(s, request), s.pending[request].userId, sid, token, salt, now, None);
    }
  }

  lemma RotateKeepsMatches(env: Env, s: State, userId: Id, oldId: Id, sid: Id, token: string, salt: nat, now: nat)
    requires Sound(env) && TokensMatch(env, s)
    ensures TokensMatch(env, Rotate(env, s, userId, oldId, sid, token, salt, now).0)
  {
    if CanInsert(s, userId, sid, token) && oldId in s.sessions {
      InsertKeepsMatches(env, s, userId, sid, token, salt, now, Some(oldId));
      var s1 := Insert(env, s, userId, sid, token, salt, now, Some(oldId));
      var s2 := Rotate(env, s, userId, oldId, sid, token, salt, now).0;
      forall t | t in s2.issued ensures TokenMatches(env, s2, t) {
        assert TokenMatches(env, s1, t);
      }
    }
  }

  lemma WipeKeepsMatches(env: Env, s: State, userId: Id, password: string)
    requires TokensMatch(env, s) && userId in s.users
    ensures TokensMatch(env, Wipe(s, userId, password))
  {
    var s' := Wipe(s, userId, password);
    forall t | t in s'.issued ensures TokenMatches(env, s', t) {
      assert TokenMatches(env, s, t);
    }
  }

  lemma CommitRotationKeepsMatches(env: Env, s: State, request: Id, sid: Id, token: string, salt: nat, now: nat)
    requires Sound(env) && TokensMatch(env, s)
    ensures TokensMatch(env, CommitRotation(env, s, request, sid, token, salt, now).0)
  {
    QuietKeepsMatches(env, s, Drop(s, request));
    if request in s.pending && s.pending[request].Rotating? {
      var p := s.pending[request];
      RotateKeepsMatches(env, Drop(s, request), p.userId, p.sid, sid, token, salt, now);
    }
  }

  lemma CommitResetKeepsMatches(env: Env, s: State, request: Id, password: string, salt: nat, now: nat)
    requires TokensMatch(env, s)
    ensures TokensMatch(env, CommitReset(env, s, request, password, salt, now).0)
  {
    QuietKeepsMatches(env, s, Drop(s, request));
    if request in s.pending && s.pending[request].Resetting? {
      var p := s.pending[request];
      if p.userId in s.users && p.resetId in s.resetTokens {
        var used := s.resetTokens[p.resetId].(usedAt := Some(now));
        var s1 := Drop(s, request).(resetTokens := s.resetTokens[p.resetId := used]);
        QuietKeepsMatches(env, s, s1);
        WipeKeepsMatches(env, s1, p.userId, env.hash(password, salt));
      }
    }
  }

  lemma CommitChangeKeepsMatches(env: Env, s: State, request: Id, password: string, salt: nat)
    requires TokensMatch(env, s)
    ensures TokensMatch(env, CommitChange(env, s, request, password, salt).0)
  {
    QuietKeepsMatches(env, s, Drop(s, request));
    if request in s.pending && s.pending[request].Changing? && s.pending[request].userId in s.users {
      WipeKeepsMatches(env, Drop(s, request), s.pending[request].userId, env.hash(password, salt));
    }
  }

  lemma TickKeepsMatches(env: Env, s: State)
    requires TokensMatch(env, s)
    ensures TokensMatch(env, Tick(s))
  {
    QuietKeepsMatches(env, s, Tick(s));
  }

  lemma MatchStep(env: Env, s: State, step: Step)
    requires Sound(env) && TokensMatch(env, s)
    ensures TokensMatch(env, Apply(env, s, step).0)
  {
    var t := Tick(s);
    TickKeepsMatches(env, s);
    match step {
      case InsertSession(request, sid, token, salt, now) =>
        OpenSessionKeepsMatches(env, t, request, sid, token, salt, now);
      case RotateCommit(request, sid, token, salt, now) =>
        CommitRotationKeepsMatches(env, t, request, sid, token, salt, now);
      case ResetCommit(request, password, salt, now) => CommitResetKeepsMatches(env, t, request, password, salt, now);
      case ChangeCommit(request, password, salt) => CommitChangeKeepsMatches(env, t, request, password, salt);
      case RefreshRead(request, token, verified, now) => CheckRefreshNeverReuse(env, t, request, token, verified, now);
      case _ =>
        QuietStepOnlyRevokes(env, s, step);
        var s' := Apply(env, s, step).0;
        forall r | r in s'.pending ensures !s'.pending[r].RevokingAll? { PendingComesFrom(env, s, step, r); }
        QuietKeepsMatches(env, s, s');
    }
  }

  lemma {:induction false} MatchRun(env: Env, s: State, steps: seq<Step>)
    requires Sound(env) && TokensMatch(env, s)
    ensures TokensMatch(env, Run(env, s, steps))
    decreases |steps|
  {
    if steps != [] {
      MatchStep(env, s, steps[0]);
      MatchRun(env, Apply(env, s, steps[0]).0, steps[1..]);
    }
  }

  /** In every interleaving an issued token matches its own session, so no refresh is ever judged to
      be reuse, and no request is answered with the reuse error. */
  lemma ReuseNeverDetected(env: Env, steps: seq<Step>, step: Step)
    requires Sound(env)
    ensures var s := Run(env, EMPTY, steps);
            && (forall t :: t in s.issued ==> TokenMatches(env, s, t))
            && (forall r :: r in s.pending ==> !s.pending[r].RevokingAll?)
            && (step.RefreshRead? ==> Apply(env, s, step).1 != Forbidden)
            && (step.RevokeAllCommit? ==> Apply(env, s, step).1 != Forbidden)
  {
    MatchRun(env, EMPTY, steps);
  }

  // ---------------------------------------------------------------- spent tokens

  /** The session of the token is gone or revoked. */
  predicate Spent(s: State, t: string) {
    t in s.issued && (s.issued[t] in s.sessions ==> s.sessions[s.issued[t]].revokedAt.Some?)
  }

  lemma SpentStaysSpent(env: Env, s: State, steps: seq<Step>, t: string)
    requires ClockSound(s) && Spent(s, t) && s.issued[t] in s.born
    ensures Spent(Run(env, s, steps), t)
  {
    RunExtends(env, s, steps);
  }

  /** Once a rotation has committed, the token of the session it replaced is refused by every later
      read, whatever steps come between, and the refusal changes nothing. */
  lemma RotatedTokenRefused(env: Env, s: State, commit: Step, t: string, later: seq<Step>, read: Step)
    requires GraphSound(s)
    requires commit.RotateCommit? && commit.request in s.pending && s.pending[commit.request].Rotating?
    requires Apply(env, s, commit).1.Tokens?
    requires t in s.issued && s.issued[t] == s.pending[commit.request].sid
    requires read.RefreshRead? && read.token == t
    ensures var s1 := Run(env, Apply(env, s, commit).0, later);
            Apply(env, s1, read) == (Tick(s1), Unauthorized)
  {
    var s1 := Apply(env, s, commit).0;
    GraphStep(env, s, commit);
    assert Spent(s1, t) && s1.issued[t] in s1.born;
    SpentStaysSpent(env, s1, later, t);
  }

  predicate UsedUp(s: State, resetId: Id) {
    resetId in s.resetTokens && s.resetTokens[resetId].usedAt.Some?
  }

  lemma ResetTokensStay(env: Env, s: State, step: Step)
    requires !step.ForgotPassword? && !step.ResetCommit?
    ensures Apply(env, s, step).0.resetTokens == s.resetTokens
  {
  }

  lemma UsedUpStep(env: Env, s: State, step: Step, resetId: Id)
    requires UsedUp(s, resetId)
    ensures UsedUp(Apply(env, s, step).0, resetId)
  {
    if !step.ForgotPassword? && !step.ResetCommit? {
      ResetTokensStay(env, s, step);
    }
  }

  lemma {:induction false} UsedUpRun(env: Env, s: State, steps: seq<Step>, resetId: Id)
    requires UsedUp(s, resetId)
    ensures UsedUp(Run(env, s, steps), resetId)
    decreases |steps|
  {
    if steps != [] {
      UsedUpStep(env, s, steps[0], resetId);
      UsedUpRun(env, Apply(env, s, steps[0]).0, steps[1..], resetId);
    }
  }

  /** Once a reset has committed, its token is refused by every later read, whatever steps come
      between, and the refusal changes nothing. */
  lemma ResetTokenWorksOnce(env: Env, s: State, commit: Step, later: seq<Step>, read: Step)
    requires commit.ResetCommit? && commit.request in s.pending && s.pending[commit.request].Resetting?
    requires Apply(env, s, commit).1 == Ok
    requires read.ResetRead? && read.found == Some(s.pending[commit.request].resetId)
    ensures var s1 := Run(env, Apply(env, s, commit).0, later);
            Apply(env, s1, read) == (Tick(s1), Forbidden)
  {
    UsedUpRun(env, Apply(env, s, commit).0, later, s.pending[commit.request].resetId);
  }

  /** Reset tokens and resets in flight belong to users and tokens that are there. */
  ghost predicate ResetsSound(s: State) {
    && (forall t :: t in s.resetTokens ==> s.resetTokens[t].userId in s.users)
    && (forall r :: r in s.pending && s.pending[r].Resetting? ==>
          s.pending[r].resetId in s.resetTokens && s.pending[r].userId in s.users)
  }

  lemma ResetsStep(env: Env, s: State, step: Step)
    requires ResetsSound(s)
    ensures ResetsSound(Apply(env, s, step).0)
  {
    StepContinues(env, s, step);
    var s' := Apply(env, s, step).0;
    if !step.ForgotPassword? && !step.ResetCommit? {
      ResetTokensStay(env, s, step);
    }
    forall r | r in s'.pending && s'.pending[r].Resetting?
      ensures s'.pending[r].resetId in s'.resetTokens && s'.pending[r].userId in s'.users
    {
      PendingComesFrom(env, s, step, r);
    }
  }

  lemma {:induction false} ResetsRun(env: Env, s: State, steps: seq<Step>)
    requires ResetsSound(s)
    ensures ResetsSound(Run(env, s, steps))
    decreases |steps|
  {
    if steps != [] {
      ResetsStep(env, s, steps[0]);
      ResetsRun(env, Apply(env, s, steps[0]).0, steps[1..]);
    }
  }

  /** A reset in flight for the token. */
  ghost predicate InFlight(s: State, request: Id, resetId: Id) {
    request in s.pending && s.pending[request].Resetting? && s.pending[request].resetId == resetId
  }

  /** A reset in flight commits, used token or not. */
  lemma ResetInFlightCommits(env: Env, s: State, commit: Step, resetId: Id)
    requires ResetsSound(s) && commit.ResetCommit? && InFlight(s, commit.request, resetId)
    ensures var (s', reply) := Apply(env, s, commit);
            reply == Ok && UsedUp(s', resetId) && s'.pending == s.pending - {commit.request}
  {
  }

  lemma UsedUpHoldsOff(env: Env, s: State, step: Step, resetId: Id, request: Id)
    requires UsedUp(s, resetId) && InFlight(Apply(env, s, step).0, request, resetId)
    ensures InFlight(s, request, resetId)
  {
    PendingComesFrom(env, s, step, request);
  }

  lemma {:induction false} UsedUpHoldsOffRun(env: Env, s: State, steps: seq<Step>, resetId: Id, request: Id)
    requires UsedUp(s, resetId) && InFlight(Run(env, s, steps), request, resetId)
    ensures InFlight(s, request, resetId)
    decreases |steps|
  {
    if steps != [] {
      UsedUpStep(env, s, steps[0], resetId);
      UsedUpHoldsOffRun(env, Apply(env, s, steps[0]).0, steps[1..], resetId, request);
      UsedUpHoldsOff(env, s, steps[0], resetId, request);
    }
  }

  /** Some later step commits a reset with the token. */
  ghost predicate CommitsAgain(env: Env, s: State, later: seq<Step>, commit: Step, resetId: Id) {
    var s1 := Run(env, s, later);
    commit.ResetCommit? && InFlight(s1, commit.request, resetId) && Apply(env, s1, commit).1 == Ok
  }

  /** Once a reset has committed, a second one with its token commits in some later run exactly when
      it was already in flight: when both had read the token before the first commit. */
  lemma SecondResetIff(env: Env, s: State, commit: Step, resetId: Id)
    requires ResetsSound(s) && commit.ResetCommit? && InFlight(s, commit.request, resetId)
    ensures var s1 := Apply(env, s, commit).0;
            (exists later: seq<Step>, again: Step :: CommitsAgain(env, s1, later, again, resetId)) <==>
            (exists r :: r != commit.request && InFlight(s, r, resetId))
  {
    var s1 := Apply(env, s, commit).0;
    ResetInFlightCommits(env, s, commit, resetId);
    if r :| r != commit.request && InFlight(s, r, resetId) {
      var again := ResetCommit(r, "", 0, 0);
      ResetsStep(env, s, commit);
      assert InFlight(s1, r, resetId);
      ResetInFlightCommits(env, s1, again, resetId);
      assert Run(env, s1, []) == s1;
      assert CommitsAgain(env, s1, [], again, resetId);
    } else {
      forall later: seq<Step>, again: Step ensures !CommitsAgain(env, s1, later, again, resetId) {
        if CommitsAgain(env, s1, later, again, resetId) {
          UsedUpHoldsOffRun(env, s1, later, resetId, again.request);
          assert InFlight(s, again.request, resetId);
        }
      }
    }
  }

  /** Such a run: two resets read one good token, then both commit, and the later password stays. */
  lemma ConcurrentResetsBothCommit(env: Env, s: State, resetId: Id, now: nat, commit1: Step, commit2: Step)
    requires ResetsSound(s)
    requires commit1.ResetCommit? && commit2.ResetCommit? && commit1.request != commit2.request
    requires CheckReset(s, commit1.request, Some(resetId), now).1 == Continue
    ensures var a := Apply(env, s, ResetRead(commit1.request, Some(resetId), now)).0;
            var b := Apply(env, a, ResetRead(commit2.request, Some(resetId), now)).0;
            var (c, reply1) := Apply(env, b, commit1);
            var (d, reply2) := Apply(env, c, commit2);
            var owner := s.resetTokens[resetId].userId;
            && reply1 == Ok && reply2 == Ok
            && owner in d.users && d.users[owner].password == env.hash(commit2.password, commit2.salt)
  {
    var p := Resetting(s.resetTokens[resetId].userId, resetId);
    var a := Apply(env, s, ResetRead(commit1.request, Some(resetId), now)).0;
    assert a == Hold(Tick(s), commit1.request, p);
    var b := Apply(env, a, ResetRead(commit2.request, Some(resetId), now)).0;
    assert b == Hold(Tick(a), commit2.request, p);
    ResetsStep(env, s, ResetRead(commit1.request, Some(resetId), now));
    ResetsStep(env, a, ResetRead(commit2.request, Some(resetId), now));
    ResetInFlightCommits(env, b, commit1, resetId);
    ResetsStep(env, b, commit1);
    var c := Apply(env, b, commit1).0;
    ResetInFlightCommits(env, c, commit2, resetId);
    ResetSets(env, c, commit2);
  }

  lemma ResetSets(env: Env, s: State, commit: Step)
    requires commit.ResetCommit? && commit.request in s.pending && s.pending[commit.request].Resetting?
    requires Apply(env, s, commit).1 == Ok
    ensures var (s', userId) := (Apply(env, s, commit).0, s.pending[commit.request].userId);
            userId in s'.users && s'.users[userId].password == env.hash(commit.password, commit.salt)
  {
  }

  // ---------------------------------------------------------------- unrevoked sessions

  function Unrevoked(sessions: map<Id, Session>, userId: Id): set<Id> {
    set k | k in sessions && sessions[k].userId == userId && sessions[k].revokedAt.None?
  }

  lemma InsertUnrevoked(env: Env, s: State, userId: Id, sid: Id, token: string, salt: nat, now: nat, parent: Option<Id>,
                        u: Id)
    requires CanInsert(s, userId, sid, token) && s.sessions.Keys <= s.born.Keys
    ensures Unrevoked(Insert(env, s, userId, sid, token, salt, now, parent).sessions, u) ==
            Unrevoked(s.sessions, u) + (if u == userId then {sid} else {})
    ensures sid !in Unrevoked(s.sessions, u)
  {
  }

  lemma RevokeUnrevoked(sessions: map<Id, Session>, k: Id, row: Session, u: Id)
    requires k in sessions && row.userId == sessions[k].userId && row.revokedAt.Some?
    ensures Unrevoked(sessions[k := row], u) == Unrevoked(sessions, u) - {k}
  {
  }

  lemma RotateUnrevoked(env: Env, s: State, userId: Id, oldId: Id, sid: Id, token: string, salt: nat, now: nat, u: Id)
    requires CanInsert(s, userId, sid, token) && s.sessions.Keys <= s.born.Keys
    requires oldId in s.sessions && s.sessions[oldId].userId == userId
    ensures Unrevoked(Rotate(env, s, userId, oldId, sid, token, salt, now).0.sessions, u) ==
            if u == userId then Unrevoked(s.sessions, u) - {oldId} + {sid} else Unrevoked(s.sessions, u)
    ensures sid !in Unrevoked(s.sessions, u) && sid != oldId
  {
    InsertUnrevoked(env, s, userId, sid, token, salt, now, Some(oldId), u);
    var s1 := Insert(env, s, userId, sid, token, salt, now, Some(oldId));
    RevokeUnrevoked(s1.sessions, oldId, Rotate(env, s, userId, oldId, sid, token, salt, now).0.sessions[oldId], u);
  }

  /** What a committed rotation does to the unrevoked sessions of each user: it keeps their number
      exactly when the session it replaces was still unrevoked at the commit. */
  lemma RotationCount(env: Env, s: State, commit: Step, userId: Id)
    requires GraphSound(s)
    requires commit.RotateCommit? && commit.request in s.pending && s.pending[commit.request].Rotating?
    requires Apply(env, s, commit).1.Tokens?
    ensures var p := s.pending[commit.request];
            var after := Unrevoked(Apply(env, s, commit).0.sessions, userId);
            && p.sid in s.sessions
            && after == (if userId == p.userId then Unrevoked(s.sessions, userId) - {p.sid} + {commit.sid}
                         else Unrevoked(s.sessions, userId))
            && |after| ==
               |Unrevoked(s.sessions, userId)|
               + if userId == p.userId && s.sessions[p.sid].revokedAt.Some? then 1 else 0
  {
    var p := s.pending[commit.request];
    RowsWereBorn(s);
    RotateUnrevoked(env, Drop(Tick(s), commit.request), p.userId, p.sid, commit.sid, commit.token, commit.salt,
                    commit.now, userId);
  }

  lemma RowsWereBorn(s: State)
    requires RowsSound(s)
    ensures s.sessions.Keys <= s.born.Keys
  {
    forall k | k in s.sessions ensures k in s.born { assert RowSound(s, k); }
  }

  // ---------------------------------------------------------------- requests taken whole

  /** A refresh whose read and commit nothing separates. */
  function SerialRefresh(env: Env, s: State, request: Id, token: string, verified: bool, readAt: nat,
                         sid: Id, newToken: string, salt: nat, commitAt: nat): (State, Reply)
  {
    var (s1, reply) := CheckRefresh(env, Tick(s), request, token, verified, readAt);
    if reply != Continue then (s1, reply)
    else if request in s1.pending && s1.pending[request].RevokingAll? then
      CommitRevokeAll(Tick(s1), request, commitAt)
    else CommitRotation(env, Tick(s1), request, sid, newToken, salt, commitAt)
  }

  function SerialLogin(env: Env, s: State, request: Id, found: Option<Id>, password: string,
                       sid: Id, token: string, salt: nat, now: nat): (State, Reply)
  {
    var (s1, reply) := CheckLogin(env, Tick(s), request, found, password);
    if reply != Continue then (s1, reply) else OpenSession(env, Tick(s1), request, sid, token, salt, now)
  }

  function SerialRegister(env: Env, s: State, request: Id, userId: Id, password: string, passwordSalt: nat,
                          sid: Id, token: string, salt: nat, now: nat): (State, Reply)
  {
    var (s1, reply) := Register(env, Tick(s), request, userId, password, passwordSalt);
    if reply != Continue then (s1, reply) else OpenSession(env, Tick(s1), request, sid, token, salt, now)
  }

  function SerialLogout(env: Env, s: State, request: Id, token: string, verified: bool, now: nat): (State, Reply) {
    var (s1, reply) := CheckLogout(env, Tick(s), request, token, verified);
    if reply != Continue then (s1, reply) else CommitLogout(Tick(s1), request, now)
  }

  function SerialChange(env: Env, s: State, request: Id, userId: Id, current: string, next: string, salt: nat):
    (State, Reply)
  {
    var (s1, reply) := CheckChange(env, Tick(s), request, userId, current);
    if reply != Continue then (s1, reply) else CommitChange(env, Tick(s1), request, next, salt)
  }

  function SerialReset(env: Env, s: State, request: Id, found: Option<Id>, readAt: nat,
                       next: string, salt: nat, now: nat): (State, Reply)
  {
    var (s1, reply) := CheckReset(Tick(s), request, found, readAt);
    if reply != Continue then (s1, reply) else CommitReset(env, Tick(s1), request, next, salt, now)
  }

  /** What an accepted read establishes. */
  lemma AcceptedRead(env: Env, s: State, request: Id, token: string, verified: bool, readAt: nat)
    requires TokensMatch(env, s)
    requires Apply(env, s, RefreshRead(request, token, verified, readAt)).1 == Continue
    ensures verified && token in s.issued && s.issued[token] in s.sessions
    ensures s.sessions[s.issued[token]].revokedAt.None?
    ensures var s1 := Apply(env, s, RefreshRead(request, token, verified, readAt)).0;
            s1 == Hold(Tick(s), request, Rotating(s.sessions[s.issued[token]].userId, s.issued[token]))
  {
    assert token in s.issued ==> TokenMatches(env, s, token);
  }

  /** What a committed rotation does to the two tokens. */
  lemma RotationSpends(env: Env, s: State, commit: Step, token: string)
    requires GraphSound(s)
    requires commit.RotateCommit? && commit.request in s.pending && s.pending[commit.request].Rotating?
    requires Apply(env, s, commit).1.Tokens?
    requires token in s.issued && s.issued[token] == s.pending[commit.request].sid
    ensures var s' := Apply(env, s, commit).0;
            Spent(s', token) && commit.token in s'.issued && !Spent(s', commit.token)
  {
    RowsWereBorn(s);
  }

  /** An accepted refresh swaps one unrevoked session of its user for another: it spends the token
      it was given, issues one that is good, and every user keeps the same number of them. */
  lemma RefreshSwapsOne(env: Env, s: State, request: Id, token: string, verified: bool, readAt: nat,
                        sid: Id, newToken: string, salt: nat, commitAt: nat, userId: Id)
    requires Sound(env) && GraphSound(s) && TokensMatch(env, s)
    requires SerialRefresh(env, s, request, token, verified, readAt, sid, newToken, salt, commitAt).1.Tokens?
    ensures var s' := SerialRefresh(env, s, request, token, verified, readAt, sid, newToken, salt, commitAt).0;
            && token in s.issued && s.issued[token] in s.sessions
            && Spent(s', token) && newToken in s'.issued && !Spent(s', newToken)
            && Unrevoked(s'.sessions, s.sessions[s.issued[token]].userId) ==
               Unrevoked(s.sessions, s.sessions[s.issued[token]].userId) - {s.issued[token]} + {sid}
            && |Unrevoked(s'.sessions, userId)| == |Unrevoked(s.sessions, userId)|
  {
    var read := RefreshRead(request, token, verified, readAt);
    var s1 := Apply(env, s, read).0;
    AcceptedRead(env, s, request, token, verified, readAt);
    GraphStep(env, s, read);
    var commit := RotateCommit(request, sid, newToken, salt, commitAt);
    RotationCount(env, s1, commit, userId);
    RotationCount(env, s1, commit, s.sessions[s.issued[token]].userId);
    RotationSpends(env, s1, commit, token);
  }

  /** A login that is let in adds one unrevoked session to its user, and none to anyone else. */
  lemma LoginAddsOne(env: Env, s: State, request: Id, found: Option<Id>, password: string,
                     sid: Id, token: string, salt: nat, now: nat, userId: Id)
    requires GraphSound(s)
    requires SerialLogin(env, s, request, found, password, sid, token, salt, now).1.Tokens?
    ensures var after := SerialLogin(env, s, request, found, password, sid, token, salt, now).0.sessions;
            && found.Some?
            && |Unrevoked(after, userId)| == |Unrevoked(s.sessions, userId)| + if found == Some(userId) then 1 else 0
  {
    RowsWereBorn(s);
    var s1 := Apply(env, s, LoginRead(request, found, password)).0;
    assert found.Some? && s1 == Hold(Tick(s), request, Opening(found.value));
    InsertUnrevoked(env, Drop(Tick(s1), request), found.value, sid, token, salt, now, None, userId);
  }

  lemma StrangerHasNone(s: State, userId: Id)
    requires RowsSound(s) && userId !in s.users
    ensures Unrevoked(s.sessions, userId) == {}
  {
    forall k | k in s.sessions ensures s.sessions[k].userId != userId { assert RowSound(s, k); }
  }

  /** A registration that is let in gives its new user one unrevoked session, and nobody else any. */
  lemma RegisterAddsOne(env: Env, s: State, request: Id, userId: Id, password: string, passwordSalt: nat,
                        sid: Id, token: string, salt: nat, now: nat, other: Id)
    requires GraphSound(s)
    requires SerialRegister(env, s, request, userId, password, passwordSalt, sid, token, salt, now).1.Tokens?
    ensures var (s', _) := SerialRegister(env, s, request, userId, password, passwordSalt, sid, token, salt, now);
            var after := s'.sessions;
            && userId !in s.users
            && Unrevoked(after, userId) == {sid}
            && |Unrevoked(after, other)| == |Unrevoked(s.sessions, other)| + if other == userId then 1 else 0
  {
    RowsWereBorn(s);
    StrangerHasNone(s, userId);
    var s1 := Register(env, Tick(s), request, userId, password, passwordSalt).0;
    assert s1.sessions == s.sessions && s1.born == s.born;
    InsertUnrevoked(env, Drop(Tick(s1), request), userId, sid, token, salt, now, None, other);
    InsertUnrevoked(env, Drop(Tick(s1), request), userId, sid, token, salt, now, None, userId);
  }

  /** What a logout leaves of the session table. */
  lemma LogoutSessions(env: Env, s: State, request: Id, token: string, verified: bool, now: nat)
    requires TokensMatch(env, s)
    ensures var s' := SerialLogout(env, s, request, token, verified, now).0;
            && s'.issued == s.issued
            && if && verified && token in s.issued && s.issued[token] in s.sessions
                  && s.sessions[s.issued[token]].revokedAt.None?
               then s'.sessions == s.sessions[s.issued[token] :=
                      s.sessions[s.issued[token]].(revokedAt := Some(now), lastUsedAt := Some(now))]
               else s'.sessions == s.sessions
  {
    assert token in s.issued ==> TokenMatches(env, s, token);
  }

  /** A logout takes away the session of its token if that was unrevoked, and nothing else. */
  lemma LogoutRemovesAtMostOne(env: Env, s: State, request: Id, token: string, verified: bool, now: nat, userId: Id)
    requires TokensMatch(env, s)
    ensures var s' := SerialLogout(env, s, request, token, verified, now).0;
            && Unrevoked(s'.sessions, userId) ==
               Unrevoked(s.sessions, userId) - (if verified && token in s.issued then {s.issued[token]} else {})
            && |Unrevoked(s.sessions, userId)| - 1 <= |Unrevoked(s'.sessions, userId)|
            && |Unrevoked(s'.sessions, userId)| <= |Unrevoked(s.sessions, userId)|
            && (verified && token in s.issued ==> Spent(s', token))
  {
    LogoutSessions(env, s, request, token, verified, now);
    if verified && token in s.issued {
      var sid := s.issued[token];
      if sid in s.sessions && s.sessions[sid].revokedAt.None? {
        RevokeUnrevoked(s.sessions, sid, s.sessions[sid].(revokedAt := Some(now), lastUsedAt := Some(now)), userId);
      }
    }
  }

  // ---------------------------------------------------------------- why "serial" is needed

  /** A rotation in flight is accepted whenever its old session still exists. */
  lemma RotationAccepted(env: Env, s: State, commit: Step)
    requires commit.RotateCommit? && commit.request in s.pending && s.pending[commit.request].Rotating?
    requires CanInsert(s, s.pending[commit.request].userId, commit.sid, commit.token)
    requires s.pending[commit.request].sid in s.sessions
    ensures var (s', reply) := Apply(env, s, commit);
            var oldId := s.pending[commit.request].sid;
            && reply == Tokens(commit.token)
            && s'.pending == s.pending - {commit.request} && s'.users == s.users
            && s'.born.Keys == s.born.Keys + {commit.sid} && s'.issued.Keys == s.issued.Keys + {commit.token}
            && oldId in s'.sessions && s'.sessions[oldId].revokedAt.Some?
  {
  }

  /** Two reads of one good token, by two requests. */
  lemma TwoReads(env: Env, s: State, token: string, now: nat, request1: Id, request2: Id) returns (b: State)
    requires GraphSound(s) && TokensMatch(env, s) && Sound(env)
    requires ReadRefresh(env, s, token, true, now).Success? && request1 != request2
    ensures b == Apply(env, Apply(env, s, RefreshRead(request1, token, true, now)).0,
                       RefreshRead(request2, token, true, now)).0
    ensures GraphSound(b)
    ensures s.sessions[s.issued[token]].revokedAt.None?
    ensures var p := Rotating(s.sessions[s.issued[token]].userId, s.issued[token]);
            b == Hold(Hold(Tick(Tick(s)), request1, p), request2, p)
  {
    var read1, read2 := RefreshRead(request1, token, true, now), RefreshRead(request2, token, true, now);
    AcceptedRead(env, s, request1, token, true, now);
    var a := Apply(env, s, read1).0;
    GraphStep(env, s, read1);
    MatchStep(env, s, read1);
    AcceptedRead(env, a, request2, token, true, now);
    GraphStep(env, a, read2);
    b := Apply(env, a, read2).0;
  }

  /** Both of them then commit. */
  lemma TwoRotations(env: Env, b: State, commit1: Step, commit2: Step, owner: Id)
    requires GraphSound(b) && owner in b.users
    requires commit1.RotateCommit? && commit2.RotateCommit?
    requires commit1.request != commit2.request && commit1.sid != commit2.sid && commit1.token != commit2.token
    requires commit1.sid !in b.born && commit2.sid !in b.born
    requires commit1.token !in b.issued && commit2.token !in b.issued
    requires commit1.request in b.pending && b.pending[commit1.request].Rotating?
    requires commit2.request in b.pending && b.pending[commit2.request] == b.pending[commit1.request]
    requires var p := b.pending[commit1.request];
             p.userId == owner && p.sid in b.sessions && b.sessions[p.sid].revokedAt.None?
    ensures var (c, reply1) := Apply(env, b, commit1);
            var (d, reply2) := Apply(env, c, commit2);
            && reply1 == Tokens(commit1.token) && reply2 == Tokens(commit2.token)
            && |Unrevoked(d.sessions, owner)| == |Unrevoked(b.sessions, owner)| + 1
  {
    RotationAccepted(env, b, commit1);
    var c := Apply(env, b, commit1).0;
    GraphStep(env, b, commit1);
    RotationCount(env, b, commit1, owner);
    RotationAccepted(env, c, commit2);
    RotationCount(env, c, commit2, owner);
  }

  /** Two refreshes of one token that both read before either commits are both accepted, and leave
      two unrevoked sessions where there was one. */
  lemma ConcurrentRefreshesBothAccepted(env: Env, s: State, token: string, now: nat, commit1: Step, commit2: Step)
    requires GraphSound(s) && TokensMatch(env, s) && Sound(env)
    requires ReadRefresh(env, s, token, true, now).Success?
    requires commit1.RotateCommit? && commit2.RotateCommit?
    requires commit1.request != commit2.request && commit1.sid != commit2.sid && commit1.token != commit2.token
    requires commit1.sid !in s.born && commit2.sid !in s.born
    requires commit1.token !in s.issued && commit2.token !in s.issued
    ensures var a := Apply(env, s, RefreshRead(commit1.request, token, true, now)).0;
            var b := Apply(env, a, RefreshRead(commit2.request, token, true, now)).0;
            var (c, reply1) := Apply(env, b, commit1);
            var (d, reply2) := Apply(env, c, commit2);
            var owner := s.sessions[s.issued[token]].userId;
            && reply1 == Tokens(commit1.token) && reply2 == Tokens(commit2.token)
            && |Unrevoked(d.sessions, owner)| == |Unrevoked(s.sessions, owner)| + 1
  {
    var owner := s.sessions[s.issued[token]].userId;
    var b := TwoReads(env, s, token, now, commit1.request, commit2.request);
    assert RowSound(s, s.issued[token]);
    TwoRotations(env, b, commit1, commit2, owner);
  }
}
