/**
 Who is let in. For each request, exactly when its read accepts it and what a refusal leaves; and, in
 every interleaving, that whatever a request commits was earned by its own read: no password
 changes and no session appears without credentials that were good when they were read.
 */
module AuthAnswers {
  import opened Wrappers
  import opened AuthSessions
  import opened AuthSessionLaws
  import opened AuthSerial

  // ---------------------------------------------------------------- the reads

  /** A refresh is accepted exactly with a verified, issued token of a session that is there, not
      revoked and not past its expiry, of an active user; otherwise it is 401 and nothing changes. */
  lemma RefreshReadIff(env: Env, s: State, request: Id, token: string, verified: bool, now: nat)
    requires TokensMatch(env, s)
    ensures var (s', reply) := Apply(env, s, RefreshRead(request, token, verified, now));
            var good :=
              && verified && token in s.issued
              && var sid := s.issued[token];
              && sid in s.sessions && s.sessions[sid].revokedAt.None? && now <= s.sessions[sid].expiresAt
              && s.sessions[sid].userId in s.users && s.users[s.sessions[sid].userId].isActive;
            && (reply == Continue <==> good)
            && (good ==> s' == Hold(Tick(s), request, Rotating(s.sessions[s.issued[token]].userId, s.issued[token])))
            && (!good ==> (s', reply) == (Tick(s), Unauthorized))
  {
    assert token in s.issued ==> TokenMatches(env, s, token);
  }

  /** A login is accepted exactly with the password of an active user. */
  lemma LoginReadIff(env: Env, s: State, request: Id, found: Option<Id>, password: string)
    ensures var (s', reply) := Apply(env, s, LoginRead(request, found, password));
            var good := && found.Some? && found.value in s.users && s.users[found.value].isActive
                        && env.compare(password, s.users[found.value].password);
            && (reply == Continue <==> good)
            && (good ==> s' == Hold(Tick(s), request, Opening(found.value)))
            && (!good ==> (s', reply) == (Tick(s), Unauthorized))
  {
  }

  /** A registration is accepted exactly for a new user, who is active and has the given password. */
  lemma RegisterReadIff(env: Env, s: State, request: Id, userId: Id, password: string, salt: nat)
    ensures var (s', reply) := Apply(env, s, RegisterUser(request, userId, password, salt));
            && (reply == Continue <==> userId !in s.users)
            && (userId in s.users ==> (s', reply) == (Tick(s), Forbidden))
            && (userId !in s.users ==>
                  && s'.users == s.users[userId := User(env.hash(password, salt), true)]
                  && s'.pending == s.pending[request := Opening(userId)]
                  && s'.sessions == s.sessions && s'.resetTokens == s.resetTokens)
  {
  }

  /** A logout has something to do exactly with a verified, issued token of a live session; otherwise
      it is answered all the same and nothing changes. */
  lemma LogoutReadIff(env: Env, s: State, request: Id, token: string, verified: bool)
    requires TokensMatch(env, s)
    ensures var (s', reply) := Apply(env, s, LogoutRead(request, token, verified));
            var good := && verified && token in s.issued && s.issued[token] in s.sessions
                        && s.sessions[s.issued[token]].revokedAt.None?;
            && (reply == Continue <==> good)
            && (good ==> s' == Hold(Tick(s), request, LoggingOut(s.issued[token])))
            && (!good ==> (s', reply) == (Tick(s), Ok))
  {
    assert token in s.issued ==> TokenMatches(env, s, token);
  }

  /** A reset token is accepted exactly while it is unused and not past its expiry. */
  lemma ResetReadIff(env: Env, s: State, request: Id, found: Option<Id>, now: nat)
    ensures var (s', reply) := Apply(env, s, ResetRead(request, found, now));
            var good := && found.Some? && found.value in s.resetTokens
                        && s.resetTokens[found.value].usedAt.None? && now <= s.resetTokens[found.value].expiresAt;
            && (reply == Continue <==> good)
            && (good ==> s' == Hold(Tick(s), request, Resetting(s.resetTokens[found.value].userId, found.value)))
            && (!good ==> (s', reply) == (Tick(s), Forbidden))
  {
  }

  /** A password change is accepted exactly with the current password of a user that exists. */
  lemma ChangeReadIff(env: Env, s: State, request: Id, userId: Id, current: string)
    ensures var (s', reply) := Apply(env, s, ChangeRead(request, userId, current));
            var good := userId in s.users && env.compare(current, s.users[userId].password);
            && (reply == Continue <==> good)
            && (good ==> s' == Hold(Tick(s), request, Changing(userId)))
            && (!good ==> (s', reply) == (Tick(s), Forbidden))
  {
  }

  // ---------------------------------------------------------------- requests taken whole

  /** The tables after a password change or reset of the user. */
  ghost predicate Wiped(s: State, s': State, userId: Id, password: string) {
    && userId in s.users
    && s'.users == s.users[userId := s.users[userId].(password := password)]
    && s'.sessions == map k | k in s.sessions && s.sessions[k].userId != userId :: s.sessions[k]
  }

  lemma SerialChangeIff(env: Env, s: State, request: Id, userId: Id, current: string, next: string, salt: nat)
    ensures var (s', reply) := SerialChange(env, s, request, userId, current, next, salt);
            var good := userId in s.users && env.compare(current, s.users[userId].password);
            && (reply == Ok <==> good)
            && (good ==> Wiped(s, s', userId, env.hash(next, salt)) && s'.resetTokens == s.resetTokens)
            && (!good ==> (s', reply) == (Tick(s), Forbidden))
  {
    ChangeReadIff(env, s, request, userId, current);
  }

  lemma SerialResetIff(env: Env, s: State, request: Id, found: Option<Id>, readAt: nat, next: string, salt: nat,
                       now: nat)
    requires ResetsSound(s)
    ensures var (s', reply) := SerialReset(env, s, request, found, readAt, next, salt, now);
            var good := && found.Some? && found.value in s.resetTokens
                        && s.resetTokens[found.value].usedAt.None? && readAt <= s.resetTokens[found.value].expiresAt;
            && (reply == Ok <==> good)
            && (good ==>
                  && Wiped(s, s', s.resetTokens[found.value].userId, env.hash(next, salt))
                  && s'.resetTokens == s.resetTokens[found.value := s.resetTokens[found.value].(usedAt := Some(now))])
            && (!good ==> (s', reply) == (Tick(s), Forbidden))
  {
    ResetReadIff(env, s, request, found, readAt);
  }

  /** A refresh taken whole gives a new pair exactly in the cases of RefreshReadIff. */
  lemma SerialRefreshIff(env: Env, s: State, request: Id, token: string, verified: bool, readAt: nat,
                         sid: Id, newToken: string, salt: nat, now: nat)
    requires GraphSound(s) && TokensMatch(env, s) && sid !in s.born && newToken !in s.issued
    ensures var (s', reply) := SerialRefresh(env, s, request, token, verified, readAt, sid, newToken, salt, now);
            var good :=
              && verified && token in s.issued
              && var old' := s.issued[token];
              && old' in s.sessions && s.sessions[old'].revokedAt.None? && readAt <= s.sessions[old'].expiresAt
              && s.users[s.sessions[old'].userId].isActive;
            && (reply == Tokens(newToken) <==> good)
            && (!good ==> (s', reply) == (Tick(s), Unauthorized))
  {
    RefreshReadIff(env, s, request, token, verified, readAt);
    forall k | k in s.sessions ensures s.sessions[k].userId in s.users { assert RowSound(s, k); }
    var (s1, reply) := Apply(env, s, RefreshRead(request, token, verified, readAt));
    if reply == Continue {
      RotationAccepted(env, s1, RotateCommit(request, sid, newToken, salt, now));
    }
  }

  // ---------------------------------------------------------------- what the commits write

  /** A committed rotation writes two rows: the new one, and the old one revoked, used and linked. */
  lemma RotationWrites(env: Env, s: State, commit: Step)
    requires PendingSound(s)
    requires commit.RotateCommit? && commit.request in s.pending && s.pending[commit.request].Rotating?
    requires Apply(env, s, commit).1.Tokens?
    ensures var (p, t) := (s.pending[commit.request], Some(commit.now));
            && p.sid in s.sessions && commit.sid !in s.born
            && Apply(env, s, commit).0.sessions ==
               s.sessions[commit.sid := Session(p.userId, env.hash(commit.token, commit.salt),
                                                commit.now + env.refreshMaxAgeMs, None, None, None)]
                         [p.sid := s.sessions[p.sid].(
                            revokedAt := t, lastUsedAt := t, replacedById := Some(commit.sid))]
  {
  }

  lemma LoginWrites(env: Env, s: State, commit: Step)
    requires commit.InsertSession? && commit.request in s.pending && s.pending[commit.request].Opening?
    requires Apply(env, s, commit).1.Tokens?
    ensures Apply(env, s, commit).0.sessions ==
            s.sessions[commit.sid := Session(s.pending[commit.request].userId, env.hash(commit.token, commit.salt),
                                             commit.now + env.refreshMaxAgeMs, None, None, None)]
  {
  }

  /** A committed logout revokes and dates its row, if that is still there, and a logout of all revokes
      and dates every row of the user, the revoked ones again. */
  lemma LogoutWrites(env: Env, s: State, commit: Step, k: Id)
    requires k in s.sessions
    requires commit.LogoutAll? ||
             (commit.LogoutCommit? && commit.request in s.pending && s.pending[commit.request].LoggingOut?)
    ensures var (s', reply) := Apply(env, s, commit);
            var row := s.sessions[k];
            && s'.sessions.Keys == s.sessions.Keys
            && (commit.LogoutAll? ==>
                  && reply == Ok
                  && s'.sessions[k] == if row.userId == commit.userId then row.(revokedAt := Some(commit.now)) else row)
            && (commit.LogoutCommit? ==>
                  && (reply == Ok <==> s.pending[commit.request].sid in s.sessions)
                  && s'.sessions[k] == if k == s.pending[commit.request].sid
                                       then row.(revokedAt := Some(commit.now), lastUsedAt := Some(commit.now))
                                       else row)
  {
  }

  /** A row the commit of a request in flight needs. */
  predicate RowMissing(s: State, p: Pending) {
    match p
    case Opening(userId) => userId !in s.users
    case Rotating(userId, sid) => userId !in s.users || sid !in s.sessions
    case RevokingAll(_) => false
    case LoggingOut(sid) => sid !in s.sessions
    case Resetting(userId, resetId) => userId !in s.users || resetId !in s.resetTokens
    case Changing(userId) => userId !in s.users
  }

  predicate Commits(step: Step, p: Pending) {
    match p
    case Opening(_) => step.InsertSession?
    case Rotating(_, _) => step.RotateCommit?
    case RevokingAll(_) => step.RevokeAllCommit?
    case LoggingOut(_) => step.LogoutCommit?
    case Resetting(_, _) => step.ResetCommit?
    case Changing(_) => step.ChangeCommit?
  }

  /** A commit that misses a row aborts, and writes no table at all. */
  lemma MissingRowAborts(env: Env, s: State, commit: Step, request: Id)
    requires request in s.pending && Commits(commit, s.pending[request]) && commit.request == request
    requires RowMissing(s, s.pending[request])
    ensures var (s', reply) := Apply(env, s, commit);
            && reply == Aborted && s'.users == s.users && s'.sessions == s.sessions && s'.resetTokens == s.resetTokens
            && s'.issued == s.issued && s'.pending == s.pending - {request}
  {
  }

  /** Switching a user on or off writes that flag of that user, and nothing else. */
  lemma ActivationWrites(env: Env, s: State, step: Step)
    requires step.SetActive?
    ensures var s' := Apply(env, s, step).0;
            && s'.users.Keys == s.users.Keys
            && (step.userId in s.users ==>
                  s'.users == s.users[step.userId := s.users[step.userId].(isActive := step.isActive)])
            && s'.sessions == s.sessions && s'.resetTokens == s.resetTokens && s'.pending == s.pending
  {
  }

  // ---------------------------------------------------------------- life times

  /** In every interleaving, the token of a session inserted at time x is accepted while the session is
      there, unrevoked, its owner active and the read not later than x + refreshMaxAgeMs; any later
      read is 401 and changes nothing. */
  lemma TokenLifetime(env: Env, s: State, insert: Step, later: seq<Step>, read: Step)
    requires Sound(env) && GraphSound(s) && TokensMatch(env, s)
    requires insert.InsertSession? || insert.RotateCommit?
    requires Apply(env, s, insert).1 == Tokens(insert.token)
    requires read.RefreshRead? && read.token == insert.token && read.verified
    ensures var s2 := Run(env, Apply(env, s, insert).0, later);
            var (s3, reply) := Apply(env, s2, read);
            && (reply == Continue <==>
                  && insert.sid in s2.sessions && s2.sessions[insert.sid].revokedAt.None?
                  && s2.sessions[insert.sid].userId in s2.users && s2.users[s2.sessions[insert.sid].userId].isActive
                  && read.now <= insert.now + env.refreshMaxAgeMs)
            && (read.now > insert.now + env.refreshMaxAgeMs ==> (s3, reply) == (Tick(s2), Unauthorized))
  {
    var s1 := Apply(env, s, insert).0;
    GraphStep(env, s, insert);
    MatchStep(env, s, insert);
    InsertedRow(env, s, insert);
    RunExtends(env, s1, later);
    MatchRun(env, s1, later);
    RefreshReadIff(env, Run(env, s1, later), read.request, read.token, read.verified, read.now);
  }

  lemma InsertedRow(env: Env, s: State, insert: Step)
    requires insert.InsertSession? || insert.RotateCommit?
    requires PendingSound(s) && RowsSound(s)
    requires Apply(env, s, insert).1 == Tokens(insert.token)
    ensures var s1 := Apply(env, s, insert).0;
            && insert.sid in s1.born && insert.sid in s1.sessions
            && insert.token in s1.issued && s1.issued[insert.token] == insert.sid
            && s1.sessions[insert.sid].expiresAt == insert.now + env.refreshMaxAgeMs
  {
    RowsWereBorn(s);
  }

  lemma ResetRowStep(env: Env, s: State, step: Step, id: Id)
    requires id in s.resetTokens
    ensures var s' := Apply(env, s, step).0;
            && id in s'.resetTokens && s'.resetTokens[id].userId == s.resetTokens[id].userId
            && s'.resetTokens[id].expiresAt == s.resetTokens[id].expiresAt
  {
    if !step.ForgotPassword? && !step.ResetCommit? {
      ResetTokensStay(env, s, step);
    }
  }

  lemma {:induction false} ResetRowRun(env: Env, s: State, steps: seq<Step>, id: Id)
    requires id in s.resetTokens
    ensures var s' := Run(env, s, steps);
            && id in s'.resetTokens && s'.resetTokens[id].userId == s.resetTokens[id].userId
            && s'.resetTokens[id].expiresAt == s.resetTokens[id].expiresAt
    decreases |steps|
  {
    if steps != [] {
      ResetRowStep(env, s, steps[0], id);
      ResetRowRun(env, Apply(env, s, steps[0]).0, steps[1..], id);
    }
  }

  /** In every interleaving, a reset token asked for at time x belongs to the user that asked, and is
      accepted while it is unused and the read not later than 30 minutes after x. */
  lemma ResetTokenLifetime(env: Env, s: State, forgot: Step, later: seq<Step>, read: Step)
    requires forgot.ForgotPassword? && forgot.userId in s.users && forgot.resetId !in s.resetTokens
    requires read.ResetRead? && read.found == Some(forgot.resetId)
    ensures var s2 := Run(env, Apply(env, s, forgot).0, later);
            var (s3, reply) := Apply(env, s2, read);
            && (reply == Continue <==> !UsedUp(s2, forgot.resetId) && read.now <= forgot.now + 1_800_000)
            && (reply == Continue ==> s3.pending[read.request] == Resetting(forgot.userId, forgot.resetId))
            && (reply != Continue ==> (s3, reply) == (Tick(s2), Forbidden))
  {
    var s1 := Apply(env, s, forgot).0;
    assert s1.resetTokens == s.resetTokens[forgot.resetId := ResetToken(forgot.userId, forgot.now + 1_800_000, None)];
    ResetRowRun(env, s1, later, forgot.resetId);
    ResetReadIff(env, Run(env, s1, later), read.request, read.found, read.now);
  }

  /** Asking for a reset of an unknown user is answered like any other and writes no token. */
  lemma ForgotUnknownUser(env: Env, s: State, forgot: Step)
    requires forgot.ForgotPassword?
    ensures Apply(env, s, forgot).1 == Ok
    ensures forgot.userId !in s.users ==> Apply(env, s, forgot).0 == Tick(s)
  {
  }

  // ---------------------------------------------------------------- nothing is committed unearned

  /** The step is the read of the request, and in state `a` it accepts what the request goes on to do. */
  ghost predicate Justifies(env: Env, a: State, read: Step, request: Id, p: Pending) {
    match p
    case Opening(userId) =>
      || (read.RegisterUser? && read.request == request && read.userId == userId && userId !in a.users)
      || (&& read.LoginRead? && read.request == request && read.found == Some(userId)
          && userId in a.users && a.users[userId].isActive && env.compare(read.password, a.users[userId].password))
    case Rotating(userId, sid) =>
      && read.RefreshRead? && read.request == request && read.verified
      && read.token in a.issued && a.issued[read.token] == sid
      && sid in a.sessions && a.sessions[sid].userId == userId
      && a.sessions[sid].revokedAt.None? && read.now <= a.sessions[sid].expiresAt
      && userId in a.users && a.users[userId].isActive
      && env.compare(read.token, a.sessions[sid].hashedRefreshToken)
    case RevokingAll(_) => read.RefreshRead? && read.request == request
    case LoggingOut(sid) =>
      && read.LogoutRead? && read.request == request && read.verified
      && read.token in a.issued && a.issued[read.token] == sid
      && sid in a.sessions && a.sessions[sid].revokedAt.None?
      && env.compare(read.token, a.sessions[sid].hashedRefreshToken)
    case Resetting(userId, resetId) =>
      && read.ResetRead? && read.request == request && read.found == Some(resetId)
      && resetId in a.resetTokens && a.resetTokens[resetId].userId == userId
      && a.resetTokens[resetId].usedAt.None? && read.now <= a.resetTokens[resetId].expiresAt
    case Changing(userId) =>
      && read.ChangeRead? && read.request == request && read.userId == userId
      && userId in a.users && env.compare(read.password, a.users[userId].password)
  }

  lemma RefreshJustifies(env: Env, a: State, step: Step, r: Id)
    requires step.RefreshRead? && r in Apply(env, a, step).0.pending
    ensures var s' := Apply(env, a, step).0; Carried(a, s', r) || Justifies(env, a, step, r, s'.pending[r])
  {
  }

  lemma StepJustifies(env: Env, a: State, step: Step, r: Id)
    requires r in Apply(env, a, step).0.pending
    ensures var s' := Apply(env, a, step).0; Carried(a, s', r) || Justifies(env, a, step, r, s'.pending[r])
  {
    PendingComesFrom(env, a, step, r);
    match step {
      case RegisterUser(request, userId, password, salt) => RegisterReadIff(env, a, request, userId, password, salt);
      case LoginRead(request, found, password) => LoginReadIff(env, a, request, found, password);
      case RefreshRead(_, _, _, _) => RefreshJustifies(env, a, step, r);
      case ResetRead(request, found, now) => ResetReadIff(env, a, request, found, now);
      case ChangeRead(request, userId, password) => ChangeReadIff(env, a, request, userId, password);
      case _ =>
    }
  }

  lemma {:induction false} RunLast(env: Env, s: State, steps: seq<Step>)
    requires steps != []
    ensures var n := |steps| - 1; Run(env, s, steps) == Apply(env, Run(env, s, steps[..n]), steps[n]).0
    decreases |steps|
  {
    var n := |steps| - 1;
    if n > 0 {
      RunLast(env, Apply(env, s, steps[0]).0, steps[1..]);
      assert steps[1..][..n - 1] == steps[..n][1..];
    } else {
      assert steps[1..] == [] && steps[..0] == [];
    }
  }

  /** Step number `j` of a run from an empty database let the request take off for `p`. */
  ghost predicate JustifiedAt(env: Env, steps: seq<Step>, j: int, request: Id, p: Pending) {
    0 <= j < |steps| && Justifies(env, Run(env, EMPTY, steps[..j]), steps[j], request, p)
  }

  /** In every interleaving, whatever a request is about to commit, an earlier step of the run was its
      read, and accepted it on the tables of that moment. */
  lemma {:induction false} PendingIsJustified(env: Env, steps: seq<Step>, request: Id) returns (j: nat)
    requires request in Run(env, EMPTY, steps).pending
    ensures JustifiedAt(env, steps, j, request, Run(env, EMPTY, steps).pending[request])
    decreases |steps|
  {
    var n := |steps| - 1;
    var front := steps[..n];
    RunLast(env, EMPTY, steps);
    StepJustifies(env, Run(env, EMPTY, front), steps[n], request);
    if Carried(Run(env, EMPTY, front), Run(env, EMPTY, steps), request) {
      j := PendingIsJustified(env, front, request);
      assert front[..j] == steps[..j];
    } else {
      j := n;
    }
  }

  lemma PasswordsStay(env: Env, s: State, step: Step, userId: Id)
    requires !step.ChangeCommit? && !step.ResetCommit? && userId in s.users
    ensures var s' := Apply(env, s, step).0;
            userId in s'.users && s'.users[userId].password == s.users[userId].password
  {
  }

  /** The commits that write a password, for the user of the request. */
  lemma PasswordWriters(env: Env, s: State, step: Step, userId: Id)
    requires userId in s.users && userId in Apply(env, s, step).0.users
    requires Apply(env, s, step).0.users[userId].password != s.users[userId].password
    ensures (step.ChangeCommit? || step.ResetCommit?) && step.request in s.pending
    ensures var p := s.pending[step.request];
            && (p == Changing(userId) || (p.Resetting? && p.userId == userId))
            && Apply(env, s, step).0.users[userId].password == env.hash(step.password, step.salt)
  {
    if !step.ChangeCommit? && !step.ResetCommit? {
      PasswordsStay(env, s, step, userId);
    }
  }

  /** In every interleaving: a stored password changes only by the commit of a request whose own read
      matched the password stored at that moment, or found an unused, unexpired reset token of the
      user; and it becomes the hash of the password that request gave. */
  lemma PasswordChangesAreEarned(env: Env, steps: seq<Step>, commit: Step, userId: Id) returns (j: nat)
    requires var a := Run(env, EMPTY, steps);
             userId in a.users && userId in Apply(env, a, commit).0.users
             && Apply(env, a, commit).0.users[userId].password != a.users[userId].password
    ensures j < |steps| && (commit.ChangeCommit? || commit.ResetCommit?)
    ensures Apply(env, Run(env, EMPTY, steps), commit).0.users[userId].password ==
            env.hash(commit.password, commit.salt)
    ensures var (read, a) := (steps[j], Run(env, EMPTY, steps[..j]));
            || (&& read.ChangeRead? && read.request == commit.request && read.userId == userId
                && userId in a.users && env.compare(read.password, a.users[userId].password))
            || (&& read.ResetRead? && read.request == commit.request
                && read.found.Some? && read.found.value in a.resetTokens
                && a.resetTokens[read.found.value].userId == userId
                && a.resetTokens[read.found.value].usedAt.None?
                && read.now <= a.resetTokens[read.found.value].expiresAt)
  {
    var a := Run(env, EMPTY, steps);
    PasswordWriters(env, a, commit, userId);
    j := PendingIsJustified(env, steps, commit.request);
  }

  /** In every interleaving: a session appears only by the commit of a request whose own read matched
      the password of its active user, registered that user, or accepted a token of that user's. */
  lemma SessionsAreEarned(env: Env, steps: seq<Step>, commit: Step, k: Id) returns (j: nat)
    requires var a := Run(env, EMPTY, steps); k !in a.sessions && k in Apply(env, a, commit).0.sessions
    ensures j < |steps| && (commit.InsertSession? || commit.RotateCommit?)
    ensures var (read, a) := (steps[j], Run(env, EMPTY, steps[..j]));
            var userId := Apply(env, Run(env, EMPTY, steps), commit).0.sessions[k].userId;
            || (read.RegisterUser? && read.request == commit.request && read.userId == userId && userId !in a.users)
            || (&& read.LoginRead? && read.request == commit.request && read.found == Some(userId)
                && userId in a.users && a.users[userId].isActive
                  && env.compare(read.password, a.users[userId].password))
            || (&& read.RefreshRead? && read.request == commit.request && read.verified
                && userId in a.users && a.users[userId].isActive
                && read.token in a.issued
                && var sid := a.issued[read.token];
                && sid in a.sessions && a.sessions[sid].userId == userId
                && a.sessions[sid].revokedAt.None? && read.now <= a.sessions[sid].expiresAt)
  {
    ReachableGraphSound(env, steps);
    NewSessionOwner(env, Run(env, EMPTY, steps), commit, k);
    j := PendingIsJustified(env, steps, commit.request);
  }

  /** A session appears only by an insert or a rotation in flight, for the user of that request. */
  lemma NewSessionOwner(env: Env, s: State, commit: Step, k: Id)
    requires PendingSound(s) && k !in s.sessions && k in Apply(env, s, commit).0.sessions
    ensures (commit.InsertSession? || commit.RotateCommit?) && commit.request in s.pending
    ensures var (p, userId) := (s.pending[commit.request], Apply(env, s, commit).0.sessions[k].userId);
            p == Opening(userId) || (p.Rotating? && p.userId == userId)
  {
    if Quiet(commit) {
      QuietStepOnlyRevokes(env, s, commit);
    } else if commit.InsertSession? {
      InsertComesFromPending(env, Tick(s), commit.request, commit.sid, commit.token, commit.salt, commit.now, k);
    } else if commit.RotateCommit? {
      RotatedUser(env, s, commit, k);
    }
  }

  lemma RotatedUser(env: Env, s: State, commit: Step, k: Id)
    requires PendingSound(s) && commit.RotateCommit?
    requires k in Apply(env, s, commit).0.sessions && k !in s.sessions
    ensures commit.request in s.pending && s.pending[commit.request].Rotating?
    ensures s.pending[commit.request].userId == Apply(env, s, commit).0.sessions[k].userId
  {
  }
}
