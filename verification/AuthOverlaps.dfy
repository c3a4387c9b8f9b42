/**
 What requests already in flight can still do to sessions that are revoked meanwhile. A rotation
 commits on the mere presence of its old row, so revoking that row does not stop it: each theorem
 here says exactly when such a request brings a live session back.
 */
module AuthOverlaps {
  import opened Wrappers
  import opened AuthSessions
  import opened AuthSessionLaws
  import opened AuthSerial

  // ---------------------------------------------------------------- one session

  /** A rotation of the session in flight. */
  ghost predicate RotatesFrom(s: State, request: Id, sid: Id) {
    request in s.pending && s.pending[request].Rotating? && s.pending[request].sid == sid
  }

  /** The session is gone or revoked, for good. */
  ghost predicate Over(s: State, sid: Id) {
    sid in s.born && (sid in s.sessions ==> s.sessions[sid].revokedAt.Some?)
  }

  lemma OverStep(env: Env, s: State, step: Step, sid: Id)
    requires ClockSound(s) && Over(s, sid)
    ensures ClockSound(Apply(env, s, step).0) && Over(Apply(env, s, step).0, sid)
  {
    StepExtends(env, s, step);
  }

  /** A refresh read lets only a live session take off. */
  lemma RefreshTakesLive(env: Env, s: State, step: Step, r: Id)
    requires step.RefreshRead?
    requires var p := Apply(env, s, step).0.pending; r in p && p[r].Rotating?
    ensures var p := Apply(env, s, step).0.pending[r];
            || (r in s.pending && s.pending[r] == p)
            || (p.sid in s.sessions && s.sessions[p.sid].userId == p.userId && s.sessions[p.sid].revokedAt.None?)
  {
  }

  lemma OverHoldsOff(env: Env, s: State, step: Step, sid: Id, r: Id)
    requires Over(s, sid) && RotatesFrom(Apply(env, s, step).0, r, sid)
    ensures RotatesFrom(s, r, sid)
  {
    PendingComesFrom(env, s, step, r);
    if step.RefreshRead? {
      RefreshTakesLive(env, s, step, r);
    }
  }

  lemma {:induction false} OverHoldsOffRun(env: Env, s: State, steps: seq<Step>, sid: Id, r: Id)
    requires ClockSound(s) && Over(s, sid) && RotatesFrom(Run(env, s, steps), r, sid)
    ensures RotatesFrom(s, r, sid)
    decreases |steps|
  {
    if steps != [] {
      OverStep(env, s, steps[0], sid);
      OverHoldsOffRun(env, Apply(env, s, steps[0]).0, steps[1..], sid, r);
      OverHoldsOff(env, s, steps[0], sid, r);
    }
  }

  /** After the steps `later`, a rotation of the session is accepted. */
  ghost predicate RotatesAgain(env: Env, s: State, later: seq<Step>, again: Step, sid: Id) {
    var s1 := Run(env, s, later);
    again.RotateCommit? && RotatesFrom(s1, again.request, sid) && Apply(env, s1, again).1.Tokens?
  }

  lemma InFlightRotates(env: Env, s: State, r: Id, sid: Id, newSid: Id, newToken: string)
    requires GraphSound(s) && sid in s.sessions && RotatesFrom(s, r, sid)
    requires newSid !in s.born && newToken !in s.issued
    ensures RotatesAgain(env, s, [], RotateCommit(r, newSid, newToken, 0, 0), sid)
  {
    assert RowSound(s, sid);
    RotationAccepted(env, s, RotateCommit(r, newSid, newToken, 0, 0));
    assert Run(env, s, []) == s;
  }

  /** A revoked session is rotated in some later run exactly when a rotation of it is in flight: when
      a refresh had read it before it was revoked. (`newSid` and `newToken` are any new ones.) */
  lemma RevokedRotatesIff(env: Env, s: State, sid: Id, newSid: Id, newToken: string)
    requires GraphSound(s) && sid in s.sessions && s.sessions[sid].revokedAt.Some?
    requires newSid !in s.born && newToken !in s.issued
    ensures (exists later: seq<Step>, again: Step :: RotatesAgain(env, s, later, again, sid)) <==>
            (exists r :: RotatesFrom(s, r, sid))
  {
    assert RowSound(s, sid);
    if r :| RotatesFrom(s, r, sid) {
      InFlightRotates(env, s, r, sid, newSid, newToken);
    } else {
      forall later: seq<Step>, again: Step ensures !RotatesAgain(env, s, later, again, sid) {
        if RotatesAgain(env, s, later, again, sid) {
          OverHoldsOffRun(env, s, later, sid, again.request);
        }
      }
    }
  }

  /** The rotations in flight once one request is done. */
  lemma OthersStillRotate(s: State, s1: State, gone: Id, sid: Id)
    requires s1.pending == s.pending - {gone}
    ensures (exists r :: RotatesFrom(s1, r, sid)) <==> (exists r :: r != gone && RotatesFrom(s, r, sid))
  {
    if r :| r != gone && RotatesFrom(s, r, sid) {
      assert RotatesFrom(s1, r, sid);
    }
    if r :| RotatesFrom(s1, r, sid) {
      assert r != gone && RotatesFrom(s, r, sid);
    }
  }

  lemma RotationLeaves(env: Env, s: State, commit: Step, sid: Id)
    requires commit.RotateCommit? && RotatesFrom(s, commit.request, sid) && Apply(env, s, commit).1.Tokens?
    ensures var s1 := Apply(env, s, commit).0;
            && sid in s1.sessions && s1.sessions[sid].revokedAt.Some?
            && s1.pending == s.pending - {commit.request}
            && s1.born.Keys == s.born.Keys + {commit.sid} && s1.issued.Keys == s.issued.Keys + {commit.token}
  {
    RotationAccepted(env, s, commit);
  }

  /** Once a rotation of a session has committed, a second one is accepted in some later run exactly
      when another refresh had read the session before the first commit and is still in flight. */
  lemma SecondRotationIff(env: Env, s: State, commit: Step, sid: Id, newSid: Id, newToken: string)
    requires GraphSound(s)
    requires commit.RotateCommit? && RotatesFrom(s, commit.request, sid) && Apply(env, s, commit).1.Tokens?
    requires newSid !in s.born && newSid != commit.sid && newToken !in s.issued && newToken != commit.token
    ensures var s1 := Apply(env, s, commit).0;
            (exists later: seq<Step>, again: Step :: RotatesAgain(env, s1, later, again, sid)) <==>
            (exists r :: r != commit.request && RotatesFrom(s, r, sid))
  {
    var s1 := Apply(env, s, commit).0;
    GraphStep(env, s, commit);
    RotationLeaves(env, s, commit, sid);
    OthersStillRotate(s, s1, commit.request, sid);
    RevokedRotatesIff(env, s1, sid, newSid, newToken);
  }

  lemma LogoutLeaves(env: Env, s: State, commit: Step)
    requires commit.LogoutCommit? && commit.request in s.pending && s.pending[commit.request].LoggingOut?
    requires Apply(env, s, commit).1 == Ok
    ensures var (s1, sid) := (Apply(env, s, commit).0, s.pending[commit.request].sid);
            && sid in s1.sessions && s1.sessions[sid].revokedAt.Some?
            && s1.pending == s.pending - {commit.request} && s1.born == s.born && s1.issued == s.issued
  {
  }

  /** Once a logout has committed, its session is rotated in some later run, and so lives on in a
      successor, exactly when a refresh had read it before and is still in flight. */
  lemma LogoutUndoneIff(env: Env, s: State, commit: Step, newSid: Id, newToken: string)
    requires GraphSound(s)
    requires commit.LogoutCommit? && commit.request in s.pending && s.pending[commit.request].LoggingOut?
    requires Apply(env, s, commit).1 == Ok
    requires newSid !in s.born && newToken !in s.issued
    ensures var (s1, sid) := (Apply(env, s, commit).0, s.pending[commit.request].sid);
            (exists later: seq<Step>, again: Step :: RotatesAgain(env, s1, later, again, sid)) <==>
            (exists r :: RotatesFrom(s, r, sid))
  {
    var (s1, sid) := (Apply(env, s, commit).0, s.pending[commit.request].sid);
    GraphStep(env, s, commit);
    LogoutLeaves(env, s, commit);
    OthersStillRotate(s, s1, commit.request, sid);
    RevokedRotatesIff(env, s1, sid, newSid, newToken);
    if r :| RotatesFrom(s, r, sid) {
      assert r != commit.request;
    }
  }

  // ---------------------------------------------------------------- all sessions of a user

  ghost predicate HasLive(s: State, userId: Id) {
    exists k :: k in Unrevoked(s.sessions, userId)
  }

  /** No live session of the user, and nothing in flight that could open one. */
  ghost predicate Quieted(s: State, userId: Id) {
    && userId in s.users
    && Unrevoked(s.sessions, userId) == {}
    && forall r :: !CanStillOpen(s, r, userId)
  }

  lemma QuietedInFlight(env: Env, s: State, step: Step, userId: Id, r: Id)
    requires GraphSound(s) && Quieted(s, userId) && !LetsIn(env, s, step, userId)
    ensures !CanStillOpen(Apply(env, s, step).0, r, userId)
  {
    var s' := Apply(env, s, step).0;
    if CanStillOpen(s', r, userId) {
      assert !CanStillOpen(s, r, userId);
      if s'.pending[r].Opening? {
        OpeningsTakeOff(env, s, step, r, userId);
      } else {
        assert s'.pending[r].sid !in Unrevoked(s.sessions, userId);
        StepContinues(env, s, step);
        PendingComesFrom(env, s, step, r);
        if step.RefreshRead? {
          RefreshTakesLive(env, s, step, r);
        }
      }
    }
  }

  lemma QuietedStep(env: Env, s: State, step: Step, userId: Id)
    requires GraphSound(s) && Quieted(s, userId) && !LetsIn(env, s, step, userId)
    ensures Quieted(Apply(env, s, step).0, userId)
  {
    var s' := Apply(env, s, step).0;
    StepContinues(env, s, step);
    forall r ensures !CanStillOpen(s', r, userId) {
      QuietedInFlight(env, s, step, userId, r);
    }
    RowsWereBorn(s);
    forall k ensures k !in Unrevoked(s'.sessions, userId) {
      assert k !in Unrevoked(s.sessions, userId);
      if k in Unrevoked(s'.sessions, userId) && k !in s.sessions {
        InsertsComeFromPending(env, s, step, k);
      }
    }
  }

  lemma {:induction false} QuietedRun(env: Env, s: State, steps: seq<Step>, userId: Id)
    requires GraphSound(s) && Quieted(s, userId) && NobodyLogsIn(env, s, steps, userId)
    ensures Quieted(Run(env, s, steps), userId)
    decreases |steps|
  {
    if steps != [] {
      GraphStep(env, s, steps[0]);
      QuietedStep(env, s, steps[0], userId);
      QuietedRun(env, Apply(env, s, steps[0]).0, steps[1..], userId);
    }
  }

  /** A login past its check, or a rotation past its read, opens its session whatever was revoked. */
  lemma OvertakenRequestOpens(env: Env, s: State, r: Id, userId: Id, newSid: Id, newToken: string)
    returns (commit: Step)
    requires GraphSound(s) && userId in s.users && CanStillOpen(s, r, userId)
    requires newSid !in s.born && newToken !in s.issued
    ensures NobodyLogsIn(env, s, [commit], userId)
    ensures Run(env, s, [commit]) == Apply(env, s, commit).0
    ensures newSid in Unrevoked(Run(env, s, [commit]).sessions, userId)
  {
    commit := if s.pending[r].Opening? then InsertSession(r, newSid, newToken, 0, 0)
              else RotateCommit(r, newSid, newToken, 0, 0);
    assert [commit][1..] == [];
    assert Run(env, Apply(env, s, commit).0, []) == Apply(env, s, commit).0;
    assert NobodyLogsIn(env, Apply(env, s, commit).0, [], userId);
    if s.pending[r].Opening? {
      OvertakenLoginInserts(env, s, commit, userId);
    } else {
      OvertakenRotation(env, s, commit, userId);
    }
  }

  lemma OvertakenRotation(env: Env, s: State, commit: Step, userId: Id)
    requires GraphSound(s) && commit.RotateCommit?
    requires CanStillOpen(s, commit.request, userId) && s.pending[commit.request].Rotating?
    requires CanInsert(s, userId, commit.sid, commit.token)
    ensures commit.sid in Unrevoked(Apply(env, s, commit).0.sessions, userId)
  {
    RowsWereBorn(s);
  }

  lemma LogoutAllLeaves(env: Env, s: State, userId: Id, now: nat)
    ensures var s1 := Apply(env, s, LogoutAll(userId, now)).0;
            && Unrevoked(s1.sessions, userId) == {} && s1.sessions.Keys == s.sessions.Keys
            && s1.pending == s.pending && s1.users == s.users && s1.born == s.born && s1.issued == s.issued
  {
  }

  /** After all sessions of a user have been logged out, the user can have a live session again without
      a login that passes its check later exactly when a login past its check, or a rotation of a
      session that is still there, was in flight. */
  lemma LogoutAllUndoneIff(env: Env, s: State, userId: Id, now: nat, newSid: Id, newToken: string)
    requires GraphSound(s) && userId in s.users
    requires newSid !in s.born && newToken !in s.issued
    ensures var s1 := Apply(env, s, LogoutAll(userId, now)).0;
            (exists later: seq<Step> ::
               NobodyLogsIn(env, s1, later, userId) && HasLive(Run(env, s1, later), userId)) <==>
            (exists r :: CanStillOpen(s, r, userId))
  {
    var s1 := Apply(env, s, LogoutAll(userId, now)).0;
    GraphStep(env, s, LogoutAll(userId, now));
    LogoutAllLeaves(env, s, userId, now);
    if r :| CanStillOpen(s, r, userId) {
      assert CanStillOpen(s1, r, userId);
      var commit := OvertakenRequestOpens(env, s1, r, userId, newSid, newToken);
      assert HasLive(Run(env, s1, [commit]), userId);
    } else {
      forall r ensures !CanStillOpen(s1, r, userId) {
        assert !CanStillOpen(s, r, userId);
      }
      forall later: seq<Step> | NobodyLogsIn(env, s1, later, userId) ensures !HasLive(Run(env, s1, later), userId) {
        QuietedRun(env, s1, later, userId);
      }
    }
  }
}
