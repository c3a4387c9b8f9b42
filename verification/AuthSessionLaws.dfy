/**
 What the session protocol keeps in every interleaving of its steps, and what it keeps only when
 requests run one after the other.
 */
module AuthSessionLaws {
  import opened Wrappers
  import opened AuthSessions

  // ---------------------------------------------------------------- the rotation graph

  /** One session row: its successor is a later session of the same user and it is revoked; its
      parent is an earlier session of the same user, still present; it was inserted after the
      last time its user's sessions were wiped. */
  ghost predicate RowSound(s: State, k: Id)
    requires k in s.sessions
  {
    var row := s.sessions[k];
    && k in s.born && row.userId in s.users
    && (row.replacedById.Some? ==>
          var next := row.replacedById.value;
          && row.revokedAt.Some?
          && next in s.sessions && next in s.born
          && s.sessions[next].userId == row.userId
          && s.born[k].tick < s.born[next].tick)
    && (s.born[k].parent.Some? ==>
          var parent := s.born[k].parent.value;
          && parent in s.sessions && parent in s.born
          && s.sessions[parent].userId == row.userId
          && s.born[parent].tick < s.born[k].tick)
    && (row.userId in s.wipedAt ==> s.wipedAt[row.userId] < s.born[k].tick)
  }

  ghost predicate RowsSound(s: State) {
    forall k :: k in s.sessions ==> RowSound(s, k)
  }

  ghost predicate ClockSound(s: State) {
    && (forall k :: k in s.born ==> s.born[k].tick <= s.tick)
    && (forall u :: u in s.wipedAt ==> s.wipedAt[u] <= s.tick)
  }

  /** A rotation in flight names a session that was inserted, for the same user while it lasts. */
  ghost predicate PendingSound(s: State) {
    forall r :: r in s.pending && s.pending[r].Rotating? ==>
      && s.pending[r].sid in s.born
      && (s.pending[r].sid in s.sessions ==> s.sessions[s.pending[r].sid].userId == s.pending[r].userId)
  }

  ghost predicate GraphSound(s: State) {
    RowsSound(s) && ClockSound(s) && PendingSound(s)
  }

  lemma OnlyRevokesKeepsRows(s: State, s': State)
    requires RowsSound(s) && OnlyRevokes(s, s')
    ensures RowsSound(s')
  {
    forall k | k in s'.sessions ensures RowSound(s', k) {
      assert RowSound(s, k);
    }
  }

  lemma InsertKeepsRows(env: Env, s: State, userId: Id, sid: Id, token: string, salt: nat, now: nat, parent: Option<Id>)
    requires RowsSound(s) && CanInsert(s, userId, sid, token)
    requires forall k :: k in s.born ==> s.born[k].tick < s.tick
    requires userId in s.wipedAt ==> s.wipedAt[userId] < s.tick
    requires parent.Some? ==> parent.value in s.sessions && s.sessions[parent.value].userId == userId
    ensures RowsSound(Insert(env, s, userId, sid, token, salt, now, parent))
  {
    var s' := Insert(env, s, userId, sid, token, salt, now, parent);
    forall k | k in s'.sessions ensures RowSound(s', k) {
      if k != sid {
        assert RowSound(s, k);
      } else if parent.Some? {
        assert RowSound(s, parent.value);
      }
    }
  }

  lemma RotateKeepsRows(env: Env, s: State, userId: Id, oldId: Id, sid: Id, token: string, salt: nat, now: nat)
    requires RowsSound(s)
    requires forall k :: k in s.born ==> s.born[k].tick < s.tick
    requires userId in s.wipedAt ==> s.wipedAt[userId] < s.tick
    requires oldId in s.sessions ==> s.sessions[oldId].userId == userId
    ensures RowsSound(Rotate(env, s, userId, oldId, sid, token, salt, now).0)
  {
    if CanInsert(s, userId, sid, token) && oldId in s.sessions {
      assert RowSound(s, oldId);
      InsertKeepsRows(env, s, userId, sid, token, salt, now, Some(oldId));
      var s1 := Insert(env, s, userId, sid, token, salt, now, Some(oldId));
      var s2 := Rotate(env, s, userId, oldId, sid, token, salt, now).0;
      forall k | k in s2.sessions ensures RowSound(s2, k) {
        assert RowSound(s1, k);
      }
    }
  }

  /** A wipe takes whole families: a kept session keeps its parent and its successor. */
  lemma WipeKeepsRows(s: State, userId: Id, password: string)
    requires RowsSound(s) && userId in s.users
    ensures RowsSound(Wipe(s, userId, password))
  {
    var s' := Wipe(s, userId, password);
    forall k | k in s'.sessions ensures RowSound(s', k) {
      assert RowSound(s, k);
    }
  }

  // One lemma per step that touches session rows, on the state whose clock has already advanced.

  ghost predicate Fresh(s: State) {
    && (forall k :: k in s.born ==> s.born[k].tick < s.tick)
    && (forall u :: u in s.wipedAt ==> s.wipedAt[u] < s.tick)
  }

  lemma DropKeepsRows(s: State, request: Id)
    requires RowsSound(s)
    ensures RowsSound(Drop(s, request))
  {
    OnlyRevokesKeepsRows(s, Drop(s, request));
  }

  lemma OpenSessionKeepsRows(env: Env, s: State, request: Id, sid: Id, token: string, salt: nat, now: nat)
    requires RowsSound(s) && Fresh(s)
    ensures RowsSound(OpenSession(env, s, request, sid, token, salt, now).0)
  {
    DropKeepsRows(s, request);
    if request in s.pending && s.pending[request].Opening? && CanInsert(s, s.pending[request].userId, sid, token) {
      InsertKeepsRows(env, Drop(s, request), s.pending[request].userId, sid, token, salt, now, None);
    }
  }

  lemma CommitRotationKeepsRows(env: Env, s: State, request: Id, sid: Id, token: string, salt: nat, now: nat)
    requires RowsSound(s) && Fresh(s) && PendingSound(s)
    ensures RowsSound(CommitRotation(env, s, request, sid, token, salt, now).0)
  {
    DropKeepsRows(s, request);
    if request in s.pending && s.pending[request].Rotating? {
      var p := s.pending[request];
      RotateKeepsRows(env, Drop(s, request), p.userId, p.sid, sid, token, salt, now);
    }
  }

  lemma CommitResetKeepsRows(env: Env, s: State, request: Id, password: string, salt: nat, now: nat)
    requires RowsSound(s)
    ensures RowsSound(CommitReset(env, s, request, password, salt, now).0)
  {
    DropKeepsRows(s, request);
    if request in s.pending && s.pending[request].Resetting? {
      var p := s.pending[request];
      if p.userId in s.users && p.resetId in s.resetTokens {
        var used := s.resetTokens[p.resetId].(usedAt := Some(now));
        var s1 := Drop(s, request).(resetTokens := s.resetTokens[p.resetId := used]);
        OnlyRevokesKeepsRows(s, s1);
        WipeKeepsRows(s1, p.userId, env.hash(password, salt));
      }
    }
  }

  lemma CommitChangeKeepsRows(env: Env, s: State, request: Id, password: string, salt: nat)
    requires RowsSound(s)
    ensures RowsSound(CommitChange(env, s, request, password, salt).0)
  {
    DropKeepsRows(s, request);
    if request in s.pending && s.pending[request].Changing? && s.pending[request].userId in s.users {
      WipeKeepsRows(Drop(s, request), s.pending[request].userId, env.hash(password, salt));
    }
  }

  /** The steps that insert or delete no session. */
  predicate Quiet(step: Step) {
    !step.InsertSession? && !step.RotateCommit? && !step.ResetCommit? && !step.ChangeCommit?
  }

  lemma QuietStepOnlyRevokes(env: Env, s: State, step: Step)
    requires Quiet(step)
    ensures OnlyRevokes(s, Apply(env, s, step).0)
  {
  }

  /** The reads after which a request can be found at a point of its way. */
  predicate TakesOff(step: Step, p: Pending) {
    match p
    case Opening(_) => step.RegisterUser? || step.LoginRead?
    case Rotating(_, _) => step.RefreshRead?
    case RevokingAll(_) => step.RefreshRead?
    case LoggingOut(_) => step.LogoutRead?
    case Resetting(_, _) => step.ResetRead?
    case Changing(_) => step.ChangeRead?
  }

  lemma PendingComesFrom(env: Env, s: State, step: Step, r: Id)
    requires r in Apply(env, s, step).0.pending
    ensures var s' := Apply(env, s, step).0; Carried(s, s', r) || TakesOff(step, s'.pending[r])
  {
    assert Carried(Tick(s), Apply(env, s, step).0, r) || TakesOff(step, Apply(env, s, step).0.pending[r]);
  }

  lemma RowsStep(env: Env, s: State, step: Step)
    requires GraphSound(s)
    ensures RowsSound(Apply(env, s, step).0)
  {
    var t := Tick(s);
    OnlyRevokesKeepsRows(s, t);
    match step {
      case InsertSession(request, sid, token, salt, now) =>
        OpenSessionKeepsRows(env, t, request, sid, token, salt, now);
      case RotateCommit(request, sid, token, salt, now) =>
        CommitRotationKeepsRows(env, t, request, sid, token, salt, now);
      case ResetCommit(request, password, salt, now) => CommitResetKeepsRows(env, t, request, password, salt, now);
      case ChangeCommit(request, password, salt) => CommitChangeKeepsRows(env, t, request, password, salt);
      case _ =>
        QuietStepOnlyRevokes(env, s, step);
        OnlyRevokesKeepsRows(s, Apply(env, s, step).0);
    }
  }

  lemma StepContinues(env: Env, s: State, step: Step)
    ensures Continues(s, Apply(env, s, step).0)
  {
    if Quiet(step) {
      QuietStepOnlyRevokes(env, s, step);
    }
  }

  /** Only a refresh read lets a rotation take off. */
  lemma RotationsTakeOff(env: Env, s: State, step: Step, r: Id)
    requires var p := Apply(env, s, step).0.pending; r in p && p[r].Rotating?
    ensures var p := Apply(env, s, step).0.pending[r];
            || (r in s.pending && s.pending[r] == p)
            || (step.RefreshRead? && p.sid in s.sessions && s.sessions[p.sid].userId == p.userId)
  {
    PendingComesFrom(env, s, step, r);
  }

  lemma PendingStep(env: Env, s: State, step: Step)
    requires GraphSound(s)
    ensures PendingSound(Apply(env, s, step).0)
  {
    var s' := Apply(env, s, step).0;
    StepContinues(env, s, step);
    forall r | r in s'.pending && s'.pending[r].Rotating?
      ensures s'.pending[r].sid in s'.born
      ensures s'.pending[r].sid in s'.sessions ==> s'.sessions[s'.pending[r].sid].userId == s'.pending[r].userId
    {
      RotationsTakeOff(env, s, step, r);
      if r !in s.pending || s.pending[r] != s'.pending[r] {
        assert RowSound(s, s'.pending[r].sid);
      }
    }
  }

  lemma GraphStep(env: Env, s: State, step: Step)
    requires GraphSound(s)
    ensures GraphSound(Apply(env, s, step).0)
  {
    RowsStep(env, s, step);
    StepContinues(env, s, step);
    PendingStep(env, s, step);
  }

  /** In every interleaving the rotation graph stays sound. */
  lemma {:induction false} GraphRun(env: Env, s: State, steps: seq<Step>)
    requires GraphSound(s)
    ensures GraphSound(Run(env, s, steps))
    decreases |steps|
  {
    if steps != [] {
      GraphStep(env, s, steps[0]);
      GraphRun(env, Apply(env, s, steps[0]).0, steps[1..]);
    }
  }

  /** The rotation-graph invariant of the reachable states: from an empty database, whatever the steps. */
  lemma ReachableGraphSound(env: Env, steps: seq<Step>)
    ensures GraphSound(Run(env, EMPTY, steps))
  {
    GraphRun(env, EMPTY, steps);
  }

  /** What lasts over any number of steps. */
  ghost predicate Extends(s: State, s': State) {
    && s.tick <= s'.tick
    && (forall k :: k in s.born ==> k in s'.born && s'.born[k] == s.born[k])
    && (forall k :: k in s'.born && k !in s.born ==> s'.born[k].tick > s.tick)
    && (forall t :: t in s.issued ==> t in s'.issued && s'.issued[t] == s.issued[t])
    && (forall k :: k in s.born && k in s'.sessions ==>
          && k in s.sessions
          && s'.sessions[k].userId == s.sessions[k].userId
          && s'.sessions[k].expiresAt == s.sessions[k].expiresAt
          && (s.sessions[k].revokedAt.Some? ==> s'.sessions[k].revokedAt.Some?))
    && (forall u :: u in s.wipedAt ==> u in s'.wipedAt && s.wipedAt[u] <= s'.wipedAt[u])
  }

  lemma StepTicks(env: Env, s: State, step: Step)
    ensures Apply(env, s, step).0.tick == s.tick + 1
  {
  }

  lemma ContinuesExtends(s: State, s': State)
    requires ClockSound(s) && Continues(s, s') && s'.tick == s.tick + 1
    ensures ClockSound(s') && Extends(s, s')
  {
  }

  lemma StepExtends(env: Env, s: State, step: Step)
    requires ClockSound(s)
    ensures ClockSound(Apply(env, s, step).0) && Extends(s, Apply(env, s, step).0)
  {
    StepContinues(env, s, step);
    StepTicks(env, s, step);
    ContinuesExtends(s, Apply(env, s, step).0);
  }

  lemma ExtendsTransitive(a: State, b: State, c: State)
    requires Extends(a, b) && Extends(b, c)
    ensures Extends(a, c)
  {
  }

  lemma {:induction false} RunExtends(env: Env, s: State, steps: seq<Step>)
    requires ClockSound(s)
    ensures ClockSound(Run(env, s, steps)) && Extends(s, Run(env, s, steps))
    decreases |steps|
  {
    if steps != [] {
      var s1 := Apply(env, s, steps[0]).0;
      StepExtends(env, s, steps[0]);
      RunExtends(env, s1, steps[1..]);
      ExtendsTransitive(s, s1, Run(env, s1, steps[1..]));
    }
  }

  /** In every interleaving, a revocation is never taken back while the row exists. */
  lemma RevokedStaysRevoked(env: Env, s: State, steps: seq<Step>, k: Id)
    requires GraphSound(s) && k in s.sessions && s.sessions[k].revokedAt.Some?
    ensures var s' := Run(env, s, steps);
            k in s'.sessions ==> s'.sessions[k].revokedAt.Some? && s'.sessions[k].userId == s.sessions[k].userId
  {
    assert RowSound(s, k);
    RunExtends(env, s, steps);
  }

  /** A walk along `replacedById`. */
  ghost predicate Chain(s: State, path: seq<Id>)
    decreases |path|
  {
    path == [] ||
    (&& path[0] in s.sessions
     && (|path| > 1 ==> s.sessions[path[0]].replacedById == Some(path[1]))
     && Chain(s, path[1..]))
  }

  lemma {:induction false} ChainClimbs(s: State, path: seq<Id>)
    requires GraphSound(s) && Chain(s, path)
    ensures forall i :: 0 <= i < |path| ==>
              && path[i] in s.sessions && path[i] in s.born
              && s.sessions[path[i]].userId == s.sessions[path[0]].userId
    ensures forall i, j :: 0 <= i < j < |path| ==> s.born[path[i]].tick < s.born[path[j]].tick
    decreases |path|
  {
    if path != [] {
      var tail := path[1..];
      assert RowSound(s, path[0]);
      ChainClimbs(s, tail);
      assert forall i :: 0 < i < |path| ==> path[i] == tail[i - 1];
    }
  }

  lemma {:induction false} DistinctFit(path: seq<Id>, ids: set<Id>)
    requires forall i :: 0 <= i < |path| ==> path[i] in ids
    requires forall i, j :: 0 <= i < j < |path| ==> path[i] != path[j]
    ensures |path| <= |ids|
    decreases |path|
  {
    if path != [] {
      DistinctFit(path[1..], ids - {path[0]});
    }
  }

  /** Rotation chains are acyclic and finite: they visit later and later sessions of one user, none
      twice, and there are no more of them than rows. */
  lemma ChainsEnd(s: State, path: seq<Id>)
    requires GraphSound(s) && Chain(s, path)
    ensures |path| <= |s.sessions|
    ensures forall i :: 0 <= i < |path| ==>
            path[i] in s.sessions && s.sessions[path[i]].userId == s.sessions[path[0]].userId
    ensures forall i, j :: 0 <= i < j < |path| ==> path[i] != path[j]
  {
    ChainClimbs(s, path);
    DistinctFit(path, s.sessions.Keys);
  }

  // ---------------------------------------------------------------- after a password change

  /** The session a rotation family started from. */
  ghost function Root(s: State, k: Id): (root: Id)
    requires GraphSound(s) && k in s.sessions
    ensures root in s.sessions && root in s.born
    ensures s.sessions[root].userId == s.sessions[k].userId
    ensures s.born[root].parent.None?
    decreases (assert RowSound(s, k); s.born[k].tick)
  {
    assert RowSound(s, k);
    if s.born[k].parent.None? then k
    else
      assert RowSound(s, s.born[k].parent.value);
      Root(s, s.born[k].parent.value)
  }

  predicate IsWipe(s: State, wipe: Step, userId: Id) {
    (wipe.ChangeCommit? || wipe.ResetCommit?) && wipe.request in s.pending
    && (if wipe.ChangeCommit? then s.pending[wipe.request].Changing? && s.pending[wipe.request].userId == userId
        else s.pending[wipe.request].Resetting? && s.pending[wipe.request].userId == userId)
  }

  lemma WipeClears(env: Env, s: State, wipe: Step, userId: Id)
    requires IsWipe(s, wipe, userId) && Apply(env, s, wipe).1 == Ok
    ensures var s1 := Apply(env, s, wipe).0;
            && userId in s1.users && s1.pending == s.pending - {wipe.request}
            && s1.born == s.born && s1.issued == s.issued
            && forall k :: k in s1.sessions ==> s1.sessions[k].userId != userId
  {
  }

  /** Where a user has no session, each one it has later was inserted later. */
  lemma LaterSessionsAreNew(env: Env, s: State, userId: Id, later: seq<Step>)
    requires GraphSound(s) && forall k :: k in s.sessions ==> s.sessions[k].userId != userId
    ensures var s' := Run(env, s, later);
            && GraphSound(s')
            && forall k :: k in s'.sessions && s'.sessions[k].userId == userId ==>
              k in s'.born && s'.born[k].tick > s.tick
  {
    GraphRun(env, s, later);
    RunExtends(env, s, later);
    var s' := Run(env, s, later);
    forall k | k in s'.sessions && s'.sessions[k].userId == userId
      ensures k in s'.born && s'.born[k].tick > s.tick
    {
      assert RowSound(s', k);
    }
  }

  /** In every interleaving: once a password change or reset has committed, the user has no session,
      and every session of the user found later was inserted later and goes back, rotation by
      rotation, to a login or registration insert made later. */
  lemma WipeIsFinal(env: Env, s: State, wipe: Step, userId: Id, later: seq<Step>)
    requires GraphSound(s) && IsWipe(s, wipe, userId) && Apply(env, s, wipe).1 == Ok
    ensures var s1 := Apply(env, s, wipe).0;
            forall k :: k in s1.sessions ==> s1.sessions[k].userId != userId
    ensures GraphSound(Run(env, Apply(env, s, wipe).0, later))
    ensures var s1 := Apply(env, s, wipe).0;
            var s2 := Run(env, s1, later);
            forall k :: k in s2.sessions && s2.sessions[k].userId == userId ==>
              && k in s2.born && s2.born[k].tick > s1.tick
              && s2.born[Root(s2, k)].tick > s1.tick
              && s2.born[Root(s2, k)].parent.None?
  {
    GraphStep(env, s, wipe);
    WipeClears(env, s, wipe, userId);
    LaterSessionsAreNew(env, Apply(env, s, wipe).0, userId, later);
  }

  // ---------------------------------------------------------------- logins overtaken by a wipe

  /** No session of the user, and no login of it past its credential check. */
  ghost predicate Absent(s: State, userId: Id) {
    && userId in s.users
    && (forall k :: k in s.sessions ==> s.sessions[k].userId != userId)
    && (forall r :: r in s.pending ==> s.pending[r] != Opening(userId))
  }

  predicate LetsIn(env: Env, s: State, step: Step, userId: Id) {
    step.LoginRead? && step.found == Some(userId) && Apply(env, s, step).1 == Continue
  }

  /** No login of the user passes its credential check during the run. */
  ghost predicate NobodyLogsIn(env: Env, s: State, steps: seq<Step>, userId: Id)
    decreases |steps|
  {
    steps == [] ||
    (!LetsIn(env, s, steps[0], userId) && NobodyLogsIn(env, Apply(env, s, steps[0]).0, steps[1..], userId))
  }

  ghost predicate HasSession(s: State, userId: Id) {
    exists k :: k in s.sessions && s.sessions[k].userId == userId
  }

  /** Only a good login or a registration lets an insert take off. */
  lemma OpeningsTakeOff(env: Env, s: State, step: Step, r: Id, userId: Id)
    requires var p := Apply(env, s, step).0.pending; r in p && p[r] == Opening(userId)
    ensures || (r in s.pending && s.pending[r] == Opening(userId))
            || LetsIn(env, s, step, userId)
            || userId !in s.users
  {
    PendingComesFrom(env, s, step, r);
  }

  lemma InsertComesFromPending(env: Env, s: State, request: Id, sid: Id, token: string, salt: nat, now: nat, k: Id)
    requires var s' := OpenSession(env, s, request, sid, token, salt, now).0; k in s'.sessions && k !in s.sessions
    ensures request in s.pending
    ensures s.pending[request] == Opening(OpenSession(env, s, request, sid, token, salt, now).0.sessions[k].userId)
  {
  }

  lemma RotationComesFromPending(env: Env, s: State, request: Id, sid: Id, token: string, salt: nat, now: nat, k: Id)
    requires PendingSound(s)
    requires var s' := CommitRotation(env, s, request, sid, token, salt, now).0; k in s'.sessions && k !in s.sessions
    ensures request in s.pending && s.pending[request].Rotating? && s.pending[request].sid in s.sessions
    ensures s.sessions[s.pending[request].sid].userId ==
            CommitRotation(env, s, request, sid, token, salt, now).0.sessions[k].userId
  {
  }

  /** A request in flight that can still open a session of the user: a login past its check, or a
      rotation of a session that is still there. */
  ghost predicate CanStillOpen(s: State, request: Id, userId: Id) {
    && request in s.pending
    && match s.pending[request] {
         case Opening(owner) => owner == userId
         case Rotating(owner, sid) => owner == userId && sid in s.sessions
         case _ => false
       }
  }

  /** A step inserts a session only for an insert or a rotation in flight. */
  lemma InsertsComeFromPending(env: Env, s: State, step: Step, k: Id)
    requires GraphSound(s)
    requires k in Apply(env, s, step).0.sessions && k !in s.sessions
    ensures exists r :: CanStillOpen(s, r, Apply(env, s, step).0.sessions[k].userId)
  {
    if Quiet(step) {
      QuietStepOnlyRevokes(env, s, step);
    } else if step.InsertSession? {
      InsertComesFromPending(env, Tick(s), step.request, step.sid, step.token, step.salt, step.now, k);
      assert CanStillOpen(s, step.request, Apply(env, s, step).0.sessions[k].userId);
    } else if step.RotateCommit? {
      RotationComesFromPending(env, Tick(s), step.request, step.sid, step.token, step.salt, step.now, k);
      assert CanStillOpen(s, step.request, Apply(env, s, step).0.sessions[k].userId);
    }
  }

  lemma AbsentStep(env: Env, s: State, step: Step, userId: Id)
    requires GraphSound(s) && Absent(s, userId) && !LetsIn(env, s, step, userId)
    ensures Absent(Apply(env, s, step).0, userId)
  {
    var s' := Apply(env, s, step).0;
    StepContinues(env, s, step);
    forall r | r in s'.pending ensures s'.pending[r] != Opening(userId) {
      if s'.pending[r] == Opening(userId) {
        OpeningsTakeOff(env, s, step, r, userId);
      }
    }
    forall k | k in s'.sessions ensures s'.sessions[k].userId != userId {
      if k in s.sessions {
        assert RowSound(s, k);
      } else {
        InsertsComeFromPending(env, s, step, k);
      }
    }
  }

  lemma {:induction false} AbsentRun(env: Env, s: State, steps: seq<Step>, userId: Id)
    requires GraphSound(s) && Absent(s, userId) && NobodyLogsIn(env, s, steps, userId)
    ensures Absent(Run(env, s, steps), userId)
    decreases |steps|
  {
    if steps != [] {
      GraphStep(env, s, steps[0]);
      AbsentStep(env, s, steps[0], userId);
      AbsentRun(env, Apply(env, s, steps[0]).0, steps[1..], userId);
    }
  }

  /** A login that has passed its check inserts its session whatever the password has become. */
  lemma OvertakenLoginInserts(env: Env, s: State, insert: Step, userId: Id)
    requires insert.InsertSession? && insert.request in s.pending && s.pending[insert.request] == Opening(userId)
    requires CanInsert(s, userId, insert.sid, insert.token)
    ensures var (s', reply) := Apply(env, s, insert);
            && reply == Tokens(insert.token)
            && insert.sid in s'.sessions && s'.sessions[insert.sid].userId == userId
              && s'.sessions[insert.sid].revokedAt.None?
            && Run(env, s, [insert]) == s'
  {
    assert [insert][1..] == [];
    assert Run(env, Apply(env, s, insert).0, []) == Apply(env, s, insert).0;
  }

  /** After a password change or reset, the user can have a session again without a login that
      passes its check after the commit exactly when a login that had passed it before was still
      waiting to insert its session. (`sid` and `token` are any new uuid and token.) */
  lemma SessionWithoutLoginIff(env: Env, s: State, wipe: Step, userId: Id, sid: Id, token: string)
    requires GraphSound(s) && IsWipe(s, wipe, userId) && Apply(env, s, wipe).1 == Ok
    requires sid !in s.born && token !in s.issued
    ensures var s1 := Apply(env, s, wipe).0;
            (exists later: seq<Step> ::
               NobodyLogsIn(env, s1, later, userId) && HasSession(Run(env, s1, later), userId)) <==>
            (exists r :: r in s.pending && s.pending[r] == Opening(userId))
  {
    var s1 := Apply(env, s, wipe).0;
    GraphStep(env, s, wipe);
    WipeClears(env, s, wipe, userId);
    if r :| r in s.pending && s.pending[r] == Opening(userId) {
      var insert := InsertSession(r, sid, token, 0, 0);
      OvertakenLoginInserts(env, s1, insert, userId);
      assert NobodyLogsIn(env, s1, [insert], userId) by {
        assert [insert][1..] == [];
        assert NobodyLogsIn(env, Apply(env, s1, insert).0, [], userId);
      }
      assert HasSession(Run(env, s1, [insert]), userId);
    } else {
      forall later: seq<Step> | NobodyLogsIn(env, s1, later, userId) ensures !HasSession(Run(env, s1, later), userId) {
        AbsentRun(env, s1, later, userId);
      }
    }
  }

  /** The other half of a password change or reset: the new password is the one that logs in from
      then on, and no other user loses a session or a password. */
  lemma WipeSetsPassword(env: Env, s: State, wipe: Step, userId: Id, login: Id, other: Id)
    requires Sound(env) && IsWipe(s, wipe, userId) && Apply(env, s, wipe).1 == Ok
    ensures userId in s.users
    ensures var s1 := Apply(env, s, wipe).0;
            && Apply(env, s1, LoginRead(login, Some(userId), wipe.password)).1 ==
               (if s.users[userId].isActive then Continue else Unauthorized)
            && (other != userId && other in s.users ==> other in s1.users && s1.users[other] == s.users[other])
            && forall k :: k in s.sessions && s.sessions[k].userId != userId ==>
                 k in s1.sessions && s1.sessions[k] == s.sessions[k]
  {
  }

  /** An in-flight rotation of a deleted session stays dead: its transaction aborts whenever it
      comes, and no session row changes. */
  lemma StaleRotationAborts(env: Env, s: State, later: seq<Step>, commit: Step, sid: Id)
    requires GraphSound(s) && sid in s.born && sid !in s.sessions
    requires var s1 := Run(env, s, later);
             commit.RotateCommit? && commit.request in s1.pending
             && s1.pending[commit.request].Rotating? && s1.pending[commit.request].sid == sid
    ensures var s1 := Run(env, s, later);
            var (s2, reply) := Apply(env, s1, commit);
            reply == Aborted && s2.sessions == s1.sessions && s2.issued == s1.issued
  {
    RunExtends(env, s, later);
  }
}
