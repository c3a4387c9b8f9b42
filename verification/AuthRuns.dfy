/**
 Serial runs of the auth service: requests taken whole, one after the other. Over any such run an
 issued refresh token is accepted at most once, and the number of unrevoked sessions of each user
 is the one its logins, registrations, logouts and password changes add up to.
 */
module AuthRuns {
  import opened Wrappers
  import opened AuthSessions
  import opened AuthSessionLaws
  import opened AuthSerial

  /** A request taken whole, or a single step of anything else. */
  datatype Request =
    | Refreshing(request: Id, token: string, verified: bool, readAt: nat, sid: Id, newToken: string, salt: nat,
                 now: nat)
    | LoggingIn(request: Id, found: Option<Id>, password: string, sid: Id, newToken: string, salt: nat, now: nat)
    | Registering(request: Id, userId: Id, password: string, passwordSalt: nat, sid: Id, newToken: string, salt: nat,
                  now: nat)
    | LoggingOut(request: Id, token: string, verified: bool, now: nat)
    | ResettingPassword(request: Id, found: Option<Id>, readAt: nat, password: string, salt: nat, now: nat)
    | ChangingPassword(request: Id, userId: Id, current: string, password: string, salt: nat)
    | Single(step: Step)

  function Serve(env: Env, s: State, r: Request): (State, Reply) {
    match r
    case Refreshing(request, token, verified, readAt, sid, newToken, salt, now) =>
      SerialRefresh(env, s, request, token, verified, readAt, sid, newToken, salt, now)
    case LoggingIn(request, found, password, sid, newToken, salt, now) =>
      SerialLogin(env, s, request, found, password, sid, newToken, salt, now)
    case Registering(request, userId, password, passwordSalt, sid, newToken, salt, now) =>
      SerialRegister(env, s, request, userId, password, passwordSalt, sid, newToken, salt, now)
    case LoggingOut(request, token, verified, now) => SerialLogout(env, s, request, token, verified, now)
    case ResettingPassword(request, found, readAt, password, salt, now) =>
      SerialReset(env, s, request, found, readAt, password, salt, now)
    case ChangingPassword(request, userId, current, password, salt) =>
      SerialChange(env, s, request, userId, current, password, salt)
    case Single(step) => Apply(env, s, step)
  }

  function ServeAll(env: Env, s: State, rs: seq<Request>): State
    decreases |rs|
  {
    if rs == [] then s else ServeAll(env, Serve(env, s, rs[0]).0, rs[1..])
  }

  /** The steps a request is made of: its read, and then its write. */
  function Read(r: Request): Step {
    match r
    case Refreshing(request, token, verified, readAt, _, _, _, _) => RefreshRead(request, token, verified, readAt)
    case LoggingIn(request, found, password, _, _, _, _) => LoginRead(request, found, password)
    case Registering(request, userId, password, passwordSalt, _, _, _, _) =>
      RegisterUser(request, userId, password, passwordSalt)
    case LoggingOut(request, token, verified, _) => LogoutRead(request, token, verified)
    case ResettingPassword(request, found, readAt, _, _, _) => ResetRead(request, found, readAt)
    case ChangingPassword(request, userId, current, _, _) => ChangeRead(request, userId, current)
    case Single(step) => step
  }

  function Write(r: Request): Step
    requires !r.Single?
  {
    match r
    case Refreshing(request, _, _, _, sid, newToken, salt, now) => RotateCommit(request, sid, newToken, salt, now)
    case LoggingIn(request, _, _, sid, newToken, salt, now) => InsertSession(request, sid, newToken, salt, now)
    case Registering(request, _, _, _, sid, newToken, salt, now) => InsertSession(request, sid, newToken, salt, now)
    case LoggingOut(request, _, _, now) => LogoutCommit(request, now)
    case ResettingPassword(request, _, _, password, salt, now) => ResetCommit(request, password, salt, now)
    case ChangingPassword(request, _, _, password, salt) => ChangeCommit(request, password, salt)
  }

  ghost predicate Kept(env: Env, s: State) {
    GraphSound(s) && TokensMatch(env, s)
  }

  lemma RefreshIsSteps(env: Env, s: State, r: Request)
    requires TokensMatch(env, s) && r.Refreshing?
    ensures var (s1, reply) := Apply(env, s, Read(r));
            Serve(env, s, r) == if reply != Continue then (s1, reply) else Apply(env, s1, Write(r))
  {
    if Apply(env, s, Read(r)).1 == Continue {
      AcceptedRead(env, s, r.request, r.token, r.verified, r.readAt);
    }
  }

  lemma OpeningIsSteps(env: Env, s: State, r: Request)
    requires r.LoggingIn? || r.Registering?
    ensures var (s1, reply) := Apply(env, s, Read(r));
            Serve(env, s, r) == if reply != Continue then (s1, reply) else Apply(env, s1, Write(r))
  {
  }

  lemma LogoutIsSteps(env: Env, s: State, r: Request)
    requires r.LoggingOut?
    ensures var (s1, reply) := Apply(env, s, Read(r));
            Serve(env, s, r) == if reply != Continue then (s1, reply) else Apply(env, s1, Write(r))
  {
  }

  lemma PasswordIsSteps(env: Env, s: State, r: Request)
    requires r.ResettingPassword? || r.ChangingPassword?
    ensures var (s1, reply) := Apply(env, s, Read(r));
            Serve(env, s, r) == if reply != Continue then (s1, reply) else Apply(env, s1, Write(r))
  {
  }

  /** A whole request is its read, followed by its write if the read lets it continue. */
  lemma ServeIsSteps(env: Env, s: State, r: Request)
    requires TokensMatch(env, s) && !r.Single?
    ensures var (s1, reply) := Apply(env, s, Read(r));
            Serve(env, s, r) == if reply != Continue then (s1, reply) else Apply(env, s1, Write(r))
  {
    if r.Refreshing? {
      RefreshIsSteps(env, s, r);
    } else if r.LoggingIn? || r.Registering? {
      OpeningIsSteps(env, s, r);
    } else if r.LoggingOut? {
      LogoutIsSteps(env, s, r);
    } else {
      PasswordIsSteps(env, s, r);
    }
  }

  lemma StepKeeps(env: Env, s: State, step: Step)
    requires Sound(env) && Kept(env, s)
    ensures Kept(env, Apply(env, s, step).0)
  {
    GraphStep(env, s, step);
    MatchStep(env, s, step);
  }

  /** Every request keeps the rotation graph sound and the tokens matched. */
  lemma ServeKeeps(env: Env, s: State, r: Request)
    requires Sound(env) && Kept(env, s)
    ensures Kept(env, Serve(env, s, r).0)
  {
    StepKeeps(env, s, Read(r));
    if !r.Single? {
      ServeIsSteps(env, s, r);
      StepKeeps(env, Apply(env, s, Read(r)).0, Write(r));
    }
  }

  lemma {:induction false} RunKeeps(env: Env, s: State, rs: seq<Request>)
    requires Sound(env) && Kept(env, s)
    ensures Kept(env, ServeAll(env, s, rs))
    decreases |rs|
  {
    if rs != [] {
      ServeKeeps(env, s, rs[0]);
      RunKeeps(env, Serve(env, s, rs[0]).0, rs[1..]);
    }
  }

  // ---------------------------------------------------------------- accepted at most once

  predicate Accepted(env: Env, s: State, r: Request, t: string) {
    r.Refreshing? && r.token == t && Serve(env, s, r).1.Tokens?
  }

  /** How often the run answers a refresh of the token with a new pair. */
  function Accepts(env: Env, s: State, rs: seq<Request>, t: string): nat
    decreases |rs|
  {
    if rs == [] then 0
    else (if Accepted(env, s, rs[0], t) then 1 else 0) + Accepts(env, Serve(env, s, rs[0]).0, rs[1..], t)
  }

  lemma SpentStep(env: Env, s: State, step: Step, t: string)
    requires Kept(env, s) && Spent(s, t)
    ensures Spent(Apply(env, s, step).0, t)
  {
    assert TokenMatches(env, s, t);
    StepExtends(env, s, step);
  }

  lemma ServeKeepsSpent(env: Env, s: State, r: Request, t: string)
    requires Sound(env) && Kept(env, s) && Spent(s, t)
    ensures Spent(Serve(env, s, r).0, t) && !Accepted(env, s, r, t)
  {
    SpentStep(env, s, Read(r), t);
    if !r.Single? {
      ServeIsSteps(env, s, r);
      StepKeeps(env, s, Read(r));
      SpentStep(env, Apply(env, s, Read(r)).0, Write(r), t);
    }
  }

  lemma AcceptedIsSpent(env: Env, s: State, r: Request, t: string)
    requires Sound(env) && Kept(env, s) && Accepted(env, s, r, t)
    ensures !Spent(s, t) && Spent(Serve(env, s, r).0, t)
  {
    RefreshSwapsOne(env, s, r.request, t, r.verified, r.readAt, r.sid, r.newToken, r.salt, r.now, 0);
    if Spent(s, t) {
      ServeKeepsSpent(env, s, r, t);
    }
  }

  /** Refreshes taken whole accept each token at most once, and a spent one never, whatever other
      requests, whole or step by step, come between. */
  lemma {:induction false} AcceptedAtMostOnce(env: Env, s: State, rs: seq<Request>, t: string)
    requires Sound(env) && Kept(env, s)
    ensures Accepts(env, s, rs, t) <= if Spent(s, t) then 0 else 1
    decreases |rs|
  {
    if rs != [] {
      var s1 := Serve(env, s, rs[0]).0;
      ServeKeeps(env, s, rs[0]);
      AcceptedAtMostOnce(env, s1, rs[1..], t);
      if Spent(s, t) {
        ServeKeepsSpent(env, s, rs[0], t);
      } else if Accepted(env, s, rs[0], t) {
        AcceptedIsSpent(env, s, rs[0], t);
      }
    }
  }

  /** From an empty database, in particular. */
  lemma TokensWorkOnce(env: Env, rs: seq<Request>, t: string)
    requires Sound(env)
    ensures Accepts(env, EMPTY, rs, t) <= 1
  {
    AcceptedAtMostOnce(env, EMPTY, rs, t);
  }

  // ---------------------------------------------------------------- counting unrevoked sessions

  /** The run is serial: no request is seen between its two steps. */
  predicate Whole(r: Request) {
    r.Single? ==> r.step.LogoutAll? || r.step.ForgotPassword? || r.step.SetActive?
  }

  ghost predicate AllWhole(rs: seq<Request>) {
    forall i :: 0 <= i < |rs| ==> Whole(rs[i])
  }

  /** The token of a good logout names an unrevoked session of the user. */
  predicate Closes(s: State, r: Request, userId: Id) {
    r.LoggingOut? && r.verified && r.token in s.issued && s.issued[r.token] in Unrevoked(s.sessions, userId)
  }

  /** The user loses all its sessions. */
  predicate Ends(s: State, r: Request, reply: Reply, userId: Id) {
    match r
    case ResettingPassword(_, found, _, _, _, _) =>
      reply == Ok && found.Some? && found.value in s.resetTokens && s.resetTokens[found.value].userId == userId
    case ChangingPassword(_, target, _, _, _) => reply == Ok && target == userId
    case Single(LogoutAll(target, _)) => target == userId
    case _ => false
  }

  predicate Opens(r: Request, reply: Reply, userId: Id) {
    && reply.Tokens?
    && ((r.LoggingIn? && r.found == Some(userId)) || (r.Registering? && r.userId == userId))
  }

  /** The number of unrevoked sessions after one request, told from its kind, its answer and, for a
      logout, whether its token names one of them. */
  function CountAfter(s: State, r: Request, reply: Reply, userId: Id, n: int): int {
    if Ends(s, r, reply, userId) then 0
    else if Opens(r, reply, userId) then n + 1
    else if Closes(s, r, userId) then n - 1
    else n
  }

  function CountAfterAll(env: Env, s: State, rs: seq<Request>, userId: Id, n: int): int
    decreases |rs|
  {
    if rs == [] then n
    else
      var (s1, reply) := Serve(env, s, rs[0]);
      CountAfterAll(env, s1, rs[1..], userId, CountAfter(s, rs[0], reply, userId, n))
  }

  ghost function Live(s: State, userId: Id): nat {
    |Unrevoked(s.sessions, userId)|
  }

  lemma RefreshCount(env: Env, s: State, r: Request, userId: Id)
    requires Sound(env) && Kept(env, s) && r.Refreshing?
    ensures Live(Serve(env, s, r).0, userId) == Live(s, userId)
  {
    if Serve(env, s, r).1.Tokens? {
      RefreshSwapsOne(env, s, r.request, r.token, r.verified, r.readAt, r.sid, r.newToken, r.salt, r.now, userId);
    } else {
      ServeIsSteps(env, s, r);
      var (s1, reply) := Apply(env, s, Read(r));
      if reply == Continue {
        AcceptedRead(env, s, r.request, r.token, r.verified, r.readAt);
      }
      assert Serve(env, s, r).0.sessions == s.sessions;
    }
  }

  lemma LoginCount(env: Env, s: State, r: Request, userId: Id)
    requires Kept(env, s) && r.LoggingIn?
    ensures var (s', reply) := Serve(env, s, r);
            Live(s', userId) == Live(s, userId) + if Opens(r, reply, userId) then 1 else 0
  {
    if Serve(env, s, r).1.Tokens? {
      LoginAddsOne(env, s, r.request, r.found, r.password, r.sid, r.newToken, r.salt, r.now, userId);
    } else {
      assert Serve(env, s, r).0.sessions == s.sessions;
    }
  }

  lemma RegisterCount(env: Env, s: State, r: Request, userId: Id)
    requires Kept(env, s) && r.Registering?
    ensures var (s', reply) := Serve(env, s, r);
            Live(s', userId) == Live(s, userId) + if Opens(r, reply, userId) then 1 else 0
  {
    if Serve(env, s, r).1.Tokens? {
      RegisterAddsOne(env, s, r.request, r.userId, r.password, r.passwordSalt, r.sid, r.newToken, r.salt, r.now,
                      userId);
    } else {
      assert Serve(env, s, r).0.sessions == s.sessions;
    }
  }

  lemma LogoutCount(env: Env, s: State, r: Request, userId: Id)
    requires Kept(env, s) && r.LoggingOut?
    ensures Live(Serve(env, s, r).0, userId) == Live(s, userId) - if Closes(s, r, userId) then 1 else 0
  {
    LogoutRemovesAtMostOne(env, s, r.request, r.token, r.verified, r.now, userId);
  }

  lemma WipeCount(sessions: map<Id, Session>, owner: Id, userId: Id)
    ensures var rest := map k | k in sessions && sessions[k].userId != owner :: sessions[k];
            Unrevoked(rest, userId) == if owner == userId then {} else Unrevoked(sessions, userId)
  {
  }

  lemma ResetCount(env: Env, s: State, r: Request, userId: Id)
    requires r.ResettingPassword?
    ensures var (s', reply) := Serve(env, s, r);
            Live(s', userId) == if Ends(s, r, reply, userId) then 0 else Live(s, userId)
  {
    var (s', reply) := Serve(env, s, r);
    if reply == Ok {
      WipeCount(s.sessions, s.resetTokens[r.found.value].userId, userId);
    } else {
      assert s'.sessions == s.sessions;
    }
  }

  lemma ChangeCount(env: Env, s: State, r: Request, userId: Id)
    requires r.ChangingPassword?
    ensures var (s', reply) := Serve(env, s, r);
            Live(s', userId) == if Ends(s, r, reply, userId) then 0 else Live(s, userId)
  {
    var (s', reply) := Serve(env, s, r);
    if reply == Ok {
      WipeCount(s.sessions, r.userId, userId);
    } else {
      assert s'.sessions == s.sessions;
    }
  }

  lemma LogoutAllCount(env: Env, s: State, target: Id, now: nat, userId: Id)
    ensures var s' := LogoutEverywhere(Tick(s), target, now).0;
            Live(s', userId) == if target == userId then 0 else Live(s, userId)
  {
    var s' := LogoutEverywhere(Tick(s), target, now).0;
    assert Unrevoked(s'.sessions, userId) == if target == userId then {} else Unrevoked(s.sessions, userId);
  }

  lemma SingleCount(env: Env, s: State, r: Request, userId: Id)
    requires r.Single? && Whole(r)
    ensures var (s', reply) := Serve(env, s, r);
            Live(s', userId) == if Ends(s, r, reply, userId) then 0 else Live(s, userId)
  {
    if r.step.LogoutAll? {
      LogoutAllCount(env, s, r.step.userId, r.step.now, userId);
    } else {
      WholeStepKeepsSessions(env, s, r.step);
    }
  }

  lemma WholeStepKeepsSessions(env: Env, s: State, step: Step)
    requires step.ForgotPassword? || step.SetActive?
    ensures Apply(env, s, step).0.sessions == s.sessions
  {
  }

  lemma ServeCounts(env: Env, s: State, r: Request, userId: Id)
    requires Sound(env) && Kept(env, s) && Whole(r)
    ensures var (s', reply) := Serve(env, s, r);
            Live(s', userId) == CountAfter(s, r, reply, userId, Live(s, userId))
  {
    match r
    case Refreshing(_, _, _, _, _, _, _, _) => RefreshCount(env, s, r, userId);
    case LoggingIn(_, _, _, _, _, _, _) => LoginCount(env, s, r, userId);
    case Registering(_, _, _, _, _, _, _, _) => RegisterCount(env, s, r, userId);
    case LoggingOut(_, _, _, _) => LogoutCount(env, s, r, userId);
    case ResettingPassword(_, _, _, _, _, _) => ResetCount(env, s, r, userId);
    case ChangingPassword(_, _, _, _, _) => ChangeCount(env, s, r, userId);
    case Single(_) => SingleCount(env, s, r, userId);
  }

  /** Over any serial run the unrevoked sessions of a user number what its requests and their answers
      add up to: a refresh changes nothing, each login or registration let in adds one, each good
      logout takes one, a logout of all, a reset or a password change takes them all. */
  lemma {:induction false} SessionsAddUp(env: Env, s: State, rs: seq<Request>, userId: Id)
    requires Sound(env) && Kept(env, s) && AllWhole(rs)
    ensures Live(ServeAll(env, s, rs), userId) == CountAfterAll(env, s, rs, userId, Live(s, userId))
    decreases |rs|
  {
    if rs != [] {
      ServeCounts(env, s, rs[0], userId);
      ServeKeeps(env, s, rs[0]);
      SessionsAddUp(env, Serve(env, s, rs[0]).0, rs[1..], userId);
    }
  }
}
