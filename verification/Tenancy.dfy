/**
 Tenant closure: whatever requests overlap, every user's branch, every movement's branch, and every
 creator, approver and deliverer belong to the organization of the row that names them.

 Each read and each write is a step of its own. A request carries over, between its steps, what it
 has read: the caller (as the token strategy read it from its user row), a resolved branch, or
 a checked movement. It keeps what it carries, so a write may come more than once, which only
 adds runs.
 */
module Tenancy {
  import opened Wrappers
  import opened LedgerTables
  import opened BranchAccess
  import BM = BranchesModel
  import CM = CashMovements
  import U = Users

  datatype Pending =
    | Calling(caller: Caller)
    | CreatingUser(organizationId: Id, home: Option<Id>)
    | PatchingUser(organizationId: Id, target: Id, branch: CM.Patch<Id>)
    | CreatingMovement(caller: Caller, branchId: Id, dto: CM.CreateDto)
    | Moving(organizationId: Id, actor: Id, movementId: Id, action: CM.Action)
    | PatchingBranch(target: Id)

  datatype Sys = Sys(users: map<Id, U.User>, branches: Branches, movements: CM.Rows, pending: map<Id, Pending>)

  const EMPTY := Sys(map[], map[], [], map[])

  datatype Step =
    | Register(userId: Id, organizationId: Id, email: string)
    | Authenticate(request: Id, userId: Id, role: Role)
    | CheckCreateUser(request: Id, asked: Option<Id>)
    | InsertUser(request: Id, userId: Id, email: string)
    | CheckPatchUser(request: Id, target: Id, branch: CM.Patch<Id>)
    | PatchUser(request: Id, newActive: Option<bool>)
    | CheckCreateMovement(request: Id, dto: CM.CreateDto)
    | InsertMovement(request: Id, id: Id, now: nat)
    | CheckMove(request: Id, movementId: Id, action: CM.Action)
    | Move(request: Id, now: nat)
    | InsertBranch(request: Id, branchId: Id, name: string, code: string, isActive: bool)
    | CheckPatchBranch(request: Id, branchId: Id)
    | PatchBranch(request: Id, newName: Option<string>, newActive: Option<bool>)

  function Hold(s: Sys, request: Id, p: Pending): Sys {
    s.(pending := s.pending[request := p])
  }

  predicate IsCalling(s: Sys, request: Id) {
    request in s.pending && s.pending[request].Calling?
  }

  // ---------------------------------------------------------------- the steps

  function RegisterStep(s: Sys, userId: Id, organizationId: Id, email: string): (s': Sys)
    ensures Closed(s) ==> Extends(s, s')
  {
    if userId in s.users || U.EmailTaken(s.users, email, None) then s
    else s.(users := s.users[userId := U.User(organizationId, None, email, true)])
  }

  /** The caller context is read from the user row; its role comes from the role links. */
  function AuthenticateStep(s: Sys, request: Id, userId: Id, role: Role): (s': Sys)
    ensures Closed(s) ==> Extends(s, s')
  {
    if userId !in s.users || !s.users[userId].isActive then s
    else Hold(s, request, Calling(Caller(userId, s.users[userId].organizationId, role, s.users[userId].branchId)))
  }

  function CheckCreateUserStep(s: Sys, request: Id, branchId: Option<Id>): (s': Sys)
    ensures Closed(s) ==> Extends(s, s')
  {
    if !IsCalling(s, request) || s.pending[request].caller.role != ADMIN then s
    else
      var organizationId := s.pending[request].caller.organizationId;
      match U.ResolveBranchId(s.branches, branchId, organizationId)
      case Failure(_) => s
      case Success(resolved) => Hold(s, request, CreatingUser(organizationId, resolved))
  }

  function InsertUserStep(s: Sys, request: Id, userId: Id, email: string): (s': Sys)
    ensures Closed(s) ==> Extends(s, s')
  {
    if request !in s.pending || !s.pending[request].CreatingUser? then s
    else if userId in s.users || U.EmailTaken(s.users, email, None) then s
    else
      var p := s.pending[request];
      assert Closed(s) ==> PendingClosed(s, p);
      s.(users := s.users[userId := U.User(p.organizationId, p.home, email, true)])
  }

  function CheckPatchUserStep(s: Sys, request: Id, target: Id, branch: CM.Patch<Id>): (s': Sys)
    ensures Closed(s) ==> Extends(s, s')
  {
    if !IsCalling(s, request) then s
    else
      var caller := s.pending[request].caller;
      var asked := if branch.Put? then Some(branch.value) else None;
      if U.AssertCanAccessUser(s.users, target, caller).Failure?
         || U.ResolveBranchId(s.branches, asked, caller.organizationId).Failure?
      then s
      else Hold(s, request, PatchingUser(caller.organizationId, target, branch))
  }

  /** `user.updateMany({ where: { id, organizationId } })` */
  function PatchUserStep(s: Sys, request: Id, isActive: Option<bool>): (s': Sys)
    ensures Closed(s) ==> Extends(s, s')
  {
    if request !in s.pending || !s.pending[request].PatchingUser? then s
    else
      var p := s.pending[request];
      assert Closed(s) ==> PendingClosed(s, p);
      if p.target !in s.users || s.users[p.target].organizationId != p.organizationId then s
      else
        var u := s.users[p.target];
        s.(users := s.users[p.target := u.(branchId := CM.Patched(p.branch, u.branchId),
                                           isActive := if isActive.Some? then isActive.value else u.isActive)])
  }

  function CheckCreateMovementStep(s: Sys, request: Id, dto: CM.CreateDto): (s': Sys)
    ensures Closed(s) ==> Extends(s, s')
  {
    if !IsCalling(s, request) then s
    else
      var caller := s.pending[request].caller;
      assert Closed(s) ==> PendingClosed(s, s.pending[request]);
      match ResolveForCreate(s.branches, caller, dto.branchId)
      case Failure(_) => s
      case Success(branchId) =>
        if dto.amount.None? || dto.amount.value <= 0 then s
        else Hold(s, request, CreatingMovement(caller, branchId, dto))
  }

  function InsertMovementStep(s: Sys, request: Id, id: Id, now: nat): (s': Sys)
    ensures Closed(s) ==> Extends(s, s')
  {
    if request !in s.pending || !s.pending[request].CreatingMovement? || !CM.FreshId(s.movements, id) then s
    else
      var p := s.pending[request];
      assert Closed(s) ==> PendingClosed(s, p);
      if p.dto.amount.None? then s
      else s.(movements := s.movements + [CM.NewMovement(p.caller, p.branchId, p.dto, p.dto.amount.value, id, now)])
  }

  function CheckMoveStep(s: Sys, request: Id, movementId: Id, action: CM.Action): (s': Sys)
    ensures Closed(s) ==> Extends(s, s')
  {
    if !IsCalling(s, request) then s
    else
      var caller := s.pending[request].caller;
      match CM.CheckTransition(s.movements, s.branches, caller, movementId, action)
      case Failure(_) => s
      case Success(_) =>
        assert Closed(s) ==> PendingClosed(s, Moving(caller.organizationId, caller.id, movementId, action)) by {
          if Closed(s) {
            assert PendingClosed(s, s.pending[request]);
            CheckedMoveIsOwned(s, caller, movementId, action);
          }
        }
        Hold(s, request, Moving(caller.organizationId, caller.id, movementId, action))
  }

  function MoveStep(s: Sys, request: Id, now: nat): Sys {
    if request !in s.pending || !s.pending[request].Moving? then s
    else
      var p := s.pending[request];
      s.(movements := CM.CommitTransition(s.movements, p.actor, p.movementId, p.action, now))
  }

  function InsertBranchStep(s: Sys, request: Id, branchId: Id, name: string, code: string, isActive: bool): (s': Sys)
    ensures Closed(s) ==> Extends(s, s')
  {
    if !IsCalling(s, request) || branchId in s.branches
       || BM.CodeTaken(s.branches, s.pending[request].caller.organizationId, code)
    then s
    else s.(branches := s.branches[branchId := Branch(s.pending[request].caller.organizationId, name, code, isActive)])
  }

  function CheckPatchBranchStep(s: Sys, request: Id, branchId: Id): (s': Sys)
    ensures Closed(s) ==> Extends(s, s')
  {
    if !IsCalling(s, request) then s
    else
      match FindBranch(s.branches, s.pending[request].caller.organizationId, branchId)
      case Failure(_) => s
      case Success(None) => s
      case Success(Some(_)) => Hold(s, request, PatchingBranch(branchId))
  }

  /** `branch.update({ where: { id }, data: { name, isActive } })` */
  function PatchBranchStep(s: Sys, request: Id, name: Option<string>, isActive: Option<bool>): (s': Sys)
    ensures Closed(s) ==> Extends(s, s')
  {
    if request !in s.pending || !s.pending[request].PatchingBranch? || s.pending[request].target !in s.branches then s
    else
      var id := s.pending[request].target;
      s.(branches := s.branches[id := BM.PatchedBranch(s.branches[id], name, isActive)])
  }

  function Apply(s: Sys, step: Step): Sys {
    match step
    case Register(userId, organizationId, email) => RegisterStep(s, userId, organizationId, email)
    case Authenticate(request, userId, role) => AuthenticateStep(s, request, userId, role)
    case CheckCreateUser(request, branchId) => CheckCreateUserStep(s, request, branchId)
    case InsertUser(request, userId, email) => InsertUserStep(s, request, userId, email)
    case CheckPatchUser(request, target, branch) => CheckPatchUserStep(s, request, target, branch)
    case PatchUser(request, isActive) => PatchUserStep(s, request, isActive)
    case CheckCreateMovement(request, dto) => CheckCreateMovementStep(s, request, dto)
    case InsertMovement(request, id, now) => InsertMovementStep(s, request, id, now)
    case CheckMove(request, movementId, action) => CheckMoveStep(s, request, movementId, action)
    case Move(request, now) => MoveStep(s, request, now)
    case InsertBranch(request, branchId, name, code, isActive) =>
      InsertBranchStep(s, request, branchId, name, code, isActive)
    case CheckPatchBranch(request, branchId) => CheckPatchBranchStep(s, request, branchId)
    case PatchBranch(request, name, isActive) => PatchBranchStep(s, request, name, isActive)
  }

  function Run(s: Sys, steps: seq<Step>): Sys
    decreases |steps|
  {
    if steps == [] then s else Run(Apply(s, steps[0]), steps[1..])
  }

  // ---------------------------------------------------------------- closure

  predicate BranchOf(s: Sys, organizationId: Id, branchId: Id) {
    branchId in s.branches && s.branches[branchId].organizationId == organizationId
  }

  predicate MaybeBranchOf(s: Sys, organizationId: Id, branchId: Option<Id>) {
    branchId.Some? ==> BranchOf(s, organizationId, branchId.value)
  }

  predicate UserOf(s: Sys, organizationId: Id, userId: Id) {
    userId in s.users && s.users[userId].organizationId == organizationId
  }

  predicate MaybeUserOf(s: Sys, organizationId: Id, userId: Option<Id>) {
    userId.Some? ==> UserOf(s, organizationId, userId.value)
  }

  predicate MovementClosed(s: Sys, m: Movement) {
    && BranchOf(s, m.organizationId, m.branchId)
    && UserOf(s, m.organizationId, m.createdById)
    && MaybeUserOf(s, m.organizationId, m.approvedById)
    && MaybeUserOf(s, m.organizationId, m.deliveredById)
  }

  /** The movement is there, and it is the organization's. */
  ghost predicate Owned(s: Sys, organizationId: Id, movementId: Id) {
    && !CM.FreshId(s.movements, movementId)
    && forall i :: 0 <= i < |s.movements| && s.movements[i].id == movementId ==>
         s.movements[i].organizationId == organizationId
  }

  /** What a request in flight may rely on when its write comes. */
  ghost predicate PendingClosed(s: Sys, p: Pending) {
    match p
    case Calling(caller) => UserOf(s, caller.organizationId, caller.id)
    case CreatingUser(organizationId, branchId) => MaybeBranchOf(s, organizationId, branchId)
    case PatchingUser(organizationId, _, branch) => branch.Put? ==> BranchOf(s, organizationId, branch.value)
    case CreatingMovement(caller, branchId, _) =>
      UserOf(s, caller.organizationId, caller.id) && BranchOf(s, caller.organizationId, branchId)
    case Moving(organizationId, actor, movementId, _) =>
      UserOf(s, organizationId, actor) && Owned(s, organizationId, movementId)
    case PatchingBranch(_) => true
  }

  ghost predicate Closed(s: Sys) {
    && CM.UniqueIds(s.movements)
    && (forall k :: k in s.users ==> MaybeBranchOf(s, s.users[k].organizationId, s.users[k].branchId))
    && (forall i :: 0 <= i < |s.movements| ==> MovementClosed(s, s.movements[i]))
    && (forall r :: r in s.pending ==> PendingClosed(s, s.pending[r]))
  }

  /** Rows stay, with their organization; what is new or changed is closed already before the step. */
  ghost predicate Extends(s: Sys, s': Sys) {
    && (forall k :: k in s.users ==> k in s'.users && s'.users[k].organizationId == s.users[k].organizationId)
    && (forall k :: k in s.branches ==>
        k in s'.branches && s'.branches[k].organizationId == s.branches[k].organizationId)
    && |s.movements| <= |s'.movements| && CM.UniqueIds(s'.movements)
    && (forall i :: 0 <= i < |s.movements| ==>
          s'.movements[i].id == s.movements[i].id && s'.movements[i].organizationId == s.movements[i].organizationId)
    && (forall k :: k in s'.users ==>
          || (k in s.users && s'.users[k].branchId == s.users[k].branchId)
          || MaybeBranchOf(s, s'.users[k].organizationId, s'.users[k].branchId))
    && (forall i :: 0 <= i < |s'.movements| ==> MovementClosed(s, s'.movements[i]))
    && (forall r :: r in s'.pending ==> PendingClosed(s, s'.pending[r]))
  }

  lemma CheckedMoveIsOwned(s: Sys, caller: Caller, movementId: Id, action: CM.Action)
    requires CM.UniqueIds(s.movements)
    requires CM.CheckTransition(s.movements, s.branches, caller, movementId, action).Success?
    ensures Owned(s, caller.organizationId, movementId)
  {
    CM.FoundRow(s.movements, movementId);
    forall i | 0 <= i < |s.movements| && s.movements[i].id == movementId
      ensures s.movements[i].organizationId == caller.organizationId
    {
      CM.FindRowIs(s.movements, i);
    }
  }

  lemma OwnedStays(s: Sys, s': Sys, organizationId: Id, movementId: Id)
    requires Extends(s, s') && Owned(s, organizationId, movementId)
    ensures Owned(s', organizationId, movementId)
  {
    var i :| 0 <= i < |s.movements| && s.movements[i].id == movementId;
    assert s'.movements[i].id == movementId;
    forall j | 0 <= j < |s'.movements| && s'.movements[j].id == movementId ensures j == i {
    }
  }

  lemma PendingStays(s: Sys, s': Sys, p: Pending)
    requires Extends(s, s') && PendingClosed(s, p)
    ensures PendingClosed(s', p)
  {
    if p.Moving? {
      OwnedStays(s, s', p.organizationId, p.movementId);
    }
  }

  lemma ExtendsCloses(s: Sys, s': Sys)
    requires Closed(s) && Extends(s, s')
    ensures Closed(s')
  {
    forall r | r in s'.pending ensures PendingClosed(s', s'.pending[r]) {
      PendingStays(s, s', s'.pending[r]);
    }
  }

  lemma MoveExtends(s: Sys, request: Id, now: nat)
    requires Closed(s)
    ensures Extends(s, MoveStep(s, request, now))
  {
    var s' := MoveStep(s, request, now);
    if request in s.pending && s.pending[request].Moving? {
      assert PendingClosed(s, s.pending[request]);
      forall i | 0 <= i < |s'.movements|
        ensures MovementClosed(s, s'.movements[i])
        ensures s'.movements[i].id == s.movements[i].id
                && s'.movements[i].organizationId == s.movements[i].organizationId
      {
        assert MovementClosed(s, s.movements[i]);
      }
    }
  }

  lemma StepExtends(s: Sys, step: Step)
    requires Closed(s)
    ensures Extends(s, Apply(s, step))
  {
    if step.Move? {
      MoveExtends(s, step.request, step.now);
    }
  }

  /** Every interleaving keeps tenants closed. */
  lemma {:induction false} RunCloses(s: Sys, steps: seq<Step>)
    requires Closed(s)
    ensures Closed(Run(s, steps))
    decreases |steps|
  {
    if steps != [] {
      StepExtends(s, steps[0]);
      ExtendsCloses(s, Apply(s, steps[0]));
      RunCloses(Apply(s, steps[0]), steps[1..]);
    }
  }

  /** From an empty database, in every interleaving: each user's branch, each movement's branch and
      each movement's actors are of the organization of the row that names them. */
  lemma TenantsStayClosed(steps: seq<Step>)
    ensures var s := Run(EMPTY, steps);
            && (forall k :: k in s.users ==> MaybeBranchOf(s, s.users[k].organizationId, s.users[k].branchId))
            && (forall i :: 0 <= i < |s.movements| ==> MovementClosed(s, s.movements[i]))
  {
    RunCloses(EMPTY, steps);
  }

  // ---------------------------------------------------------------- the steps of one request together

  /** A caller is authenticated exactly as an active user, with the organization and branch of its row. */
  lemma AuthenticateIff(s: Sys, request: Id, userId: Id, role: Role)
    requires request !in s.pending
    ensures var s' := AuthenticateStep(s, request, userId, role);
            if userId in s.users && s.users[userId].isActive then
              var u := s.users[userId];
              s' == Hold(s, request, Calling(Caller(userId, u.organizationId, role, u.branchId)))
            else s' == s
  {
  }

  /** Uninterrupted, the two steps of creating a movement do what the create request does. */
  lemma CreateMovementSteps(s: Sys, request: Id, dto: CM.CreateDto, id: Id, now: nat)
    requires IsCalling(s, request) && CM.FreshId(s.movements, id)
    ensures var s' := InsertMovementStep(CheckCreateMovementStep(s, request, dto), request, id, now);
            && s'.movements == CM.Create(s.movements, s.branches, s.pending[request].caller, dto, id, now).0
            && s'.users == s.users && s'.branches == s.branches
  {
  }

  /** So do the two steps of a transition. */
  lemma MoveSteps(s: Sys, request: Id, id: Id, action: CM.Action, now: nat)
    requires IsCalling(s, request)
    ensures var s' := MoveStep(CheckMoveStep(s, request, id, action), request, now);
            && s'.movements == CM.Transition(s.movements, s.branches, s.pending[request].caller, id, action, now).0
            && s'.users == s.users && s'.branches == s.branches
  {
  }

  /** So do the steps of creating and of updating a branch. */
  lemma BranchSteps(s: Sys, request: Id, id: Id, name: string, code: string, isActive: bool,
                    newName: Option<string>, newActive: Option<bool>)
    requires IsCalling(s, request)
    ensures var organizationId := s.pending[request].caller.organizationId;
            var patched := PatchBranchStep(CheckPatchBranchStep(s, request, id), request, newName, newActive);
            && patched.branches == BM.Update(s.branches, organizationId, id, newName, newActive).0
            && patched.users == s.users && patched.movements == s.movements
            && (id !in s.branches ==>
                  InsertBranchStep(s, request, id, name, code, isActive).branches ==
                  BM.Create(s.branches, organizationId, id, name, code, Some(isActive)).0)
  {
  }

  /** The steps of updating a user do what the row part of the update request does, e-mail aside. */
  lemma PatchUserSteps(s: Sys, request: Id, roles: seq<U.RoleRow>, id: Id, branch: CM.Patch<Id>, isActive: Option<bool>)
    requires IsCalling(s, request)
    ensures var s' := PatchUserStep(CheckPatchUserStep(s, request, id, branch), request, isActive);
            var dto := U.UpdateDto(None, isActive, branch, None);
            var (t', r) := U.Update(U.Tables(s.users, {}), roles, s.branches, id, dto, s.pending[request].caller);
            && s'.users == t'.users
            && s'.branches == s.branches && s'.movements == s.movements
  {
  }

  /** The steps of creating a user insert the row of the create request, whenever that succeeds. */
  lemma CreateUserSteps(s: Sys, request: Id, roles: seq<U.RoleRow>, dto: U.CreateDto, id: Id)
    requires IsCalling(s, request) && id !in s.users
    ensures var s' := InsertUserStep(CheckCreateUserStep(s, request, dto.branchId), request, id, dto.email);
            var (t', r) := U.Create(U.Tables(s.users, {}), roles, s.branches, dto, s.pending[request].caller, id);
            && (r.Success? ==> s'.users == t'.users)
            && (s.pending[request].caller.role != ADMIN ==> s'.users == s.users)
  {
  }

  /** A registration adds one active user without a branch, if its e-mail is free. */
  lemma RegisterOutcome(s: Sys, userId: Id, organizationId: Id, email: string)
    requires userId !in s.users
    ensures var s' := RegisterStep(s, userId, organizationId, email);
            if exists k :: k in s.users && s.users[k].email == email then s' == s
            else s' == s.(users := s.users[userId := U.User(organizationId, None, email, true)])
  {
  }
}
