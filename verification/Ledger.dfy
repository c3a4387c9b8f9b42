/**
 The multi-tenant cash ledger: branches, callers and movements, branch scope, and the movement
 service. Ids are uuids with the order the database sorts them in; amounts are integer cents;
 times are milliseconds. An empty string where the source tests truthiness is an absent value.
 */
module LedgerTables {
  import opened Wrappers

  type Id = nat

  const DAY_MS: nat := 86_400_000

  datatype Role = ADMIN | MANAGER | OPERATOR

  /** The caller as the access-token strategy builds it from its user row. */
  datatype Caller = Caller(id: Id, organizationId: Id, role: Role, branchId: Option<Id>)

  datatype Branch = Branch(organizationId: Id, name: string, code: string, isActive: bool)

  datatype Status = PENDING | APPROVED | REJECTED | DELIVERED

  datatype Kind = IN | OUT

  datatype Movement = Movement(
    id: Id, organizationId: Id, branchId: Id,
    amount: int, currency: string, kind: Kind, status: Status, description: Option<string>,
    createdById: Id, approvedById: Option<Id>, deliveredById: Option<Id>,
    createdAt: nat, updatedAt: nat)

  datatype Error =
    | BranchScopeRequired
    | AccessDenied
    | BranchNotFound
    | ResourceNotFound
    | InvalidAmount
    | InvalidDateRange
    | InvalidTransition(from: Status, to: Status)

  /** `assertOrganizationAccess`: a row of another organization is a missing resource. */
  function AssertOrganization(rowOrganizationId: Id, organizationId: Id): Result<(), Error> {
    if rowOrganizationId == organizationId then Success(()) else Failure(ResourceNotFound)
  }
}

/** Which branches a caller may act on. */
module BranchAccess {
  import opened Wrappers
  import opened LedgerTables

  type Branches = map<Id, Branch>

  function FindBranch(branches: Branches, organizationId: Id, id: Id): Result<Option<Branch>, Error> {
    if id !in branches then Success(None)
    else
      var _ :- AssertOrganization(branches[id].organizationId, organizationId);
      Success(Some(branches[id]))
  }

  function AssertBranchExists(branches: Branches, organizationId: Id, id: Id, requireActive: bool): Result<(), Error> {
    var branch :- FindBranch(branches, organizationId, id);
    if branch.None? || (requireActive && !branch.value.isActive) then Failure(BranchNotFound) else Success(())
  }

  function RequireScopedBranch(caller: Caller): Result<Id, Error> {
    if caller.branchId.Some? then Success(caller.branchId.value) else Failure(BranchScopeRequired)
  }

  /** Another branch than the fixed one: 404 if it is not there, 403 if it is. */
  function RefuseOther(branches: Branches, caller: Caller, requested: Id): Result<Id, Error> {
    var _ :- AssertBranchExists(branches, caller.organizationId, requested, false);
    Failure(AccessDenied)
  }

  function ResolveForCreate(branches: Branches, caller: Caller, requested: Option<Id>): Result<Id, Error> {
    if caller.role == OPERATOR then
      var branchId :- RequireScopedBranch(caller);
      var _ :- AssertBranchExists(branches, caller.organizationId, branchId, true);
      Success(branchId)
    else if caller.role == MANAGER && caller.branchId.Some? then
      if requested.Some? && requested != caller.branchId then RefuseOther(branches, caller, requested.value)
      else
        var _ :- AssertBranchExists(branches, caller.organizationId, caller.branchId.value, true);
        Success(caller.branchId.value)
    else if requested.None? then Failure(BranchScopeRequired)
    else
      var _ :- AssertBranchExists(branches, caller.organizationId, requested.value, true);
      Success(requested.value)
  }

  function ResolveForFilter(branches: Branches, caller: Caller, requested: Option<Id>): Result<Option<Id>, Error> {
    if caller.role == OPERATOR then
      var branchId :- RequireScopedBranch(caller);
      if requested.Some? && requested.value != branchId then
        var _ :- RefuseOther(branches, caller, requested.value);
        Success(None)
      else
        var _ :- AssertBranchExists(branches, caller.organizationId, branchId, false);
        Success(Some(branchId))
    else if caller.role == MANAGER && caller.branchId.Some? then
      if requested.Some? && requested != caller.branchId then
        var _ :- RefuseOther(branches, caller, requested.value);
        Success(None)
      else
        var _ :- AssertBranchExists(branches, caller.organizationId, caller.branchId.value, false);
        Success(caller.branchId)
    else if requested.None? then Success(None)
    else
      var _ :- AssertBranchExists(branches, caller.organizationId, requested.value, false);
      Success(requested)
  }

  function AssertAccessible(branches: Branches, caller: Caller, branchId: Id): Result<(), Error> {
    var forced :- ResolveForFilter(branches, caller, None);
    if forced.Some? && forced.value != branchId then Failure(AccessDenied)
    else if forced.None? then AssertBranchExists(branches, caller.organizationId, branchId, false)
    else Success(())
  }

  function AccessibleBranches(branches: Branches, caller: Caller): Result<set<Id>, Error> {
    if caller.role == OPERATOR then
      var branchId :- RequireScopedBranch(caller);
      var _ :- AssertBranchExists(branches, caller.organizationId, branchId, false);
      Success({branchId})
    else if caller.role == MANAGER && caller.branchId.Some? then
      var _ :- AssertBranchExists(branches, caller.organizationId, caller.branchId.value, false);
      Success({caller.branchId.value})
    else
      Success(set k | k in branches && branches[k].organizationId == caller.organizationId && branches[k].isActive)
  }

  /** The callers tied to one branch. */
  predicate Tied(caller: Caller) {
    caller.role == OPERATOR || (caller.role == MANAGER && caller.branchId.Some?)
  }

  /** Access, stated without the resolvers: the branch is the organization's, and the caller's own
      if the caller is tied to one. */
  lemma AccessibleIff(branches: Branches, caller: Caller, branchId: Id)
    ensures AssertAccessible(branches, caller, branchId).Success? <==>
              && branchId in branches
              && branches[branchId].organizationId == caller.organizationId
              && (Tied(caller) ==> caller.branchId == Some(branchId))
  {
  }

  predicate Owned(branches: Branches, caller: Caller, branchId: Id) {
    branchId in branches && branches[branchId].organizationId == caller.organizationId
  }

  /** A new movement goes to an active branch of the organization: for a tied caller its own, and
      only a manager is held to the branch asked for; otherwise the branch asked for. */
  lemma CreateResolvesIff(branches: Branches, caller: Caller, requested: Option<Id>, branchId: Id)
    ensures ResolveForCreate(branches, caller, requested) == Success(branchId) <==>
              && Owned(branches, caller, branchId) && branches[branchId].isActive
              && (if Tied(caller) then caller.branchId == Some(branchId) else requested == Some(branchId))
              && (caller.role != OPERATOR && requested.Some? ==> requested == Some(branchId))
  {
  }

  /** A filter names a branch, active or not, exactly for a tied caller that asked for its own or
      for none, and for any other caller that asked for one. */
  lemma FilterResolvesIff(branches: Branches, caller: Caller, requested: Option<Id>, branchId: Id)
    ensures ResolveForFilter(branches, caller, requested) == Success(Some(branchId)) <==>
              && Owned(branches, caller, branchId)
              && (Tied(caller) ==> caller.branchId == Some(branchId))
              && (requested == Some(branchId) || (requested.None? && Tied(caller)))
  {
  }

  /** The listing resolver gives a caller that is not tied its active branches, and any other its one. */
  lemma AccessibleBranchesAre(branches: Branches, caller: Caller)
    ensures AccessibleBranches(branches, caller).Success? <==>
            (Tied(caller) ==> caller.branchId.Some? && Owned(branches, caller, caller.branchId.value))
    ensures AccessibleBranches(branches, caller).Success? ==>
              forall b :: b in AccessibleBranches(branches, caller).value <==>
                            AssertAccessible(branches, caller, b).Success? && (Tied(caller) || branches[b].isActive)
  {
    if AccessibleBranches(branches, caller).Success? {
      forall b
        ensures b in AccessibleBranches(branches, caller).value <==>
                  AssertAccessible(branches, caller, b).Success? && (Tied(caller) || branches[b].isActive)
      {
        AccessibleIff(branches, caller, b);
      }
    }
  }

  /** Every branch the create, filter or listing resolver hands out is accepted for the same caller. */
  lemma ResolversAgree(branches: Branches, caller: Caller, requested: Option<Id>, branchId: Id)
    requires || ResolveForCreate(branches, caller, requested) == Success(branchId)
             || ResolveForFilter(branches, caller, requested) == Success(Some(branchId))
             || (AccessibleBranches(branches, caller).Success?
                 && branchId in AccessibleBranches(branches, caller).value)
    ensures AssertAccessible(branches, caller, branchId).Success?
  {
    AccessibleIff(branches, caller, branchId);
  }

  /** A filter is unrestricted only for a caller that is not tied and did not ask for a branch. */
  lemma UnrestrictedIff(branches: Branches, caller: Caller, requested: Option<Id>)
    ensures ResolveForFilter(branches, caller, requested) == Success(None) <==> !Tied(caller) && requested.None?
  {
  }

  // ---------------------------------------------------------------- refusals

  predicate Foreign(branches: Branches, caller: Caller, branchId: Id) {
    branchId in branches && branches[branchId].organizationId != caller.organizationId
  }

  /** The branch a request is judged by: the one asked for, or else the caller's own if it is tied. */
  function Judged(caller: Caller, requested: Option<Id>): Option<Id> {
    if Tied(caller) && requested.None? then caller.branchId else requested
  }

  /** Why a create is refused: no branch to judge by; a foreign, missing or inactive one; or, for a
      tied manager, another one than its own. An operator is judged by its own branch only. */
  lemma CreateRefusals(branches: Branches, caller: Caller, requested: Option<Id>)
    ensures var r := ResolveForCreate(branches, caller, requested);
            var judged := if caller.role == OPERATOR then caller.branchId else Judged(caller, requested);
            if judged.None? then r == Failure(BranchScopeRequired)
            else
              var b := judged.value;
              if b !in branches then r == Failure(BranchNotFound)
              else if Foreign(branches, caller, b) then r == Failure(ResourceNotFound)
              else if Tied(caller) && caller.branchId != Some(b) then r == Failure(AccessDenied)
              else if !branches[b].isActive then r == Failure(BranchNotFound)
              else r == Success(b)
  {
  }

  /** Why a filter is refused; an inactive branch is no reason. */
  lemma FilterRefusals(branches: Branches, caller: Caller, requested: Option<Id>)
    ensures var r := ResolveForFilter(branches, caller, requested);
            var judged := Judged(caller, requested);
            if caller.role == OPERATOR && caller.branchId.None? then r == Failure(BranchScopeRequired)
            else if judged.None? then r == Success(None)
            else
              var b := judged.value;
              if b !in branches then r == Failure(BranchNotFound)
              else if Foreign(branches, caller, b) then r == Failure(ResourceNotFound)
              else if Tied(caller) && caller.branchId != Some(b) then r == Failure(AccessDenied)
              else r == Success(Some(b))
  {
  }

  /** Why access to a branch is refused: for a tied caller whatever is wrong with its own branch, then
      that the branch is another one; for any other caller that it is missing or foreign. */
  lemma AccessRefusals(branches: Branches, caller: Caller, branchId: Id)
    ensures var r := AssertAccessible(branches, caller, branchId);
            if caller.role == OPERATOR && caller.branchId.None? then r == Failure(BranchScopeRequired)
            else
              var b := if Tied(caller) then caller.branchId.value else branchId;
              if b !in branches then r == Failure(BranchNotFound)
              else if Foreign(branches, caller, b) then r == Failure(ResourceNotFound)
              else if b != branchId then r == Failure(AccessDenied)
              else r == Success(())
  {
  }
}
