/** The movement table and the service that creates movements and moves them through the workflow. */
module CashMovements {
  import opened Wrappers
  import opened LedgerTables
  import opened BranchAccess

  type Rows = seq<Movement>

  const DEFAULT_CURRENCY := "ARS"

  /** The body of a create request: an amount that did not parse is missing, an omitted (or blank)
      currency is empty. */
  datatype CreateDto = CreateDto(
    kind: Kind, amount: Option<int>, branchId: Option<Id>, currency: string, description: Option<string>)

  predicate IsValidTransition(from: Status, to: Status) {
    match from
    case PENDING => to == APPROVED || to == REJECTED
    case APPROVED => to == DELIVERED
    case REJECTED => false
    case DELIVERED => false
  }

  /** A three-valued column patch: undefined leaves the column, null clears it, a value sets it. */
  datatype Patch<T> = Leave | Clear | Put(value: T)

  function Patched<T>(p: Patch<T>, column: Option<T>): Option<T> {
    match p
    case Leave => column
    case Clear => None
    case Put(v) => Some(v)
  }

  function FindRow(rows: Rows, id: Id): Option<Movement> {
    if rows == [] then None
    else if rows[0].id == id then Some(rows[0])
    else FindRow(rows[1..], id)
  }

  /** `findById`: a row of another organization is reported missing with the resource error. */
  function FindMovement(rows: Rows, organizationId: Id, id: Id): Result<Option<Movement>, Error> {
    var row := FindRow(rows, id);
    if row.None? then Success(None)
    else
      var _ :- AssertOrganization(row.value.organizationId, organizationId);
      Success(row)
  }

  function UpdatedRow(m: Movement, status: Status, approved: Patch<Id>, delivered: Patch<Id>, now: nat): Movement {
    m.(status := status,
       approvedById := Patched(approved, m.approvedById),
       deliveredById := Patched(delivered, m.deliveredById),
       updatedAt := now)
  }

  /** `updateStatus`: `update where id`, and nothing else. */
  function UpdateStatus(rows: Rows, id: Id, status: Status, approved: Patch<Id>, delivered: Patch<Id>, now: nat):
    (r: Rows)
    ensures |r| == |rows|
    ensures forall i :: 0 <= i < |rows| ==>
              r[i] == if rows[i].id == id then UpdatedRow(rows[i], status, approved, delivered, now) else rows[i]
  {
    if rows == [] then []
    else
      [if rows[0].id == id then UpdatedRow(rows[0], status, approved, delivered, now) else rows[0]]
      + UpdateStatus(rows[1..], id, status, approved, delivered, now)
  }

  datatype Action = Approve | Reject | Deliver

  function Target(a: Action): Status {
    match a
    case Approve => APPROVED
    case Reject => REJECTED
    case Deliver => DELIVERED
  }

  function ApprovedPatch(a: Action, actor: Id): Patch<Id> {
    match a
    case Approve => Put(actor)
    case Reject => Clear
    case Deliver => Leave
  }

  function DeliveredPatch(a: Action, actor: Id): Patch<Id> {
    if a == Deliver then Put(actor) else Leave
  }

  /** The reads and checks of a transition; the row found, or the error thrown. */
  function CheckTransition(rows: Rows, branches: Branches, caller: Caller, id: Id, a: Action): Result<Movement, Error> {
    var found :- FindMovement(rows, caller.organizationId, id);
    if found.None? then Failure(ResourceNotFound)
    else
      var _ :- AssertAccessible(branches, caller, found.value.branchId);
      if !IsValidTransition(found.value.status, Target(a)) then
        Failure(InvalidTransition(found.value.status, Target(a)))
      else Success(found.value)
  }

  function CommitTransition(rows: Rows, actor: Id, id: Id, a: Action, now: nat): Rows {
    UpdateStatus(rows, id, Target(a), ApprovedPatch(a, actor), DeliveredPatch(a, actor), now)
  }

  /** A transition whose read and write nothing separates. */
  function Transition(rows: Rows, branches: Branches, caller: Caller, id: Id, a: Action, now: nat):
    (Rows, Result<Movement, Error>)
  {
    match CheckTransition(rows, branches, caller, id, a)
    case Failure(e) => (rows, Failure(e))
    case Success(m) =>
      (CommitTransition(rows, caller.id, id, a, now),
       Success(UpdatedRow(m, Target(a), ApprovedPatch(a, caller.id), DeliveredPatch(a, caller.id), now)))
  }

  function NewMovement(caller: Caller, branchId: Id, dto: CreateDto, amount: int, id: Id, now: nat): Movement {
    Movement(id, caller.organizationId, branchId, amount,
             if dto.currency == "" then DEFAULT_CURRENCY else dto.currency,
             dto.kind, PENDING, dto.description, caller.id, None, None, now, now)
  }

  /** The checks of a create; the row to insert, or the error thrown. */
  function CheckCreate(branches: Branches, caller: Caller, dto: CreateDto, id: Id, now: nat): Result<Movement, Error> {
    var branchId :- ResolveForCreate(branches, caller, dto.branchId);
    if dto.amount.None? || dto.amount.value <= 0 then Failure(InvalidAmount)
    else Success(NewMovement(caller, branchId, dto, dto.amount.value, id, now))
  }

  function Create(rows: Rows, branches: Branches, caller: Caller, dto: CreateDto, id: Id, now: nat):
    (Rows, Result<Movement, Error>)
  {
    match CheckCreate(branches, caller, dto, id, now)
    case Failure(e) => (rows, Failure(e))
    case Success(m) => (rows + [m], Success(m))
  }

  predicate UniqueIds(rows: Rows) {
    forall i, j :: 0 <= i < j < |rows| ==> rows[i].id != rows[j].id
  }

  predicate FreshId(rows: Rows, id: Id) {
    forall i :: 0 <= i < |rows| ==> rows[i].id != id
  }

  lemma {:induction false} FindRowIs(rows: Rows, i: nat)
    requires UniqueIds(rows) && i < |rows|
    ensures FindRow(rows, rows[i].id) == Some(rows[i])
    decreases |rows|
  {
    if i > 0 {
      assert rows[1..][i - 1] == rows[i];
      FindRowIs(rows[1..], i - 1);
    }
  }

  lemma {:induction false} FoundRow(rows: Rows, id: Id)
    ensures match FindRow(rows, id) {
              case Some(m) => exists i :: 0 <= i < |rows| && rows[i] == m && rows[i].id == id
              case None => FreshId(rows, id)
            }
    decreases |rows|
  {
    if rows != [] && rows[0].id != id {
      FoundRow(rows[1..], id);
      match FindRow(rows[1..], id) {
        case Some(m) =>
          var i :| 0 <= i < |rows[1..]| && rows[1..][i] == m && rows[1..][i].id == id;
          assert rows[i + 1] == m;
        case None =>
          assert forall i :: 0 < i < |rows| ==> rows[i] == rows[1..][i - 1];
      }
    } else if rows != [] {
      assert rows[0].id == id;
    }
  }

  /** The service over its table; the branch table is another service's. */
  class CashMovementsService {
    var movements: Rows

    constructor ()
      ensures movements == []
    {
      movements := [];
    }

    method CreateMovement(branches: Branches, dto: CreateDto, caller: Caller, id: Id, now: nat)
      returns (result: Result<Movement, Error>)
      modifies this
      ensures (movements, result) == Create(old(movements), branches, caller, dto, id, now)
    {
      var branch := ResolveForCreate(branches, caller, dto.branchId);
      if branch.Failure? {
        return Failure(branch.error);
      }
      if dto.amount.None? {
        return Failure(InvalidAmount);
      }
      if dto.amount.value <= 0 {
        return Failure(InvalidAmount);
      }
      var movement := Movement(
        id, caller.organizationId, branch.value, dto.amount.value,
        if |dto.currency| == 0 then DEFAULT_CURRENCY else dto.currency,
        dto.kind, PENDING, dto.description, caller.id, None, None, now, now);
      movements := movements + [movement];
      result := Success(movement);
    }

    method Transit(branches: Branches, id: Id, a: Action, caller: Caller, now: nat)
      returns (result: Result<Movement, Error>)
      modifies this
      ensures (movements, result) == Transition(old(movements), branches, caller, id, a, now)
    {
      var found := FindMovement(movements, caller.organizationId, id);
      if found.Failure? {
        return Failure(found.error);
      }
      if found.value.None? {
        return Failure(ResourceNotFound);
      }
      var movement := found.value.value;
      var access := AssertAccessible(branches, caller, movement.branchId);
      if access.Failure? {
        return Failure(access.error);
      }
      if !IsValidTransition(movement.status, Target(a)) {
        return Failure(InvalidTransition(movement.status, Target(a)));
      }
      var approvedBy := if a == Reject then Clear else if a == Approve then Put(caller.id) else Leave;
      var deliveredBy := if a == Deliver then Put(caller.id) else Leave;
      FoundRow(movements, id);
      movements := UpdateStatus(movements, movement.id, Target(a), approvedBy, deliveredBy, now);
      result := Success(UpdatedRow(movement, Target(a), approvedBy, deliveredBy, now));
    }
  }
}

/** The workflow of a movement, over whole runs. */
module Workflow {
  import opened Wrappers
  import opened LedgerTables
  import opened BranchAccess
  import opened CashMovements

  // ---------------------------------------------------------------- serial runs

  datatype Op =
    | CreateOp(caller: Caller, dto: CreateDto, id: Id, now: nat)
    | TransitionOp(caller: Caller, id: Id, action: Action, now: nat)

  function ApplyOp(rows: Rows, branches: Branches, op: Op): (Rows, bool) {
    match op
    case CreateOp(caller, dto, id, now) =>
      if !FreshId(rows, id) then (rows, false)
      else var (rows', r) := Create(rows, branches, caller, dto, id, now); (rows', r.Success?)
    case TransitionOp(caller, id, action, now) =>
      var (rows', r) := Transition(rows, branches, caller, id, action, now); (rows', r.Success?)
  }

  /** The branch table may change between operations: each operation comes with the one it sees. */
  function RunOps(rows: Rows, ops: seq<(Branches, Op)>): Rows
    decreases |ops|
  {
    if ops == [] then rows else RunOps(ApplyOp(rows, ops[0].0, ops[0].1).0, ops[1..])
  }

  /** Who has signed, given where the movement stands. */
  predicate ActorsMatch(m: Movement) {
    match m.status
    case PENDING => m.approvedById.None? && m.deliveredById.None?
    case REJECTED => m.approvedById.None? && m.deliveredById.None?
    case APPROVED => m.approvedById.Some? && m.deliveredById.None?
    case DELIVERED => m.approvedById.Some? && m.deliveredById.Some?
  }

  ghost predicate WorkflowSound(rows: Rows) {
    UniqueIds(rows) && forall i :: 0 <= i < |rows| ==> ActorsMatch(rows[i]) && rows[i].amount > 0
  }

  /** Transitions a movement can still make. */
  function Rank(s: Status): nat {
    match s
    case PENDING => 2
    case APPROVED => 1
    case REJECTED => 0
    case DELIVERED => 0
  }

  /** What no operation changes in a row. */
  predicate SameOrigin(a: Movement, b: Movement) {
    && a.id == b.id && a.organizationId == b.organizationId && a.branchId == b.branchId
    && a.amount == b.amount && a.kind == b.kind && a.currency == b.currency
    && a.createdById == b.createdById && a.createdAt == b.createdAt && a.description == b.description
  }

  ghost predicate Follows(rows: Rows, rows': Rows) {
    && |rows| <= |rows'|
    && forall i :: 0 <= i < |rows| ==>
         && SameOrigin(rows[i], rows'[i])
         && (rows[i].status == rows'[i].status || Rank(rows[i].status) > Rank(rows'[i].status))
  }

  /** A committed transition moves the row it checked, along an edge of the transition table. */
  lemma CommittedMove(rows: Rows, actor: Id, id: Id, a: Action, now: nat, m: Movement)
    requires WorkflowSound(rows) && FindRow(rows, id) == Some(m) && IsValidTransition(m.status, Target(a))
    ensures var rows' := CommitTransition(rows, actor, id, a, now);
            && WorkflowSound(rows') && Follows(rows, rows')
            && forall i :: 0 <= i < |rows| && rows[i] != rows'[i] ==>
                 && rows[i].id == id
                 && IsValidTransition(rows[i].status, rows'[i].status)
                 && rows'[i].status == Target(a)
  {
    var rows' := CommitTransition(rows, actor, id, a, now);
    forall i | 0 <= i < |rows| && rows[i].id == id ensures rows[i] == m {
      FindRowIs(rows, i);
    }
  }

  /** One whole operation keeps the workflow, changes no origin, and moves at most the named row,
      along an edge of the transition table. */
  lemma OpKeepsWorkflow(rows: Rows, branches: Branches, op: Op)
    requires WorkflowSound(rows)
    ensures var rows' := ApplyOp(rows, branches, op).0;
            && WorkflowSound(rows') && Follows(rows, rows')
            && forall i :: 0 <= i < |rows| && rows[i] != rows'[i] ==>
                 && op.TransitionOp? && rows[i].id == op.id
                 && IsValidTransition(rows[i].status, rows'[i].status)
                 && rows'[i].status == Target(op.action)
  {
    if op.TransitionOp? {
      var check := CheckTransition(rows, branches, op.caller, op.id, op.action);
      if check.Success? {
        CommittedMove(rows, op.caller.id, op.id, op.action, op.now, check.value);
      }
    }
  }

  /** What one transition request does, row by row. It succeeds exactly when the movement is the
      organization's, its branch is accessible and the edge is legal; then the row bears the new
      status and the actor in the right column, and nothing else moves. Otherwise nothing does. */
  lemma TransitionOutcome(rows: Rows, branches: Branches, caller: Caller, i: nat, a: Action, now: nat)
    requires WorkflowSound(rows) && i < |rows|
    ensures var m := rows[i];
            var (rows', r) := Transition(rows, branches, caller, m.id, a, now);
            && |rows'| == |rows|
            && (forall j :: 0 <= j < |rows| && j != i ==> rows'[j] == rows[j])
            && (r.Success? <==>
                  && m.organizationId == caller.organizationId
                  && AssertAccessible(branches, caller, m.branchId).Success?
                  && (if a == Deliver then m.status == APPROVED else m.status == PENDING))
            && (r.Failure? ==> rows' == rows)
            && (m.organizationId != caller.organizationId ==> r == Failure(ResourceNotFound))
            && (m.organizationId == caller.organizationId && AssertAccessible(branches, caller, m.branchId).Failure? ==>
                  r == Failure(AssertAccessible(branches, caller, m.branchId).error))
            && (r.Failure? && m.organizationId == caller.organizationId
                && AssertAccessible(branches, caller, m.branchId).Success? ==>
                  r.error.InvalidTransition? && r.error.from == m.status
                  && r.error.to ==
                    match a { case Approve => APPROVED case Reject => REJECTED case Deliver => DELIVERED })
            && (r.Success? ==>
                  && rows'[i] == r.value && SameOrigin(m, r.value) && r.value.updatedAt == now
                  && (a == Approve ==>
                        r.value.status == APPROVED && r.value.approvedById == Some(caller.id)
                          && r.value.deliveredById == None)
                  && (a == Deliver ==>
                        && r.value.status == DELIVERED && r.value.deliveredById == Some(caller.id)
                        && r.value.approvedById == m.approvedById && m.approvedById.Some?)
                  && (a == Reject ==>
                        r.value.status == REJECTED && r.value.approvedById == None && r.value.deliveredById == None))
  {
    FindRowIs(rows, i);
  }

  /** A movement that is not there is answered like a foreign one. */
  lemma TransitionOfNothing(rows: Rows, branches: Branches, caller: Caller, id: Id, a: Action, now: nat)
    requires FreshId(rows, id)
    ensures Transition(rows, branches, caller, id, a, now) == (rows, Failure(ResourceNotFound))
  {
    FoundRow(rows, id);
  }

  /** What one create request does: it succeeds exactly when a branch resolves and the amount is
      positive, and then appends a PENDING, unsigned movement of the caller in that branch. */
  lemma CreateOutcome(rows: Rows, branches: Branches, caller: Caller, dto: CreateDto, id: Id, now: nat)
    ensures var (rows', r) := Create(rows, branches, caller, dto, id, now);
            && (r.Success? <==>
                  && ResolveForCreate(branches, caller, dto.branchId).Success?
                  && dto.amount.Some? && dto.amount.value > 0)
            && (r.Failure? ==> rows' == rows)
            && (r.Failure? ==>
                  r.error == match ResolveForCreate(branches, caller, dto.branchId) {
                               case Failure(e) => e
                               case Success(_) => InvalidAmount
                             })
            && (r.Success? ==>
                  && ResolveForCreate(branches, caller, dto.branchId) == Success(r.value.branchId)
                  && r.value.createdAt == now && r.value.updatedAt == now
                  && rows' == rows + [r.value] && r.value.id == id
                  && AssertAccessible(branches, caller, r.value.branchId).Success?
                  && branches[r.value.branchId].isActive
                  && r.value.organizationId == caller.organizationId == branches[r.value.branchId].organizationId
                  && r.value.createdById == caller.id
                  && r.value.status == PENDING && r.value.approvedById == None && r.value.deliveredById == None
                  && Some(r.value.amount) == dto.amount && r.value.kind == dto.kind
                  && r.value.description == dto.description
                  && (dto.currency == "" ==> r.value.currency == "ARS")
                  && (dto.currency != "" ==> r.value.currency == dto.currency))
  {
    var branch := ResolveForCreate(branches, caller, dto.branchId);
    if branch.Success? {
      ResolversAgree(branches, caller, dto.branchId, branch.value);
      CreateResolvesIff(branches, caller, dto.branchId, branch.value);
    }
  }

  lemma {:induction false} RunKeepsWorkflow(rows: Rows, ops: seq<(Branches, Op)>)
    requires WorkflowSound(rows)
    ensures WorkflowSound(RunOps(rows, ops)) && Follows(rows, RunOps(rows, ops))
    decreases |ops|
  {
    if ops != [] {
      OpKeepsWorkflow(rows, ops[0].0, ops[0].1);
      RunKeepsWorkflow(ApplyOp(rows, ops[0].0, ops[0].1).0, ops[1..]);
    }
  }

  /** How often a run succeeds in moving one movement. */
  function Moves(rows: Rows, ops: seq<(Branches, Op)>, id: Id): nat
    decreases |ops|
  {
    if ops == [] then 0
    else
      var (rows', ok) := ApplyOp(rows, ops[0].0, ops[0].1);
      (if ok && ops[0].1.TransitionOp? && ops[0].1.id == id then 1 else 0) + Moves(rows', ops[1..], id)
  }

  /** Each success uses up rank: a movement makes at most two moves in any run, and fewer once it
      has started. */
  lemma {:induction false} MovesBound(rows: Rows, ops: seq<(Branches, Op)>, i: nat)
    requires WorkflowSound(rows) && i < |rows|
    ensures i < |RunOps(rows, ops)|
    ensures Moves(rows, ops, rows[i].id) + Rank(RunOps(rows, ops)[i].status) <= Rank(rows[i].status) <= 2
    decreases |ops|
  {
    if ops != [] {
      var op := ops[0].1;
      var rows' := ApplyOp(rows, ops[0].0, op).0;
      OpKeepsWorkflow(rows, ops[0].0, op);
      MovesBound(rows', ops[1..], i);
      if op.TransitionOp? && op.id == rows[i].id && ApplyOp(rows, ops[0].0, op).1 {
        FindRowIs(rows, i);
        assert IsValidTransition(rows[i].status, Target(op.action));
        assert rows'[i].status == Target(op.action);
      }
    }
  }

  // ---------------------------------------------------------------- every interleaving

  /** A transition between its read and its write, with the status it read. */
  datatype InFlight = InFlight(id: Id, action: Action, actor: Id, seen: Status)

  datatype Sys = Sys(rows: Rows, pending: map<Id, InFlight>)

  datatype Step =
    | Insert(branches: Branches, caller: Caller, dto: CreateDto, id: Id, now: nat)
    | Read(request: Id, branches: Branches, caller: Caller, id: Id, action: Action)
    | Write(request: Id, now: nat)

  function StepSys(s: Sys, step: Step): Sys {
    match step
    case Insert(branches, caller, dto, id, now) =>
      if FreshId(s.rows, id) then s.(rows := Create(s.rows, branches, caller, dto, id, now).0) else s
    case Read(request, branches, caller, id, action) =>
      (match CheckTransition(s.rows, branches, caller, id, action)
       case Failure(_) => s
       case Success(m) => s.(pending := s.pending[request := InFlight(id, action, caller.id, m.status)]))
    case Write(request, now) =>
      if request !in s.pending then s
      else
        var p := s.pending[request];
        Sys(CommitTransition(s.rows, p.actor, p.id, p.action, now), s.pending - {request})
  }

  function RunSys(s: Sys, steps: seq<Step>): Sys
    decreases |steps|
  {
    if steps == [] then s else RunSys(StepSys(s, steps[0]), steps[1..])
  }

  /** The write finds the row in the status its request read. */
  predicate Undisturbed(s: Sys, step: Step) {
    step.Write? && step.request in s.pending ==>
      var row := FindRow(s.rows, s.pending[step.request].id);
      row.Some? ==> row.value.status == s.pending[step.request].seen
  }

  ghost predicate AllUndisturbed(s: Sys, steps: seq<Step>)
    decreases |steps|
  {
    steps == [] || (Undisturbed(s, steps[0]) && AllUndisturbed(StepSys(s, steps[0]), steps[1..]))
  }

  /** Every request in flight may go where it is going from the status it read. */
  ghost predicate PendingLegal(s: Sys) {
    forall r :: r in s.pending ==> IsValidTransition(s.pending[r].seen, Target(s.pending[r].action))
  }

  /** Origins stay, and nothing comes back to PENDING. */
  ghost predicate NeverBack(rows: Rows, rows': Rows) {
    && |rows| <= |rows'|
    && forall i :: 0 <= i < |rows| ==>
         SameOrigin(rows[i], rows'[i]) && (rows'[i].status == PENDING ==> rows[i].status == PENDING)
  }

  /** In every interleaving of reads and writes: no movement returns to PENDING, and organization,
      branch, amount, type, currency and creator never change. */
  lemma {:induction false} NeverBackToPending(s: Sys, steps: seq<Step>)
    ensures NeverBack(s.rows, RunSys(s, steps).rows)
    decreases |steps|
  {
    if steps != [] {
      NeverBackToPending(StepSys(s, steps[0]), steps[1..]);
    }
  }

  /** A write takes its row along an edge of the transition table exactly when the row still has the
      status the request read: each target has a single source. */
  lemma WriteIsEdgeIff(s: Sys, request: Id, now: nat, i: nat)
    requires UniqueIds(s.rows) && PendingLegal(s)
    requires request in s.pending && i < |s.rows| && s.rows[i].id == s.pending[request].id
    ensures IsValidTransition(s.rows[i].status, StepSys(s, Write(request, now)).rows[i].status) <==>
            Undisturbed(s, Write(request, now))
  {
    FindRowIs(s.rows, i);
    assert PendingLegal(s);
  }

  lemma UndisturbedRow(s: Sys, step: Step, i: nat)
    requires WorkflowSound(s.rows) && PendingLegal(s) && Undisturbed(s, step)
    requires step.Write? && step.request in s.pending && i < |s.rows|
    ensures var rows' := StepSys(s, step).rows;
            && |rows'| == |s.rows| && SameOrigin(s.rows[i], rows'[i]) && ActorsMatch(rows'[i])
            && (s.rows[i].status == rows'[i].status || Rank(s.rows[i].status) > Rank(rows'[i].status))
  {
    if s.rows[i].id == s.pending[step.request].id {
      WriteIsEdgeIff(s, step.request, step.now, i);
    }
  }

  lemma UndisturbedStep(s: Sys, step: Step)
    requires WorkflowSound(s.rows) && PendingLegal(s) && Undisturbed(s, step)
    ensures WorkflowSound(StepSys(s, step).rows) && Follows(s.rows, StepSys(s, step).rows)
  {
    if step.Write? && step.request in s.pending {
      var rows' := StepSys(s, step).rows;
      forall i | 0 <= i < |s.rows|
        ensures |rows'| == |s.rows| && SameOrigin(s.rows[i], rows'[i]) && ActorsMatch(rows'[i])
        ensures s.rows[i].status == rows'[i].status || Rank(s.rows[i].status) > Rank(rows'[i].status)
      {
        UndisturbedRow(s, step, i);
      }
    }
  }

  /** A run whose writes are all undisturbed keeps the whole workflow, however requests overlap. */
  lemma {:induction false} UndisturbedRunKeepsWorkflow(s: Sys, steps: seq<Step>)
    requires WorkflowSound(s.rows) && PendingLegal(s) && AllUndisturbed(s, steps)
    ensures WorkflowSound(RunSys(s, steps).rows) && Follows(s.rows, RunSys(s, steps).rows)
    decreases |steps|
  {
    if steps != [] {
      UndisturbedStep(s, steps[0]);
      UndisturbedRunKeepsWorkflow(StepSys(s, steps[0]), steps[1..]);
    }
  }

  /** Every row a write of the run addresses moves along an edge of the transition table. */
  ghost predicate EveryWriteAnEdge(s: Sys, steps: seq<Step>)
    decreases |steps|
  {
    steps == [] || (WritesAnEdge(s, steps[0]) && EveryWriteAnEdge(StepSys(s, steps[0]), steps[1..]))
  }

  ghost predicate WritesAnEdge(s: Sys, step: Step) {
    step.Write? && step.request in s.pending ==>
      forall i :: 0 <= i < |s.rows| && s.rows[i].id == s.pending[step.request].id ==>
        IsValidTransition(s.rows[i].status, StepSys(s, step).rows[i].status)
  }

  lemma WritesAnEdgeIff(s: Sys, step: Step)
    requires UniqueIds(s.rows) && PendingLegal(s)
    ensures WritesAnEdge(s, step) <==> Undisturbed(s, step)
  {
    if step.Write? && step.request in s.pending {
      FoundRow(s.rows, s.pending[step.request].id);
      forall i | 0 <= i < |s.rows| && s.rows[i].id == s.pending[step.request].id
        ensures IsValidTransition(s.rows[i].status, StepSys(s, step).rows[i].status) <==> Undisturbed(s, step)
      {
        WriteIsEdgeIff(s, step.request, step.now, i);
      }
    }
  }

  /** The transition table is followed throughout a run exactly when no write of it is disturbed. */
  lemma {:induction false} RunFollowsTableIff(s: Sys, steps: seq<Step>)
    requires UniqueIds(s.rows) && PendingLegal(s)
    ensures EveryWriteAnEdge(s, steps) <==> AllUndisturbed(s, steps)
    decreases |steps|
  {
    if steps != [] {
      WritesAnEdgeIff(s, steps[0]);
      RunFollowsTableIff(StepSys(s, steps[0]), steps[1..]);
    }
  }

  // ---------------------------------------------------------------- status and actors

  /** What a write may land on without a status and its actors coming apart: a delivery on a signed
      movement, any other write on an undelivered one. Less than following the table. */
  predicate LandsWell(a: Action, status: Status) {
    if a == Deliver then status == APPROVED || status == DELIVERED else status != DELIVERED
  }

  /** Whether the row a write is about to address is one it may land on. */
  predicate Harmless(s: Sys, step: Step) {
    step.Write? && step.request in s.pending ==>
      var p := s.pending[step.request];
      var row := FindRow(s.rows, p.id);
      row.Some? ==> LandsWell(p.action, row.value.status)
  }

  /** One write of a request in flight keeps every status matched with its actors exactly when its
      row, by then, is one it may land on. */
  lemma WriteKeepsActorsIff(s: Sys, request: Id, now: nat, i: nat)
    requires WorkflowSound(s.rows) && request in s.pending
    requires i < |s.rows| && s.rows[i].id == s.pending[request].id
    ensures WorkflowSound(StepSys(s, Write(request, now)).rows) <==>
            LandsWell(s.pending[request].action, s.rows[i].status)
  {
    var p := s.pending[request];
    var rows' := StepSys(s, Write(request, now)).rows;
    assert rows'[i] ==
      UpdatedRow(s.rows[i], Target(p.action), ApprovedPatch(p.action, p.actor), DeliveredPatch(p.action, p.actor), now);
    assert forall j :: 0 <= j < |s.rows| && j != i ==> rows'[j] == s.rows[j];
    assert UniqueIds(rows');
  }

  lemma HarmlessIff(s: Sys, step: Step)
    requires WorkflowSound(s.rows)
    ensures WorkflowSound(StepSys(s, step).rows) <==> Harmless(s, step)
  {
    if step.Write? && step.request in s.pending {
      var id := s.pending[step.request].id;
      FoundRow(s.rows, id);
      if FindRow(s.rows, id).Some? {
        var i :| 0 <= i < |s.rows| && s.rows[i].id == id;
        FindRowIs(s.rows, i);
        WriteKeepsActorsIff(s, step.request, step.now, i);
      } else {
        assert StepSys(s, step).rows == s.rows;
      }
    }
  }

  /** Status and actors match at every moment of the run. */
  ghost predicate AlwaysSound(s: Sys, steps: seq<Step>)
    decreases |steps|
  {
    WorkflowSound(s.rows) && (steps == [] || AlwaysSound(StepSys(s, steps[0]), steps[1..]))
  }

  ghost predicate AllHarmless(s: Sys, steps: seq<Step>)
    decreases |steps|
  {
    steps == [] || (Harmless(s, steps[0]) && AllHarmless(StepSys(s, steps[0]), steps[1..]))
  }

  /** In every interleaving, status and actors match at every moment exactly when each write lands
      on a row it may land on. */
  lemma {:induction false} AlwaysSoundIff(s: Sys, steps: seq<Step>)
    requires WorkflowSound(s.rows)
    ensures AlwaysSound(s, steps) <==> AllHarmless(s, steps)
    decreases |steps|
  {
    if steps != [] {
      HarmlessIff(s, steps[0]);
      if Harmless(s, steps[0]) {
        AlwaysSoundIff(StepSys(s, steps[0]), steps[1..]);
      }
    }
  }

  /** Otherwise it fails: a rejection that read PENDING and writes after the delivery leaves a
      rejected movement with a deliverer. */
  lemma LateRejectionBreaksWorkflow(branches: Branches, caller: Caller, m: Movement, now: nat)
    requires m.status == PENDING && ActorsMatch(m) && m.amount > 0
    requires m.organizationId == caller.organizationId && AssertAccessible(branches, caller, m.branchId).Success?
    ensures var s := RunSys(Sys([m], map[]), [
              Read(1, branches, caller, m.id, Reject), Read(2, branches, caller, m.id, Approve), Write(2, now),
              Read(3, branches, caller, m.id, Deliver), Write(3, now), Write(1, now)]);
            |s.rows| == 1 && s.rows[0].status == REJECTED && s.rows[0].deliveredById == Some(caller.id)
            && !WorkflowSound(s.rows)
  {
    var s0 := Sys([m], map[]);
    var steps := [
      Read(1, branches, caller, m.id, Reject), Read(2, branches, caller, m.id, Approve), Write(2, now),
      Read(3, branches, caller, m.id, Deliver), Write(3, now), Write(1, now)];
    var s1 := StepSys(s0, steps[0]);
    var s2 := StepSys(s1, steps[1]);
    var s3 := StepSys(s2, steps[2]);
    var approved := UpdatedRow(m, APPROVED, Put(caller.id), Leave, now);
    assert s3.rows == [approved] && s3.pending == map[1 := InFlight(m.id, Reject, caller.id, PENDING)];
    LateWrite(branches, caller, approved, s3, now);
    assert steps[1..][1..] == steps[2..] && steps[2..][1..] == steps[3..];
    assert steps[3..] == [steps[3], steps[4], steps[5]];
    RunThree(s3, steps[3], steps[4], steps[5]);
    assert RunSys(s0, steps) == RunSys(s1, steps[1..]) == RunSys(s2, steps[2..]) == RunSys(s3, steps[3..]);
  }

  /** An approved movement is delivered, and then a rejection still in flight writes. */
  lemma LateWrite(branches: Branches, caller: Caller, m: Movement, s: Sys, now: nat)
    requires m.organizationId == caller.organizationId && AssertAccessible(branches, caller, m.branchId).Success?
    requires m.status == APPROVED
    requires s.rows == [m] && s.pending == map[1 := InFlight(m.id, Reject, caller.id, PENDING)]
    ensures var s' := StepSys(StepSys(StepSys(s, Read(3, branches, caller, m.id, Deliver)), Write(3, now)),
                              Write(1, now));
            s'.rows == [m.(status := REJECTED, approvedById := None, deliveredById := Some(caller.id),
                           updatedAt := now)]
  {
    var s1 := StepSys(s, Read(3, branches, caller, m.id, Deliver));
    var s2 := StepSys(s1, Write(3, now));
    assert s2.rows == [UpdatedRow(m, DELIVERED, Leave, Put(caller.id), now)];
    var s3 := StepSys(s2, Write(1, now));
    assert s3.rows == [UpdatedRow(s2.rows[0], REJECTED, Clear, Leave, now)];
  }

  lemma RunThree(s: Sys, x: Step, y: Step, z: Step)
    ensures RunSys(s, [x, y, z]) == StepSys(StepSys(StepSys(s, x), y), z)
  {
    assert [x, y, z][1..] == [y, z] && [y, z][1..] == [z] && [z][1..] == [];
    assert RunSys(StepSys(StepSys(s, x), y), [z]) == StepSys(StepSys(StepSys(s, x), y), z);
  }
}
