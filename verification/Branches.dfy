/**
 The branch service over its table. Names and codes are the strings left after trimming and, for
 codes, upper-casing.
 */
module BranchesModel {
  import opened Wrappers
  import opened LedgerTables
  import opened BranchAccess

  datatype BranchError = NoSuchBranch | ForeignBranch | CodeAlreadyExists

  /** `@@unique([organizationId, code])` */
  predicate CodeTaken(branches: Branches, organizationId: Id, code: string) {
    exists k :: k in branches && branches[k].organizationId == organizationId && branches[k].code == code
  }

  function FindOne(branches: Branches, organizationId: Id, id: Id): Result<Branch, BranchError> {
    match FindBranch(branches, organizationId, id)
    case Failure(_) => Failure(ForeignBranch)
    case Success(None) => Failure(NoSuchBranch)
    case Success(Some(b)) => Success(b)
  }

  /** `branch.create`; the table is unchanged if the code is taken. */
  function Create(branches: Branches, organizationId: Id, id: Id, name: string, code: string, isActive: Option<bool>):
    (Branches, Result<Branch, BranchError>)
  {
    if CodeTaken(branches, organizationId, code) then (branches, Failure(CodeAlreadyExists))
    else
      var b := Branch(organizationId, name, code, if isActive.Some? then isActive.value else true);
      (branches[id := b], Success(b))
  }

  function PatchedBranch(b: Branch, name: Option<string>, isActive: Option<bool>): Branch {
    b.(name := if name.Some? then name.value else b.name,
       isActive := if isActive.Some? then isActive.value else b.isActive)
  }

  function Update(branches: Branches, organizationId: Id, id: Id, name: Option<string>, isActive: Option<bool>):
    (Branches, Result<Branch, BranchError>)
  {
    match FindOne(branches, organizationId, id)
    case Failure(e) => (branches, Failure(e))
    case Success(b) => (branches[id := PatchedBranch(b, name, isActive)], Success(PatchedBranch(b, name, isActive)))
  }

  class BranchesService {
    var branches: Branches

    constructor ()
      ensures branches == map[]
    {
      branches := map[];
    }

    method CreateBranch(organizationId: Id, id: Id, name: string, code: string, isActive: Option<bool>)
      returns (result: Result<Branch, BranchError>)
      requires id !in branches
      modifies this
      ensures (branches, result) == Create(old(branches), organizationId, id, name, code, isActive)
    {
      if CodeTaken(branches, organizationId, code) {
        return Failure(CodeAlreadyExists);
      }
      var active := true;
      if isActive.Some? {
        active := isActive.value;
      }
      branches := branches[id := Branch(organizationId, name, code, active)];
      result := Success(branches[id]);
    }

    method UpdateBranch(organizationId: Id, id: Id, name: Option<string>, isActive: Option<bool>)
      returns (result: Result<Branch, BranchError>)
      modifies this
      ensures (branches, result) == Update(old(branches), organizationId, id, name, isActive)
    {
      var branch :- FindOne(branches, organizationId, id);
      if name.Some? {
        branch := branch.(name := name.value);
      }
      if isActive.Some? {
        branch := branch.(isActive := isActive.value);
      }
      branches := branches[id := branch];
      result := Success(branch);
    }
  }

  // ---------------------------------------------------------------- runs

  datatype Op =
    | CreateOp(organizationId: Id, id: Id, name: string, code: string, newActive: Option<bool>)
    | UpdateOp(organizationId: Id, id: Id, newName: Option<string>, newActive: Option<bool>)

  function Apply(branches: Branches, op: Op): Branches {
    match op
    case CreateOp(organizationId, id, name, code, isActive) =>
      if id in branches then branches else Create(branches, organizationId, id, name, code, isActive).0
    case UpdateOp(organizationId, id, name, isActive) => Update(branches, organizationId, id, name, isActive).0
  }

  function Run(branches: Branches, ops: seq<Op>): Branches
    decreases |ops|
  {
    if ops == [] then branches else Run(Apply(branches, ops[0]), ops[1..])
  }

  ghost predicate CodesUnique(branches: Branches) {
    forall j, k :: j in branches && k in branches && j != k ==>
      branches[j].organizationId != branches[k].organizationId || branches[j].code != branches[k].code
  }

  /** No branch disappears, changes its organization or changes its code. */
  ghost predicate KeepsIdentity(before: Branches, after: Branches) {
    forall k :: k in before ==>
      k in after && after[k].organizationId == before[k].organizationId && after[k].code == before[k].code
  }

  /** One operation of an organization touches no row of another one. */
  lemma OpStaysInside(branches: Branches, op: Op, k: Id)
    requires k in branches && branches[k].organizationId != op.organizationId
    ensures k in Apply(branches, op) && Apply(branches, op)[k] == branches[k]
  {
  }

  /** Over any run, two branches of one organization never share a code, and every branch keeps its
      organization and its code. */
  lemma {:induction false} RunKeepsCodes(branches: Branches, ops: seq<Op>)
    requires CodesUnique(branches)
    ensures CodesUnique(Run(branches, ops)) && KeepsIdentity(branches, Run(branches, ops))
    decreases |ops|
  {
    if ops != [] {
      RunKeepsCodes(Apply(branches, ops[0]), ops[1..]);
    }
  }

  /** An update is answered with success exactly for a branch of the caller's organization; it writes
      the fields given and leaves the others, and a refused one changes nothing. */
  lemma UpdateOutcome(branches: Branches, organizationId: Id, id: Id, name: Option<string>, isActive: Option<bool>,
                      k: Id)
    requires k in branches
    ensures var (after, r) := Update(branches, organizationId, id, name, isActive);
            && (r.Success? <==> id in branches && branches[id].organizationId == organizationId)
            && (r == Failure(ForeignBranch) <==> id in branches && branches[id].organizationId != organizationId)
            && (r == Failure(NoSuchBranch) <==> id !in branches)
            && after.Keys == branches.Keys
            && (k != id || r.Failure? ==> after[k] == branches[k])
            && (k == id && r.Success? ==>
                  && after[k] == r.value && after[k].code == branches[k].code
                  && after[k].organizationId == organizationId
                  && (if name.None? then after[k].name == branches[k].name else name == Some(after[k].name))
                  && (if isActive.None? then after[k].isActive == branches[k].isActive
                      else isActive == Some(after[k].isActive)))
  {
  }

  /** A create succeeds exactly when its code is free in the organization; it writes the given name and
      code, active unless said otherwise, and touches no other branch. */
  lemma CreateOutcome(branches: Branches, organizationId: Id, id: Id, name: string, code: string,
                      isActive: Option<bool>, k: Id)
    requires id !in branches
    ensures var (after, r) := Create(branches, organizationId, id, name, code, isActive);
            && (r.Success? <==>
                  !exists j :: j in branches && branches[j].organizationId == organizationId
                               && branches[j].code == code)
            && (r.Failure? ==> r == Failure(CodeAlreadyExists) && after == branches)
            && (r.Success? ==>
                  && after.Keys == branches.Keys + {id} && after[id] == r.value
                  && r.value.organizationId == organizationId && r.value.name == name && r.value.code == code
                  && (if isActive.Some? then isActive == Some(r.value.isActive) else r.value.isActive)
                  && (k in branches ==> after[k] == branches[k]))
  {
  }

  /** A branch is found exactly inside its organization; elsewhere it is a missing resource. */
  lemma FindOneOutcome(branches: Branches, organizationId: Id, id: Id)
    ensures FindOne(branches, organizationId, id) ==
            if id !in branches then Failure(NoSuchBranch)
            else if branches[id].organizationId != organizationId then Failure(ForeignBranch)
            else Success(branches[id])
  {
  }
}
