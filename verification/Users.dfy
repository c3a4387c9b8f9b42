/** User administration: tenant checks, branch assignment and role assignment. */
module Users {
  import opened Wrappers
  import opened LedgerTables
  import BA = BranchAccess
  import CM = CashMovements

  datatype User = User(organizationId: Id, branchId: Option<Id>, email: string, isActive: bool)

  datatype RoleRow = RoleRow(id: Id, name: string)

  datatype UserError =
    | UserNotFound
    | UserAlreadyExists
    | UserRoleRequired
    | UserInvalidRole
    | NotAllowed
    | MissingBranch
    | MissingResource

  /** The user table and the user-role links; roles and branches are read only here. */
  datatype Tables = Tables(users: map<Id, User>, links: set<(Id, Id)>)

  function FindUser(users: map<Id, User>, organizationId: Id, id: Id): Result<Option<User>, UserError> {
    if id !in users then Success(None)
    else if users[id].organizationId != organizationId then Failure(MissingResource)
    else Success(Some(users[id]))
  }

  function AssertCanAccessUser(users: map<Id, User>, target: Id, caller: Caller): Result<(), UserError> {
    var found :- FindUser(users, caller.organizationId, target);
    if found.None? then Failure(UserNotFound)
    else if caller.role == ADMIN || target == caller.id then Success(())
    else Failure(NotAllowed)
  }

  function ResolveBranchId(branches: BA.Branches, branchId: Option<Id>, organizationId: Id):
    Result<Option<Id>, UserError>
  {
    if branchId.None? then Success(None)
    else
      match BA.FindBranch(branches, organizationId, branchId.value)
      case Failure(_) => Failure(MissingResource)
      case Success(None) => Failure(MissingBranch)
      case Success(Some(_)) => Success(branchId)
  }

  /** `role.findMany({ where: { name: { in: names } } })` */
  function RolesNamed(roles: seq<RoleRow>, names: seq<string>): seq<RoleRow> {
    if roles == [] then []
    else (if roles[0].name in names then [roles[0]] else []) + RolesNamed(roles[1..], names)
  }

  function LoadRoles(roles: seq<RoleRow>, names: seq<string>): Result<seq<RoleRow>, UserError> {
    var found := RolesNamed(roles, names);
    if |found| != |names| then Failure(UserInvalidRole) else Success(found)
  }

  function Links(userId: Id, roles: seq<RoleRow>): set<(Id, Id)> {
    set r | r in roles :: (userId, r.id)
  }

  predicate EmailTaken(users: map<Id, User>, email: string, holder: Option<Id>) {
    exists k :: k in users && users[k].email == email && holder != Some(k)
  }

  datatype UpdateDto = UpdateDto(
    email: Option<string>, isActive: Option<bool>, branchId: CM.Patch<Id>, roles: Option<seq<string>>)

  /** The row part of an update. */
  function PatchedUser(u: User, dto: UpdateDto): User {
    u.(email := if dto.email.Some? then dto.email.value else u.email,
       isActive := if dto.isActive.Some? then dto.isActive.value else u.isActive,
       branchId := CM.Patched(dto.branchId, u.branchId))
  }

  function UpdateRow(users: map<Id, User>, id: Id, dto: UpdateDto): Result<map<Id, User>, UserError>
    requires id in users
  {
    if dto.email.Some? && EmailTaken(users, dto.email.value, Some(id)) then Failure(UserAlreadyExists)
    else Success(users[id := PatchedUser(users[id], dto)])
  }

  /** A whole update request. The row is written before the roles are looked at. */
  function Update(t: Tables, roles: seq<RoleRow>, branches: BA.Branches, id: Id, dto: UpdateDto, caller: Caller):
    (Tables, Result<(), UserError>)
  {
    match AssertCanAccessUser(t.users, id, caller)
    case Failure(e) => (t, Failure(e))
    case Success(_) =>
      var asked := if dto.branchId.Put? then Some(dto.branchId.value) else None;
      var branch := ResolveBranchId(branches, asked, caller.organizationId);
      match branch
      case Failure(e) => (t, Failure(e))
      case Success(_) =>
        match UpdateRow(t.users, id, dto)
        case Failure(e) => (t, Failure(e))
        case Success(users) =>
          var t1 := t.(users := users);
          if dto.roles.None? then (t1, Success(()))
          else if dto.roles.value == [] then (t1, Failure(UserRoleRequired))
          else
            match LoadRoles(roles, dto.roles.value)
            case Failure(e) => (t1, Failure(e))
            case Success(found) =>
              (t1.(links := (set l | l in t.links && l.0 != id) + Links(id, found)), Success(()))
  }

  datatype CreateDto = CreateDto(email: string, roles: seq<string>, branchId: Option<Id>)

  function Create(t: Tables, roles: seq<RoleRow>, branches: BA.Branches, dto: CreateDto, caller: Caller, id: Id):
    (Tables, Result<(), UserError>)
  {
    if caller.role != ADMIN then (t, Failure(NotAllowed))
    else if EmailTaken(t.users, dto.email, None) then (t, Failure(UserAlreadyExists))
    else if dto.roles == [] then (t, Failure(UserRoleRequired))
    else
      match LoadRoles(roles, dto.roles)
      case Failure(e) => (t, Failure(e))
      case Success(found) =>
        match ResolveBranchId(branches, dto.branchId, caller.organizationId)
        case Failure(e) => (t, Failure(e))
        case Success(branchId) =>
          (Tables(t.users[id := User(caller.organizationId, branchId, dto.email, true)], t.links + Links(id, found)),
           Success(()))
  }

  function Remove(t: Tables, id: Id, caller: Caller): (Tables, Result<(), UserError>) {
    match AssertCanAccessUser(t.users, id, caller)
    case Failure(e) => (t, Failure(e))
    case Success(_) => (t.(users := t.users[id := t.users[id].(isActive := false)]), Success(()))
  }

  class UsersService {
    const roles: seq<RoleRow>
    var users: map<Id, User>
    var links: set<(Id, Id)>

    constructor (roles: seq<RoleRow>)
      ensures this.roles == roles && users == map[] && links == {}
    {
      this.roles := roles;
      users := map[];
      links := {};
    }

    method CreateUser(branches: BA.Branches, dto: CreateDto, caller: Caller, id: Id)
      returns (result: Result<(), UserError>)
      requires id !in users && forall l :: l in links ==> l.0 != id
      modifies this
      ensures (Tables(users, links), result) == Create(old(Tables(users, links)), roles, branches, dto, caller, id)
    {
      if caller.role != ADMIN {
        return Failure(NotAllowed);
      }
      if EmailTaken(users, dto.email, None) {
        return Failure(UserAlreadyExists);
      }
      if dto.roles == [] {
        return Failure(UserRoleRequired);
      }
      var dbRoles :- LoadRoles(roles, dto.roles);
      var branchId :- ResolveBranchId(branches, dto.branchId, caller.organizationId);
      users := users[id := User(caller.organizationId, branchId, dto.email, true)];
      links := links + Links(id, dbRoles);
      result := Success(());
    }

    method UpdateUser(branches: BA.Branches, id: Id, dto: UpdateDto, caller: Caller)
      returns (result: Result<(), UserError>)
      modifies this
      ensures (Tables(users, links), result) == Update(old(Tables(users, links)), roles, branches, id, dto, caller)
    {
      var _ :- AssertCanAccessUser(users, id, caller);
      if dto.branchId != CM.Leave {
        var asked := if dto.branchId.Put? then Some(dto.branchId.value) else None;
        var _ :- ResolveBranchId(branches, asked, caller.organizationId);
      }
      if dto.email.Some? || dto.isActive.Some? || dto.branchId != CM.Leave {
        if dto.email.Some? && EmailTaken(users, dto.email.value, Some(id)) {
          return Failure(UserAlreadyExists);
        }
        users := users[id := PatchedUser(users[id], dto)];
      }
      assert users == old(users)[id := PatchedUser(old(users)[id], dto)];
      if dto.roles.Some? {
        if dto.roles.value == [] {
          return Failure(UserRoleRequired);
        }
        var dbRoles :- LoadRoles(roles, dto.roles.value);
        links := set l | l in links && l.0 != id;
        links := links + Links(id, dbRoles);
      }
      result := Success(());
    }

    method RemoveUser(id: Id, caller: Caller) returns (result: Result<(), UserError>)
      modifies this
      ensures (Tables(users, links), result) == Remove(old(Tables(users, links)), id, caller)
    {
      var _ :- AssertCanAccessUser(users, id, caller);
      users := users[id := users[id].(isActive := false)];
      result := Success(());
    }
  }

  // ---------------------------------------------------------------- roles by counting

  predicate UniqueNames(roles: seq<RoleRow>) {
    forall i, j :: 0 <= i < j < |roles| ==> roles[i].name != roles[j].name
  }

  predicate Exists(roles: seq<RoleRow>, name: string) {
    exists r :: r in roles && r.name == name
  }

  ghost function NamesOf(roles: seq<RoleRow>): set<string> {
    if roles == [] then {} else {roles[0].name} + NamesOf(roles[1..])
  }

  lemma {:induction false} NamesOfHolds(roles: seq<RoleRow>)
    ensures forall n :: n in NamesOf(roles) <==> Exists(roles, n)
    decreases |roles|
  {
    if roles != [] {
      NamesOfHolds(roles[1..]);
      assert roles == [roles[0]] + roles[1..];
      forall n ensures n in NamesOf(roles) <==> Exists(roles, n) {
        assert Exists(roles, n) <==> n == roles[0].name || Exists(roles[1..], n) by {
          if n == roles[0].name {
            assert roles[0] in roles;
          }
        }
      }
    }
  }

  ghost function AsSet(names: seq<string>): set<string> {
    set n | n in names
  }

  lemma {:induction false} DistinctSize(names: seq<string>)
    ensures |AsSet(names)| <= |names|
    ensures |AsSet(names)| == |names| <==> NoRepeats(names)
    decreases |names|
  {
    if names != [] {
      var rest := names[1..];
      DistinctSize(rest);
      assert names == [names[0]] + rest;
      if names[0] in rest {
        assert AsSet(names) == AsSet(rest);
      } else {
        assert AsSet(names) == AsSet(rest) + {names[0]};
        assert names[0] !in AsSet(rest);
      }
    }
  }

  lemma {:induction false} FoundRoles(roles: seq<RoleRow>, names: seq<string>)
    ensures forall r :: r in RolesNamed(roles, names) <==> r in roles && r.name in names
    decreases |roles|
  {
    if roles != [] {
      FoundRoles(roles[1..], names);
      assert roles == [roles[0]] + roles[1..];
    }
  }

  lemma CommonNames(name: string, a: set<string>, b: set<string>)
    requires name !in a
    ensures |({name} + a) * b| == |a * b| + if name in b then 1 else 0
  {
    if name in b {
      assert ({name} + a) * b == {name} + a * b;
    } else {
      assert ({name} + a) * b == a * b;
    }
  }

  /** Each existing requested name is found once. */
  lemma {:induction false} FoundByName(roles: seq<RoleRow>, names: seq<string>)
    requires UniqueNames(roles)
    ensures |RolesNamed(roles, names)| == |NamesOf(roles) * AsSet(names)|
    decreases |roles|
  {
    if roles == [] {
      assert NamesOf(roles) * AsSet(names) == {};
    } else {
      var head, rest := roles[0], roles[1..];
      FoundByName(rest, names);
      NamesOfHolds(rest);
      assert head.name !in NamesOf(rest);
      CommonNames(head.name, NamesOf(rest), AsSet(names));
    }
  }

  lemma SubsetOfSameSize(a: set<string>, b: set<string>)
    requires a <= b && |a| == |b|
    ensures a == b
  {
    assert |b - a| == |b| - |a|;
  }

  /** Counting the rows found is the right test: it accepts exactly the lists without repetition
      whose names all exist. */
  lemma LoadRolesIff(roles: seq<RoleRow>, names: seq<string>)
    requires UniqueNames(roles)
    ensures LoadRoles(roles, names).Success? <==> NoRepeats(names) && forall n :: n in names ==> Exists(roles, n)
  {
    FoundByName(roles, names);
    NamesOfHolds(roles);
    DistinctSize(names);
    var common := NamesOf(roles) * AsSet(names);
    SubsetSize(common, AsSet(names));
    if LoadRoles(roles, names).Success? {
      SubsetOfSameSize(common, AsSet(names));
      forall n | n in names ensures Exists(roles, n) {
        assert n in common;
      }
    }
    if NoRepeats(names) && forall n :: n in names ==> Exists(roles, n) {
      assert AsSet(names) <= common;
      assert common == AsSet(names);
    }
  }

  lemma {:induction false} SubsetSize(a: set<string>, b: set<string>)
    requires a <= b
    ensures |a| <= |b|
  {
    assert b == a + (b - a);
  }

  // ---------------------------------------------------------------- role assignment

  ghost function RoleNames(t: Tables, roles: seq<RoleRow>, userId: Id): set<string> {
    set r | r in roles && (userId, r.id) in t.links :: r.name
  }

  ghost predicate UniqueRoleIds(roles: seq<RoleRow>) {
    forall r, r' :: r in roles && r' in roles && r.id == r'.id ==> r == r'
  }

  /** Replacing a user's links by those of the named roles. */
  lemma ReplacedLinks(links: set<(Id, Id)>, roles: seq<RoleRow>, names: seq<string>, id: Id, userId: Id, r: RoleRow)
    requires UniqueRoleIds(roles) && r in roles
    ensures var links' := (set l | l in links && l.0 != id) + Links(id, RolesNamed(roles, names));
            (userId, r.id) in links' <==> if userId == id then r.name in names else (userId, r.id) in links
  {
    FoundRoles(roles, names);
    var found := RolesNamed(roles, names);
    if userId == id && (id, r.id) in Links(id, found) {
      var q :| q in found && q.id == r.id;
      assert q == r;
    }
  }

  /** A successful update with roles leaves the user with exactly the requested roles, at least one,
      and every other user with the roles it had. */
  lemma UpdateAssignsExactly(t: Tables, roles: seq<RoleRow>, branches: BA.Branches, id: Id, dto: UpdateDto,
                             caller: Caller, other: Id)
    requires UniqueNames(roles) && UniqueRoleIds(roles)
    requires Update(t, roles, branches, id, dto, caller).1.Success? && dto.roles.Some?
    ensures var t' := Update(t, roles, branches, id, dto, caller).0;
            && RoleNames(t', roles, id) == AsSet(dto.roles.value)
            && dto.roles.value != [] && NoRepeats(dto.roles.value)
            && (other != id ==> RoleNames(t', roles, other) == RoleNames(t, roles, other))
            && (other != id && other in t.users ==> other in t'.users && t'.users[other] == t.users[other])
  {
    var names := dto.roles.value;
    var t' := Update(t, roles, branches, id, dto, caller).0;
    LoadRolesIff(roles, names);
    assert t'.links == (set l | l in t.links && l.0 != id) + Links(id, RolesNamed(roles, names));
    forall r | r in roles
      ensures (id, r.id) in t'.links <==> r.name in names
      ensures other != id ==> ((other, r.id) in t'.links <==> (other, r.id) in t.links)
    {
      ReplacedLinks(t.links, roles, names, id, id, r);
      ReplacedLinks(t.links, roles, names, id, other, r);
    }
  }

  /** Who may touch a user: an administrator or the user itself, inside the organization. */
  lemma AccessIff(users: map<Id, User>, target: Id, caller: Caller)
    ensures AssertCanAccessUser(users, target, caller).Success? <==>
              && target in users && users[target].organizationId == caller.organizationId
              && (caller.role == ADMIN || target == caller.id)
  {
  }

  /** Why access to a user is refused. */
  lemma AccessRefusals(users: map<Id, User>, target: Id, caller: Caller)
    ensures AssertCanAccessUser(users, target, caller) ==
            if target !in users then Failure(UserNotFound)
            else if users[target].organizationId != caller.organizationId then Failure(MissingResource)
            else if caller.role != ADMIN && target != caller.id then Failure(NotAllowed)
            else Success(())
  {
  }

  predicate BranchMissing(branches: BA.Branches, branchId: Option<Id>) {
    branchId.Some? && branchId.value !in branches
  }

  predicate BranchForeign(branches: BA.Branches, branchId: Option<Id>, caller: Caller) {
    branchId.Some? && branchId.value in branches && branches[branchId.value].organizationId != caller.organizationId
  }

  /** Why a create is refused, in the order of the tests. */
  lemma CreateRefusals(t: Tables, roles: seq<RoleRow>, branches: BA.Branches, dto: CreateDto, caller: Caller, id: Id)
    requires UniqueNames(roles)
    ensures Create(t, roles, branches, dto, caller, id).1 ==
            if caller.role != ADMIN then Failure(NotAllowed)
            else if exists k :: k in t.users && t.users[k].email == dto.email then Failure(UserAlreadyExists)
            else if dto.roles == [] then Failure(UserRoleRequired)
            else if BadRoles(roles, dto.roles) then Failure(UserInvalidRole)
            else if BranchMissing(branches, dto.branchId) then Failure(MissingBranch)
            else if BranchForeign(branches, dto.branchId, caller) then Failure(MissingResource)
            else Success(())
  {
    LoadRolesIff(roles, dto.roles);
  }

  /** Why an update is refused, in the order of the tests; the roles come last. */
  lemma UpdateRefusals(t: Tables, roles: seq<RoleRow>, branches: BA.Branches, id: Id, dto: UpdateDto, caller: Caller)
    requires UniqueNames(roles)
    ensures var asked := if dto.branchId.Put? then Some(dto.branchId.value) else None;
            Update(t, roles, branches, id, dto, caller).1 ==
            if id !in t.users then Failure(UserNotFound)
            else if t.users[id].organizationId != caller.organizationId then Failure(MissingResource)
            else if caller.role != ADMIN && id != caller.id then Failure(NotAllowed)
            else if BranchMissing(branches, asked) then Failure(MissingBranch)
            else if BranchForeign(branches, asked, caller) then Failure(MissingResource)
            else if dto.email.Some? && exists k :: k in t.users && k != id && t.users[k].email == dto.email.value then
              Failure(UserAlreadyExists)
            else if dto.roles == Some([]) then Failure(UserRoleRequired)
            else if dto.roles.Some? && BadRoles(roles, dto.roles.value) then Failure(UserInvalidRole)
            else Success(())
  {
    AccessRefusals(t.users, id, caller);
    if dto.roles.Some? {
      LoadRolesIff(roles, dto.roles.value);
    }
  }

  /** The row part of an update that succeeds: each column given is written, a cleared branch is
      gone, the rest of the row and every other row stay, and without a role list so do the links. */
  lemma UpdateOutcome(t: Tables, roles: seq<RoleRow>, branches: BA.Branches, id: Id, dto: UpdateDto, caller: Caller,
                      other: Id)
    requires Update(t, roles, branches, id, dto, caller).1.Success?
    ensures var t' := Update(t, roles, branches, id, dto, caller).0;
            && id in t.users && t'.users.Keys == t.users.Keys
            && t.users[id].organizationId == t'.users[id].organizationId == caller.organizationId
            && (if dto.email.Some? then dto.email == Some(t'.users[id].email)
                else t'.users[id].email == t.users[id].email)
            && (if dto.isActive.Some? then dto.isActive == Some(t'.users[id].isActive)
                else t'.users[id].isActive == t.users[id].isActive)
            && (match dto.branchId
                case Leave => t'.users[id].branchId == t.users[id].branchId
                case Clear => t'.users[id].branchId == None
                case Put(b) => t'.users[id].branchId == Some(b) && BA.Owned(branches, caller, b))
            && (other in t.users && other != id ==> t'.users[other] == t.users[other])
            && (dto.roles.None? ==> t'.links == t.links)
  {
  }

  /** A successful create adds one active user of the administrator's organization, with a free
      e-mail, a branch of the organization if any, and exactly the requested roles. */
  lemma CreateAssignsExactly(t: Tables, roles: seq<RoleRow>, branches: BA.Branches, dto: CreateDto, caller: Caller,
                             id: Id, other: Id)
    requires UniqueNames(roles) && UniqueRoleIds(roles)
    requires id !in t.users && forall l :: l in t.links ==> l.0 != id
    ensures var (t', r) := Create(t, roles, branches, dto, caller, id);
            && (r.Success? <==>
                  && caller.role == ADMIN && !EmailTaken(t.users, dto.email, None)
                  && dto.roles != [] && NoRepeats(dto.roles) && (forall n :: n in dto.roles ==> Exists(roles, n))
                  && (dto.branchId.Some? ==> BA.Owned(branches, caller, dto.branchId.value)))
            && (r.Failure? ==> t' == t)
            && (r.Success? ==>
                  && t'.users == t.users[id := User(caller.organizationId, dto.branchId, dto.email, true)]
                  && RoleNames(t', roles, id) == AsSet(dto.roles)
                  && (other != id ==> RoleNames(t', roles, other) == RoleNames(t, roles, other)))
  {
    LoadRolesIff(roles, dto.roles);
    var (t', r) := Create(t, roles, branches, dto, caller, id);
    if r.Success? {
      assert t.links == set l | l in t.links && l.0 != id;
      forall r | r in roles
        ensures (id, r.id) in t'.links <==> r.name in dto.roles
        ensures other != id ==> ((other, r.id) in t'.links <==> (other, r.id) in t.links)
      {
        ReplacedLinks(t.links, roles, dto.roles, id, id, r);
        ReplacedLinks(t.links, roles, dto.roles, id, other, r);
      }
    }
  }

  /** A removal deactivates the row, keeps it and its role links, and touches no other. */
  lemma RemoveOutcome(t: Tables, id: Id, caller: Caller, other: Id)
    requires other in t.users
    ensures var (t', r) := Remove(t, id, caller);
            && (r.Success? <==> AssertCanAccessUser(t.users, id, caller).Success?)
            && (r.Failure? ==> Failure(r.error) == AssertCanAccessUser(t.users, id, caller))
            && t'.links == t.links && t'.users.Keys == t.users.Keys
            && t'.users[other] ==
              (if other == id && r.Success? then t.users[other].(isActive := false) else t.users[other])
  {
  }

  /** A refused update never touches a role link. It leaves the user row alone too, except when it
      is the role list that is refused: by then the row has been written. */
  lemma RefusedUpdate(t: Tables, roles: seq<RoleRow>, branches: BA.Branches, id: Id, dto: UpdateDto, caller: Caller)
    requires Update(t, roles, branches, id, dto, caller).1.Failure?
    ensures var (t', r) := Update(t, roles, branches, id, dto, caller);
            && t'.links == t.links
            && if r.error == UserRoleRequired || r.error == UserInvalidRole
               then id in t.users && t'.users == t.users[id := PatchedUser(t.users[id], dto)]
               else t'.users == t.users
  {
  }

  /** The role list given is not one the service accepts. */
  predicate BadRoles(roles: seq<RoleRow>, names: seq<string>) {
    names == [] || !NoRepeats(names) || exists n :: n in names && !Exists(roles, n)
  }

  /** A refused update ought to leave the tables alone. It does not exactly when the caller may touch
      the user, the branch and the e-mail are good and change something or the flag does, and the
      role list is bad. */
  lemma RefusedButWrittenIff(t: Tables, roles: seq<RoleRow>, branches: BA.Branches, id: Id, dto: UpdateDto,
                             caller: Caller)
    requires UniqueNames(roles)
    ensures var (t', r) := Update(t, roles, branches, id, dto, caller);
            (r.Failure? && t' != t) <==>
              && id in t.users && t.users[id].organizationId == caller.organizationId
              && (caller.role == ADMIN || id == caller.id)
              && (dto.branchId.Put? ==> BA.Owned(branches, caller, dto.branchId.value))
              && (dto.email.Some? ==> !EmailTaken(t.users, dto.email.value, Some(id)))
              && PatchedUser(t.users[id], dto) != t.users[id]
              && dto.roles.Some? && BadRoles(roles, dto.roles.value)
  {
    AccessIff(t.users, id, caller);
    if Update(t, roles, branches, id, dto, caller).1.Failure? {
      RefusedUpdate(t, roles, branches, id, dto, caller);
    }
    if dto.roles.Some? {
      LoadRolesIff(roles, dto.roles.value);
    }
  }

  /** For instance: an administrator deactivates a user and names a role twice. The answer is an
      error, and the user is deactivated. */
  lemma RefusedButDeactivated(branches: BA.Branches, caller: Caller, id: Id)
    requires caller.role == ADMIN
    ensures var roles := [RoleRow(1, "MANAGER")];
            var t := Tables(map[id := User(caller.organizationId, None, "a@b.c", true)], {});
            var dto := UpdateDto(None, Some(false), CM.Leave, Some(["MANAGER", "MANAGER"]));
            var (t', r) := Update(t, roles, branches, id, dto, caller);
            r == Failure(UserInvalidRole) && id in t'.users && !t'.users[id].isActive && t' != t
  {
    var roles := [RoleRow(1, "MANAGER")];
    var names := ["MANAGER", "MANAGER"];
    assert names[0] == names[1];
    LoadRolesIff(roles, names);
    assert LoadRoles(roles, names) == Failure(UserInvalidRole);
  }
}
