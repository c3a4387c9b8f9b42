/**
 Replacing a user's roles as it runs beside other requests: the links are deleted by one statement
 and inserted by another, with no transaction around them. The insert fails as a whole if one of
 its links is already there.
 */
module RoleUpdates {
  import opened Wrappers
  import opened LedgerTables
  import opened Users
  import BA = BranchAccess

  /** A role update that has loaded its roles, and then also deleted the old links. */
  datatype Replacing = Replacing(userId: Id, found: seq<RoleRow>, deleted: bool)

  datatype Sys = Sys(links: set<(Id, Id)>, pending: map<Id, Replacing>)

  datatype Step =
    | Load(request: Id, userId: Id, names: seq<string>)
    | Delete(request: Id)
    | Insert(request: Id)

  datatype Reply = Going | Done | Refused(error: UserError) | DuplicateLink

  function Without(links: set<(Id, Id)>, userId: Id): set<(Id, Id)> {
    set l | l in links && l.0 != userId
  }

  function Apply(roles: seq<RoleRow>, s: Sys, step: Step): (Sys, Reply) {
    match step
    case Load(request, userId, names) =>
      if names == [] then (s, Refused(UserRoleRequired))
      else
        (match LoadRoles(roles, names)
         case Failure(e) => (s, Refused(e))
         case Success(found) => (s.(pending := s.pending[request := Replacing(userId, found, false)]), Going))
    case Delete(request) =>
      if request !in s.pending || s.pending[request].deleted then (s, Going)
      else
        var p := s.pending[request];
        (Sys(Without(s.links, p.userId), s.pending[request := p.(deleted := true)]), Going)
    case Insert(request) =>
      if request !in s.pending || !s.pending[request].deleted then (s, Going)
      else
        var p := s.pending[request];
        var rest := s.pending - {request};
        if Links(p.userId, p.found) !! s.links then (Sys(s.links + Links(p.userId, p.found), rest), Done)
        else (Sys(s.links, rest), DuplicateLink)
  }

  function Run(roles: seq<RoleRow>, s: Sys, steps: seq<Step>): Sys
    decreases |steps|
  {
    if steps == [] then s else Run(roles, Apply(roles, s, steps[0]).0, steps[1..])
  }

  function RolesOf(links: set<(Id, Id)>, userId: Id): set<Id> {
    set l | l in links && l.0 == userId :: l.1
  }

  function IdsIn(found: seq<RoleRow>): set<Id> {
    set r | r in found :: r.id
  }

  /** A request past its load has at least one role to give. */
  ghost predicate PendingSound(s: Sys) {
    forall r :: r in s.pending ==> s.pending[r].found != []
  }

  /** The request inserts links of the user, and succeeds. */
  predicate Gives(roles: seq<RoleRow>, s: Sys, step: Step, userId: Id) {
    step.Insert? && step.request in s.pending && s.pending[step.request].userId == userId
    && Apply(roles, s, step).1 == Done
  }

  predicate Takes(s: Sys, step: Step, userId: Id) {
    step.Delete? && step.request in s.pending && !s.pending[step.request].deleted
    && s.pending[step.request].userId == userId
  }

  /** One insert leaves its user exactly the requested roles exactly when it finds none. */
  lemma InsertIsExactIff(roles: seq<RoleRow>, s: Sys, step: Step, userId: Id)
    requires PendingSound(s) && Gives(roles, s, step, userId)
    ensures var wanted := IdsIn(s.pending[step.request].found);
            var after := RolesOf(Apply(roles, s, step).0.links, userId);
            && wanted != {} && wanted !! RolesOf(s.links, userId)
            && after == RolesOf(s.links, userId) + wanted
            && (after == wanted <==> RolesOf(s.links, userId) == {})
  {
    var found := s.pending[step.request].found;
    var wanted := IdsIn(found);
    assert found[0] in found;
    assert found[0].id in wanted;
    forall x | x in wanted ensures x !in RolesOf(s.links, userId) {
      assert (userId, x) in Links(userId, found);
    }
    var links' := Apply(roles, s, step).0.links;
    forall x ensures x in RolesOf(links', userId) <==> x in RolesOf(s.links, userId) || x in wanted {
      assert x in RolesOf(links', userId) <==> (userId, x) in links';
      assert x in RolesOf(s.links, userId) <==> (userId, x) in s.links;
      assert x in wanted <==> (userId, x) in Links(userId, found);
    }
    if RolesOf(s.links, userId) != {} {
      var x :| x in RolesOf(s.links, userId);
      assert x in RolesOf(links', userId) && x !in wanted;
    }
  }

  /** Whether the last change of the user's links was a delete. */
  function ClearAfter(roles: seq<RoleRow>, s: Sys, step: Step, userId: Id, clear: bool): bool {
    if Takes(s, step, userId) then true else clear && !Gives(roles, s, step, userId)
  }

  lemma ClearStep(roles: seq<RoleRow>, s: Sys, step: Step, userId: Id)
    requires PendingSound(s)
    ensures RolesOf(Apply(roles, s, step).0.links, userId) == {} <==>
            ClearAfter(roles, s, step, userId, RolesOf(s.links, userId) == {})
  {
    var links' := Apply(roles, s, step).0.links;
    if Gives(roles, s, step, userId) {
      InsertIsExactIff(roles, s, step, userId);
    } else if Takes(s, step, userId) {
      assert RolesOf(links', userId) == {};
    } else {
      forall x ensures (userId, x) in links' <==> (userId, x) in s.links {
      }
      assert RolesOf(links', userId) == RolesOf(s.links, userId) by {
        forall x ensures x in RolesOf(links', userId) <==> x in RolesOf(s.links, userId) {
          assert x in RolesOf(links', userId) <==> (userId, x) in links';
          assert x in RolesOf(s.links, userId) <==> (userId, x) in s.links;
        }
      }
    }
  }

  /** Every update of the user that succeeds in the run leaves exactly the roles it asked for. */
  ghost predicate AlwaysExact(roles: seq<RoleRow>, s: Sys, steps: seq<Step>, userId: Id)
    decreases |steps|
  {
    steps == [] ||
    (var s' := Apply(roles, s, steps[0]).0;
     && (Gives(roles, s, steps[0], userId) ==>
           RolesOf(s'.links, userId) == IdsIn(s.pending[steps[0].request].found))
     && AlwaysExact(roles, s', steps[1..], userId))
  }

  /** No insert of the user comes, and succeeds, on top of another: between any two there is a delete. */
  ghost predicate DeletesBetween(roles: seq<RoleRow>, s: Sys, steps: seq<Step>, userId: Id, clear: bool)
    decreases |steps|
  {
    steps == [] ||
    (&& (Gives(roles, s, steps[0], userId) ==> clear)
     && DeletesBetween(roles, Apply(roles, s, steps[0]).0, steps[1..], userId,
                       ClearAfter(roles, s, steps[0], userId, clear)))
  }

  /** In every interleaving of role updates, each that succeeds leaves exactly the roles it asked for
      exactly when no successful insert of that user follows another without a delete between. */
  lemma {:induction false} AlwaysExactIff(roles: seq<RoleRow>, s: Sys, steps: seq<Step>, userId: Id)
    requires PendingSound(s)
    ensures AlwaysExact(roles, s, steps, userId) <==>
            DeletesBetween(roles, s, steps, userId, RolesOf(s.links, userId) == {})
    decreases |steps|
  {
    if steps != [] {
      ClearStep(roles, s, steps[0], userId);
      AlwaysExactIff(roles, Apply(roles, s, steps[0]).0, steps[1..], userId);
      if Gives(roles, s, steps[0], userId) {
        InsertIsExactIff(roles, s, steps[0], userId);
      }
    }
  }

  /** Two updates that have both deleted before either inserts: with no role in common both succeed and
      the user ends with the roles of both; with one in common the later one fails. */
  lemma OverlappingUpdates(roles: seq<RoleRow>, s: Sys, first: Id, second: Id, userId: Id)
    requires PendingSound(s) && first != second && RolesOf(s.links, userId) == {}
    requires forall r :: r == first || r == second ==>
             r in s.pending && s.pending[r].userId == userId && s.pending[r].deleted
    ensures var (a, b) := (IdsIn(s.pending[first].found), IdsIn(s.pending[second].found));
            var (s1, reply1) := Apply(roles, s, Insert(first));
            var (s2, reply2) := Apply(roles, s1, Insert(second));
            && reply1 == Done
            && (reply2 == Done <==> a !! b)
            && RolesOf(s2.links, userId) == if a !! b then a + b else a
  {
    InsertsIffApart(roles, s, first, userId);
    InsertIsExactIff(roles, s, Insert(first), userId);
    var s1 := Apply(roles, s, Insert(first)).0;
    InsertsIffApart(roles, s1, second, userId);
    if Apply(roles, s1, Insert(second)).1 == Done {
      InsertIsExactIff(roles, s1, Insert(second), userId);
    }
  }

  /** An update inserts only after its own delete, and deletes only once. */
  lemma OneDeleteThenInsert(roles: seq<RoleRow>, s: Sys, request: Id)
    ensures request !in s.pending || !s.pending[request].deleted ==> Apply(roles, s, Insert(request)) == (s, Going)
    ensures request !in s.pending || s.pending[request].deleted ==> Apply(roles, s, Delete(request)) == (s, Going)
  {
  }

  /** An insert succeeds exactly when the user has none of its roles. */
  lemma InsertsIffApart(roles: seq<RoleRow>, s: Sys, request: Id, userId: Id)
    requires request in s.pending && s.pending[request].userId == userId && s.pending[request].deleted
    ensures Apply(roles, s, Insert(request)).1 == Done <==>
            IdsIn(s.pending[request].found) !! RolesOf(s.links, userId)
  {
    var found := s.pending[request].found;
    forall x ensures x in IdsIn(found) <==> (userId, x) in Links(userId, found) {
    }
    forall x ensures x in RolesOf(s.links, userId) <==> (userId, x) in s.links {
    }
  }

  /** The three steps that nothing interrupts do to the links what a whole update that succeeds does. */
  lemma SerialUpdate(roles: seq<RoleRow>, t: Tables, branches: BA.Branches, userId: Id, dto: UpdateDto, caller: Caller,
                     request: Id, pending: map<Id, Replacing>)
    requires Update(t, roles, branches, userId, dto, caller).1.Success? && dto.roles.Some?
    ensures var s1 := Apply(roles, Sys(t.links, pending), Load(request, userId, dto.roles.value)).0;
            var s2 := Apply(roles, s1, Delete(request)).0;
            var (s3, reply) := Apply(roles, s2, Insert(request));
            reply == Done && s3.links == Update(t, roles, branches, userId, dto, caller).0.links
  {
  }

  /** An update gets as far as deleting exactly with a non-empty list of distinct names that all exist;
      a refusal changes nothing. */
  lemma LoadIff(roles: seq<RoleRow>, s: Sys, request: Id, userId: Id, names: seq<string>)
    requires UniqueNames(roles)
    ensures var (s', reply) := Apply(roles, s, Load(request, userId, names));
            && (reply == Going <==> !BadRoles(roles, names))
            && (reply == Going ==>
                  && s'.links == s.links
                  && s'.pending == s.pending[request := Replacing(userId, RolesNamed(roles, names), false)])
            && (names == [] ==> reply == Refused(UserRoleRequired))
            && (names != [] && BadRoles(roles, names) ==> reply == Refused(UserInvalidRole))
            && (reply != Going ==> s' == s)
  {
    LoadRolesIff(roles, names);
  }
}
