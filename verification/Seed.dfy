/**
 The demo seed: movements generated in two nested loops over the demo branches. The rows go into
 the table without passing through the service, so they must start inside its invariants.
 */
module Seed {
  import opened Wrappers
  import opened LedgerTables
  import opened CashMovements
  import opened Workflow

  datatype SeedBranch = SeedBranch(id: Id, code: string)

  datatype SeedUser = SeedUser(id: Id, role: Role, branchId: Option<Id>)

  const STATUS_PATTERN := [PENDING, APPROVED, DELIVERED, REJECTED, DELIVERED, APPROVED, PENDING, DELIVERED]

  function PushIntoMapList(m: map<Id, seq<Id>>, key: Id, value: Id): map<Id, seq<Id>> {
    if key in m then m[key := m[key] + [value]] else m[key := [value]]
  }

  function PickByIndex(values: seq<Id>, index: nat, fallback: Id): Id {
    if values == [] then fallback else values[index % |values|]
  }

  function ListOf(m: map<Id, seq<Id>>, key: Id): seq<Id> {
    if key in m then m[key] else []
  }

  /** The ids of the users of a role and branch assignment, in order. */
  function IdsOf(users: seq<SeedUser>, role: Role, branchId: Option<Id>): seq<Id> {
    if users == [] then []
    else
      var n := |users| - 1;
      IdsOf(users[..n], role, branchId)
      + if users[n].role == role && (role == ADMIN || users[n].branchId == branchId) then [users[n].id] else []
  }

  lemma IdsOfStep(users: seq<SeedUser>, i: nat, role: Role, branchId: Option<Id>)
    requires i < |users|
    ensures IdsOf(users[..i + 1], role, branchId)
         == IdsOf(users[..i], role, branchId)
            + if users[i].role == role && (role == ADMIN || users[i].branchId == branchId) then [users[i].id] else []
  {
    assert users[..i + 1][..i] == users[..i];
  }

  /** Pushing one user keeps a map of lists by branch in step with the prefix read so far. */
  lemma ListsStep(users: seq<SeedUser>, i: nat, role: Role, before: map<Id, seq<Id>>, after: map<Id, seq<Id>>)
    requires i < |users| && role != ADMIN
    requires forall k: Id :: ListOf(before, k) == IdsOf(users[..i], role, Some(k))
    requires after == if users[i].role == role && users[i].branchId.Some?
                      then PushIntoMapList(before, users[i].branchId.value, users[i].id) else before
    ensures forall k: Id :: ListOf(after, k) == IdsOf(users[..i + 1], role, Some(k))
  {
    forall k: Id ensures ListOf(after, k) == IdsOf(users[..i + 1], role, Some(k)) {
      IdsOfStep(users, i, role, Some(k));
    }
  }

  /** Who may create and who may sign in a branch. */
  datatype Pools = Pools(creators: seq<Id>, approvers: seq<Id>, fallback: Id)

  function PoolsOf(users: seq<SeedUser>, branchId: Id): Pools
    requires users != []
  {
    var admins := IdsOf(users, ADMIN, None);
    var fallback := if admins != [] then admins[0] else users[0].id;
    var managers := IdsOf(users, MANAGER, Some(branchId)) + IdsOf(users, MANAGER, None) + admins;
    var operators := IdsOf(users, OPERATOR, Some(branchId));
    Pools(if operators != [] then operators else managers, if managers != [] then managers else [fallback], fallback)
  }

  /** `daysAgo` days back, at an hour and minute that depend on the position. */
  function CreatedAt(b: nat, m: nat, now: nat): nat
    requires now >= 30 * DAY_MS
  {
    now - now % DAY_MS - ((b * 3 + m) % 30) * DAY_MS + (8 + (b + m) % 10) * 3_600_000 + ((b * 13 + m * 7) % 60) * 60_000
  }

  /** In cents. */
  function Amount(b: nat, m: nat): (cents: nat)
    ensures cents > 0
  {
    100 * (1200 + b * 350 + m * 97 + ((b + m) % 5) * 25)
  }

  /** The row for one position of the two loops; `id` is the one the database gives it. */
  function SeedRow(organizationId: Id, branch: SeedBranch, pools: Pools, b: nat, m: nat, now: nat, id: Id): Movement
    requires now >= 30 * DAY_MS
  {
    var status := STATUS_PATTERN[(b + m) % 8];
    var createdAt := CreatedAt(b, m, now);
    Movement(
      id, organizationId, branch.id,
      Amount(b, m), "ARS",
      if (b + m) % 2 == 0 then IN else OUT, status, Some(branch.code),
      PickByIndex(pools.creators, m, pools.fallback),
      if status == APPROVED || status == DELIVERED then Some(PickByIndex(pools.approvers, m, pools.fallback)) else None,
      if status == DELIVERED then Some(PickByIndex(pools.approvers, m + 1, pools.fallback)) else None,
      createdAt, createdAt + 2_700_000)
  }

  /** The first `n` rows of branch number `b`, after `before`. */
  function BranchRows(organizationId: Id, branch: SeedBranch, pools: Pools, b: nat, n: nat, now: nat,
                      before: Rows): Rows
    requires now >= 30 * DAY_MS
  {
    if n == 0 then before
    else
      var rows := BranchRows(organizationId, branch, pools, b, n - 1, now, before);
      rows + [SeedRow(organizationId, branch, pools, b, n - 1, now, |rows|)]
  }

  function AllRows(organizationId: Id, branches: seq<SeedBranch>, users: seq<SeedUser>, perBranch: nat, now: nat): Rows
    requires now >= 30 * DAY_MS && users != []
  {
    if branches == [] then []
    else
      var b := |branches| - 1;
      BranchRows(organizationId, branches[b], PoolsOf(users, branches[b].id), b, perBranch, now,
                 AllRows(organizationId, branches[..b], users, perBranch, now))
  }

  lemma AllRowsStep(organizationId: Id, branches: seq<SeedBranch>, users: seq<SeedUser>, perBranch: nat, now: nat,
                    b: nat)
    requires now >= 30 * DAY_MS && users != [] && b < |branches|
    ensures AllRows(organizationId, branches[..b + 1], users, perBranch, now)
         == BranchRows(organizationId, branches[b], PoolsOf(users, branches[b].id), b, perBranch, now,
                       AllRows(organizationId, branches[..b], users, perBranch, now))
  {
    assert branches[..b + 1][..b] == branches[..b];
  }

  /** The four user lists the seed draws its actors from, filled in one pass. */
  method GroupUsers(users: seq<SeedUser>)
    returns (adminIds: seq<Id>, orgWideManagerIds: seq<Id>, managersByBranch: map<Id, seq<Id>>,
             operatorsByBranch: map<Id, seq<Id>>)
    ensures adminIds == IdsOf(users, ADMIN, None)
    ensures orgWideManagerIds == IdsOf(users, MANAGER, None)
    ensures forall k: Id :: ListOf(managersByBranch, k) == IdsOf(users, MANAGER, Some(k))
    ensures forall k: Id :: ListOf(operatorsByBranch, k) == IdsOf(users, OPERATOR, Some(k))
  {
    adminIds, orgWideManagerIds, managersByBranch, operatorsByBranch := [], [], map[], map[];
    for i := 0 to |users|
      invariant adminIds == IdsOf(users[..i], ADMIN, None)
      invariant orgWideManagerIds == IdsOf(users[..i], MANAGER, None)
      invariant forall k: Id :: ListOf(managersByBranch, k) == IdsOf(users[..i], MANAGER, Some(k))
      invariant forall k: Id :: ListOf(operatorsByBranch, k) == IdsOf(users[..i], OPERATOR, Some(k))
    {
      var user := users[i];
      ghost var managers, operators := managersByBranch, operatorsByBranch;
      IdsOfStep(users, i, ADMIN, None);
      IdsOfStep(users, i, MANAGER, None);
      if user.role == ADMIN {
        adminIds := adminIds + [user.id];
      }
      if user.role == MANAGER && user.branchId.None? {
        orgWideManagerIds := orgWideManagerIds + [user.id];
      }
      if user.branchId.Some? {
        if user.role == MANAGER {
          managersByBranch := PushIntoMapList(managersByBranch, user.branchId.value, user.id);
        } else if user.role == OPERATOR {
          operatorsByBranch := PushIntoMapList(operatorsByBranch, user.branchId.value, user.id);
        }
      }
      ListsStep(users, i, MANAGER, managers, managersByBranch);
      ListsStep(users, i, OPERATOR, operators, operatorsByBranch);
    }
    assert users[..|users|] == users;
  }

  /** The inner loop: the rows of one branch. */
  method PushBranchRows(organizationId: Id, branch: SeedBranch, pools: Pools, b: nat, perBranch: nat, now: nat,
                        before: Rows)
    returns (rows: Rows)
    requires now >= 30 * DAY_MS
    ensures rows == BranchRows(organizationId, branch, pools, b, perBranch, now, before)
  {
    rows := before;
    for m := 0 to perBranch
      invariant rows == BranchRows(organizationId, branch, pools, b, m, now, before)
    {
      var row := SeedRow(organizationId, branch, pools, b, m, now, |rows|);
      rows := rows + [row];
    }
  }

  /** The seed refuses to run without demo users, and otherwise produces AllRows. */
  method DemoMovements(organizationId: Id, branches: seq<SeedBranch>, users: seq<SeedUser>, perBranch: nat, now: nat)
    returns (demoMovements: Option<Rows>)
    requires now >= 30 * DAY_MS
    ensures users == [] ==> demoMovements == None
    ensures users != [] ==> demoMovements == Some(AllRows(organizationId, branches, users, perBranch, now))
  {
    if users == [] {
      return None;
    }
    var adminIds, orgWideManagerIds, managersByBranch, operatorsByBranch := GroupUsers(users);
    var fallback := if adminIds != [] then adminIds[0] else users[0].id;

    var rows: Rows := [];
    for b := 0 to |branches|
      invariant rows == AllRows(organizationId, branches[..b], users, perBranch, now)
    {
      var branch := branches[b];
      var branchManagers := ListOf(managersByBranch, branch.id) + orgWideManagerIds + adminIds;
      var branchOperators := ListOf(operatorsByBranch, branch.id);
      var creators := if branchOperators != [] then branchOperators else branchManagers;
      var approvers := if branchManagers != [] then branchManagers else [fallback];
      assert Pools(creators, approvers, fallback) == PoolsOf(users, branch.id);
      rows := PushBranchRows(organizationId, branch, PoolsOf(users, branch.id), b, perBranch, now, rows);
      AllRowsStep(organizationId, branches, users, perBranch, now, b);
    }
    assert branches[..|branches|] == branches;
    demoMovements := Some(rows);
  }

  // ---------------------------------------------------------------- the rows are sound

  /** What a seeded row owes the workflow, plus branch and actors taken from the given sets. */
  ghost predicate SeededRow(row: Movement, organizationId: Id, branchIds: set<Id>, userIds: set<Id>) {
    && ActorsMatch(row) && row.amount > 0
    && row.organizationId == organizationId
    && row.branchId in branchIds
    && row.createdById in userIds
    && (row.approvedById.Some? ==> row.approvedById.value in userIds)
    && (row.deliveredById.Some? ==> row.deliveredById.value in userIds)
  }

  ghost predicate Seeded(rows: Rows, organizationId: Id, branchIds: set<Id>, userIds: set<Id>) {
    forall i :: 0 <= i < |rows| ==> rows[i].id == i && SeededRow(rows[i], organizationId, branchIds, userIds)
  }

  function UserIds(users: seq<SeedUser>): set<Id> {
    set u | u in users :: u.id
  }

  lemma {:induction false} IdsAreUsers(users: seq<SeedUser>, role: Role, branchId: Option<Id>)
    ensures forall x :: x in IdsOf(users, role, branchId) ==> x in UserIds(users)
    decreases |users|
  {
    if users != [] {
      var n := |users| - 1;
      IdsAreUsers(users[..n], role, branchId);
      assert users == users[..n] + [users[n]];
      assert users[n] in users;
    }
  }

  lemma PoolsAreUsers(users: seq<SeedUser>, branchId: Id, m: nat)
    requires users != []
    ensures var p := PoolsOf(users, branchId);
            PickByIndex(p.creators, m, p.fallback) in UserIds(users)
              && PickByIndex(p.approvers, m, p.fallback) in UserIds(users)
  {
    IdsAreUsers(users, ADMIN, None);
    IdsAreUsers(users, MANAGER, None);
    IdsAreUsers(users, MANAGER, Some(branchId));
    IdsAreUsers(users, OPERATOR, Some(branchId));
    assert users[0] in users;
  }

  lemma SeedRowSound(organizationId: Id, branch: SeedBranch, users: seq<SeedUser>, b: nat, m: nat, now: nat, id: Id,
                     branchIds: set<Id>)
    requires now >= 30 * DAY_MS && users != [] && branch.id in branchIds
    ensures var row := SeedRow(organizationId, branch, PoolsOf(users, branch.id), b, m, now, id);
            row.id == id && SeededRow(row, organizationId, branchIds, UserIds(users))
  {
    PoolsAreUsers(users, branch.id, m);
    PoolsAreUsers(users, branch.id, m + 1);
  }

  lemma SeededAppend(rows: Rows, row: Movement, organizationId: Id, branchIds: set<Id>, userIds: set<Id>)
    requires Seeded(rows, organizationId, branchIds, userIds)
    requires row.id == |rows| && SeededRow(row, organizationId, branchIds, userIds)
    ensures Seeded(rows + [row], organizationId, branchIds, userIds)
  {
  }

  lemma NextRowSeeded(organizationId: Id, branch: SeedBranch, users: seq<SeedUser>, b: nat, m: nat, now: nat,
                      rows: Rows, branchIds: set<Id>)
    requires now >= 30 * DAY_MS && users != [] && branch.id in branchIds
    requires Seeded(rows, organizationId, branchIds, UserIds(users))
    ensures Seeded(rows + [SeedRow(organizationId, branch, PoolsOf(users, branch.id), b, m, now, |rows|)],
                   organizationId, branchIds, UserIds(users))
  {
    var row := SeedRow(organizationId, branch, PoolsOf(users, branch.id), b, m, now, |rows|);
    SeedRowSound(organizationId, branch, users, b, m, now, |rows|, branchIds);
    SeededAppend(rows, row, organizationId, branchIds, UserIds(users));
  }

  lemma {:induction false} BranchRowsSeeded(organizationId: Id, branch: SeedBranch, users: seq<SeedUser>, b: nat,
                                            n: nat, now: nat,
                                            before: Rows, branchIds: set<Id>)
    requires now >= 30 * DAY_MS && users != [] && branch.id in branchIds
    requires Seeded(before, organizationId, branchIds, UserIds(users))
    ensures Seeded(BranchRows(organizationId, branch, PoolsOf(users, branch.id), b, n, now, before),
                   organizationId, branchIds, UserIds(users))
  {
    if n > 0 {
      BranchRowsSeeded(organizationId, branch, users, b, n - 1, now, before, branchIds);
      var rows := BranchRows(organizationId, branch, PoolsOf(users, branch.id), b, n - 1, now, before);
      NextRowSeeded(organizationId, branch, users, b, n - 1, now, rows, branchIds);
    }
  }

  /** For every configured size: each seeded movement carries the actors its status calls for, and
      its branch and actors are demo branches and demo users. */
  lemma {:induction false} SeedStartsSound(organizationId: Id, branches: seq<SeedBranch>, users: seq<SeedUser>,
                                           perBranch: nat, now: nat,
                                           branchIds: set<Id>)
    requires now >= 30 * DAY_MS && users != []
    requires forall i :: 0 <= i < |branches| ==> branches[i].id in branchIds
    ensures Seeded(AllRows(organizationId, branches, users, perBranch, now), organizationId, branchIds, UserIds(users))
    ensures WorkflowSound(AllRows(organizationId, branches, users, perBranch, now))
    decreases |branches|
  {
    if branches != [] {
      var b := |branches| - 1;
      SeedStartsSound(organizationId, branches[..b], users, perBranch, now, branchIds);
      BranchRowsSeeded(organizationId, branches[b], users, b, perBranch, now,
                       AllRows(organizationId, branches[..b], users, perBranch, now), branchIds);
    }
  }

  // ---------------------------------------------------------------- what the rows look like

  lemma {:induction false} BranchRowsCount(organizationId: Id, branch: SeedBranch, pools: Pools, b: nat, n: nat,
                                           now: nat,
                                           before: Rows)
    requires now >= 30 * DAY_MS
    ensures |BranchRows(organizationId, branch, pools, b, n, now, before)| == |before| + n
  {
    if n > 0 {
      BranchRowsCount(organizationId, branch, pools, b, n - 1, now, before);
    }
  }

  /** Rows before those of branch number `b`. */
  function Offset(b: nat, perBranch: nat): nat {
    if b == 0 then 0 else Offset(b - 1, perBranch) + perBranch
  }

  lemma {:induction false} OffsetIs(b: nat, perBranch: nat)
    ensures Offset(b, perBranch) == b * perBranch
  {
    if b > 0 {
      OffsetIs(b - 1, perBranch);
      assert b * perBranch == (b - 1) * perBranch + perBranch;
    }
  }

  /** Each branch gets as many movements as configured. */
  lemma {:induction false} SeedCount(organizationId: Id, branches: seq<SeedBranch>, users: seq<SeedUser>,
                                     perBranch: nat,
                                     now: nat)
    requires now >= 30 * DAY_MS && users != []
    ensures |AllRows(organizationId, branches, users, perBranch, now)| == Offset(|branches|, perBranch)
                                                                        == |branches| * perBranch
    decreases |branches|
  {
    if branches != [] {
      var n := |branches| - 1;
      SeedCount(organizationId, branches[..n], users, perBranch, now);
      BranchRowsCount(organizationId, branches[n], PoolsOf(users, branches[n].id), n, perBranch, now,
                      AllRows(organizationId, branches[..n], users, perBranch, now));
    }
    OffsetIs(|branches|, perBranch);
  }

  /** The row of a position: in pesos, types in turn, a fixed cycle of statuses, created between 8 and 18
      o'clock of one of the last 30 days and touched 45 minutes later; the creator and the approver take
      turns by position, and the deliverer is the next approver. */
  lemma SeedRowShape(organizationId: Id, branch: SeedBranch, pools: Pools, b: nat, m: nat, now: nat, id: Id)
    requires now >= 30 * DAY_MS
    ensures var row := SeedRow(organizationId, branch, pools, b, m, now, id);
            && row.id == id && row.organizationId == organizationId && row.branchId == branch.id
            && row.currency == "ARS"
            && (row.kind == IN <==> (b + m) % 2 == 0)
            && (row.status == PENDING <==> (b + m) % 8 == 0 || (b + m) % 8 == 6)
            && (row.status == APPROVED <==> (b + m) % 8 == 1 || (b + m) % 8 == 5)
            && (row.status == REJECTED <==> (b + m) % 8 == 3)
            && row.createdAt / DAY_MS == now / DAY_MS - (b * 3 + m) % 30
            && 8 * 3_600_000 <= row.createdAt % DAY_MS < 18 * 3_600_000
            && row.updatedAt == row.createdAt + 45 * 60_000
            && row.description == Some(branch.code)
            && row.createdById == PickByIndex(pools.creators, m, pools.fallback)
            && (row.approvedById.Some? ==> row.approvedById == Some(PickByIndex(pools.approvers, m, pools.fallback)))
            && (row.deliveredById.Some? ==>
                  row.deliveredById == Some(PickByIndex(pools.approvers, m + 1, pools.fallback)))
            && row.amount == 120_000 + 35_000 * b + 9_700 * m + 2_500 * ((b + m) % 5)
  {
    var hour, minute := 8 + (b + m) % 10, (b * 13 + m * 7) % 60;
    assert hour * 3_600_000 + minute * 60_000 < 18 * 3_600_000;
    assert now == now / DAY_MS * DAY_MS + now % DAY_MS;
    InDay(now / DAY_MS - (b * 3 + m) % 30, hour * 3_600_000 + minute * 60_000);
  }

  lemma InDay(day: int, ms: nat)
    requires ms < DAY_MS
    ensures (day * DAY_MS + ms) / DAY_MS == day && (day * DAY_MS + ms) % DAY_MS == ms
  {
  }

  /** The ids of the users of a role; for others than administrators, of one branch assignment. */
  lemma {:induction false} IdsHold(users: seq<SeedUser>, role: Role, branchId: Option<Id>, x: Id)
    ensures x in IdsOf(users, role, branchId) <==>
            exists u :: u in users && u.id == x && u.role == role && (role == ADMIN || u.branchId == branchId)
    decreases |users|
  {
    if users != [] {
      var n := |users| - 1;
      IdsHold(users[..n], role, branchId, x);
      assert users == users[..n] + [users[n]];
      if users[n].id == x && users[n].role == role && (role == ADMIN || users[n].branchId == branchId) {
        assert users[n] in users;
      }
    }
  }

  /** Who may sign: a manager of the branch, one of the whole organization, or an administrator. */
  ghost predicate MaySign(users: seq<SeedUser>, branchId: Id, x: Id) {
    exists u :: u in users && u.id == x
                && (u.role == ADMIN || (u.role == MANAGER && (u.branchId == Some(branchId) || u.branchId == None)))
  }

  ghost predicate OperatesIn(users: seq<SeedUser>, branchId: Id, x: Id) {
    exists u :: u in users && u.id == x && u.role == OPERATOR && u.branchId == Some(branchId)
  }

  /** The pools: creators are the operators of the branch if it has any, else those who may sign; approvers
      are those who may sign if there are any, else the fallback. */
  lemma PoolsHold(users: seq<SeedUser>, branchId: Id, x: Id)
    requires users != []
    ensures var p := PoolsOf(users, branchId);
            && ((exists y :: OperatesIn(users, branchId, y)) ==> (x in p.creators <==> OperatesIn(users, branchId, x)))
            && (!(exists y :: OperatesIn(users, branchId, y)) ==> (x in p.creators <==> MaySign(users, branchId, x)))
            && ((exists y :: MaySign(users, branchId, y)) ==> (x in p.approvers <==> MaySign(users, branchId, x)))
            && (!(exists y :: MaySign(users, branchId, y)) ==> p.approvers == [users[0].id])
  {
    var admins := IdsOf(users, ADMIN, None);
    var managers := IdsOf(users, MANAGER, Some(branchId)) + IdsOf(users, MANAGER, None) + admins;
    var operators := IdsOf(users, OPERATOR, Some(branchId));
    forall y ensures y in managers <==> MaySign(users, branchId, y) {
      IdsHold(users, MANAGER, Some(branchId), y);
      IdsHold(users, MANAGER, None, y);
      IdsHold(users, ADMIN, None, y);
    }
    forall y ensures y in operators <==> OperatesIn(users, branchId, y) {
      IdsHold(users, OPERATOR, Some(branchId), y);
    }
    if managers != [] {
      assert managers[0] in managers;
    }
    if operators != [] {
      assert operators[0] in operators;
    }
  }

  lemma TurnOver(i: nat, n: nat)
    requires n >= 1
    ensures (i + n) % n == i % n
    ensures i < n ==> i % n == i
  {
    var q, q' := i / n, (i + n) / n;
    assert i == q * n + i % n && i + n == q' * n + (i + n) % n;
    OneQuotient(q + 1, i % n, q', (i + n) % n, n);
    if i < n {
      OneQuotient(q, i % n, 0, i, n);
    }
  }

  lemma MoreByOne(q: int, q': int, n: nat)
    requires q < q'
    ensures q' * n >= q * n + n
  {
    var d := q' - q - 1;
    assert d * n >= 0;
    assert q' * n == (q + 1 + d) * n == q * n + n + d * n;
  }

  lemma OneQuotient(q: int, r: nat, q': int, r': nat, n: nat)
    requires r < n && r' < n && q * n + r == q' * n + r'
    ensures q == q' && r == r'
  {
    if q < q' {
      MoreByOne(q, q', n);
    } else if q > q' {
      MoreByOne(q', q, n);
    }
  }

  /** Positions take turns through their pool. */
  lemma TurnsThroughPool(values: seq<Id>, index: nat, fallback: Id)
    ensures values == [] ==> PickByIndex(values, index, fallback) == fallback
    ensures index < |values| ==> PickByIndex(values, index, fallback) == values[index]
    ensures values != [] ==> PickByIndex(values, index + |values|, fallback) == PickByIndex(values, index, fallback)
  {
    if values != [] {
      TurnOver(index, |values|);
    }
  }
}
