/**
 Tenants do not see each other: what a caller gets from the list, the dashboard or a transition
 depends only on its own organization (and, for reads, only on its branch scope), up to which of
 two 404 codes names a branch that is not there.
 */
module Noninterference {
  import opened Wrappers
  import opened LedgerTables
  import opened BranchAccess
  import opened CashMovements
  import opened Listing
  import opened Stats

  /** The same branches of the organization; nothing is said of others. */
  ghost predicate SameBranches(a: Branches, b: Branches, organizationId: Id) {
    && (forall k :: k in a && a[k].organizationId == organizationId ==> k in b && b[k] == a[k])
    && (forall k :: k in b && b[k].organizationId == organizationId ==> k in a && a[k] == b[k])
  }

  /** Everything the caller may read. */
  function Scope(caller: Caller): Filter {
    Filter(caller.organizationId, if Tied(caller) then caller.branchId else None, None, None, None, None)
  }

  /** The same movements in the caller's scope, stored in whatever order. */
  ghost predicate SameScope(a: Rows, b: Rows, caller: Caller) {
    multiset(Matching(a, Scope(caller))) == multiset(Matching(b, Scope(caller)))
  }

  /** The two codes of a missing branch, made one. */
  function Blur<T>(r: Result<T, Error>): Result<T, Error> {
    if r.Failure? && r.error == ResourceNotFound then Failure(BranchNotFound) else r
  }

  lemma SameResolution(a: Branches, b: Branches, caller: Caller, requested: Option<Id>)
    requires SameBranches(a, b, caller.organizationId)
    ensures Blur(ResolveForFilter(a, caller, requested)) == Blur(ResolveForFilter(b, caller, requested))
  {
  }

  lemma SameAccess(a: Branches, b: Branches, caller: Caller, branchId: Id)
    requires SameBranches(a, b, caller.organizationId)
    ensures Blur(AssertAccessible(a, caller, branchId)) == Blur(AssertAccessible(b, caller, branchId))
  {
    SameResolution(a, b, caller, None);
  }

  /** A resolved filter never leaves the scope. */
  lemma ResolvedWithinScope(branches: Branches, caller: Caller, requested: Option<Id>, f: Filter, m: Movement)
    requires ResolveForFilter(branches, caller, requested).Success?
    requires f.organizationId == caller.organizationId
    requires f.branchId == ResolveForFilter(branches, caller, requested).value
    ensures Matches(f, m) ==> Matches(Scope(caller), m)
  {
  }

  lemma {:induction false} MatchingTwice(rows: Rows, wide: Filter, f: Filter)
    requires forall m :: Matches(f, m) ==> Matches(wide, m)
    ensures Matching(Matching(rows, wide), f) == Matching(rows, f)
    decreases |rows|
  {
    if rows != [] {
      MatchingTwice(rows[1..], wide, f);
      assert ([rows[0]] + Matching(rows[1..], wide))[1..] == Matching(rows[1..], wide);
      assert [] + Matching(rows[1..], wide) == Matching(rows[1..], wide);
    }
  }

  lemma SameMatching(a: Rows, b: Rows, caller: Caller, f: Filter)
    requires SameScope(a, b, caller) && UniqueIds(a) && UniqueIds(b)
    requires forall m :: Matches(f, m) ==> Matches(Scope(caller), m)
    ensures Sorted(Matching(a, f)) == Sorted(Matching(b, f))
    ensures |Matching(a, f)| == |Matching(b, f)| && Amounts(Matching(a, f)) == Amounts(Matching(b, f))
  {
    MatchingTwice(a, Scope(caller), f);
    MatchingTwice(b, Scope(caller), f);
    MatchingMultiset(Matching(a, Scope(caller)), Matching(b, Scope(caller)), f);
    MatchingIsSubset(a, f);
    MatchingIsSubset(b, f);
    SortedKeeps(Matching(a, f));
    SortedKeeps(Matching(b, f));
    OrderIsUnique(Sorted(Matching(a, f)), Sorted(Matching(b, f)));
    SortedLength(Matching(a, f));
    SortedLength(Matching(b, f));
    SortedAmounts(Matching(a, f));
    SortedAmounts(Matching(b, f));
  }

  lemma {:induction false} SortedAmounts(rows: Rows)
    ensures Amounts(Sorted(rows)) == Amounts(rows)
    decreases |rows|
  {
    if rows != [] {
      SortedAmounts(rows[1..]);
      PlaceAmounts(rows[0], Sorted(rows[1..]));
    }
  }

  lemma {:induction false} PlaceAmounts(m: Movement, sorted: Rows)
    ensures Amounts(Place(m, sorted)) == m.amount + Amounts(sorted)
    decreases |sorted|
  {
    if sorted != [] {
      if Before(m, sorted[0]) {
        assert ([m] + sorted)[1..] == sorted;
      } else {
        PlaceAmounts(m, sorted[1..]);
        assert ([sorted[0]] + Place(m, sorted[1..]))[1..] == Place(m, sorted[1..]);
      }
    }
  }

  /** The list depends only on the caller's organization and branch scope. */
  lemma ListNoninterference(rows1: Rows, branches1: Branches, rows2: Rows, branches2: Branches, caller: Caller,
                            q: ListQuery)
    requires ValidPaging(q) && UniqueIds(rows1) && UniqueIds(rows2)
    requires SameBranches(branches1, branches2, caller.organizationId) && SameScope(rows1, rows2, caller)
    ensures Blur(FindAll(rows1, branches1, caller, q)) == Blur(FindAll(rows2, branches2, caller, q))
  {
    SameResolution(branches1, branches2, caller, q.branchId);
    if FindAll(rows1, branches1, caller, q).Success? {
      var f := QueryFilter(branches1, caller, q);
      assert f == QueryFilter(branches2, caller, q);
      forall m | Matches(f, m) ensures Matches(Scope(caller), m) {
        ResolvedWithinScope(branches1, caller, q.branchId, f, m);
      }
      SameMatching(rows1, rows2, caller, f);
    }
  }

  lemma SameCards(rows1: Rows, rows2: Rows, caller: Caller, f: Filter)
    requires UniqueIds(rows1) && UniqueIds(rows2) && SameScope(rows1, rows2, caller)
    requires f.status.None? && f.kind.None? && forall m :: Matches(f, m) ==> Matches(Scope(caller), m)
    ensures CardsFor(rows1, f) == CardsFor(rows2, f)
  {
    SameMatching(rows1, rows2, caller, f.(kind := Some(IN)));
    SameMatching(rows1, rows2, caller, f.(kind := Some(OUT)));
    SameMatching(rows1, rows2, caller, f.(status := Some(PENDING)));
    SameMatching(rows1, rows2, caller, f.(status := Some(APPROVED)));
    SameMatching(rows1, rows2, caller, f.(status := Some(DELIVERED)));
    SameMatching(rows1, rows2, caller, f.(status := Some(REJECTED)));
  }

  /** So does the dashboard. */
  lemma StatsNoninterference(rows1: Rows, branches1: Branches, rows2: Rows, branches2: Branches,
                             caller: Caller, q: StatsQuery, now: nat)
    requires UniqueIds(rows1) && UniqueIds(rows2)
    requires SameBranches(branches1, branches2, caller.organizationId) && SameScope(rows1, rows2, caller)
    ensures Blur(GetStats(rows1, branches1, caller, q, now)) == Blur(GetStats(rows2, branches2, caller, q, now))
  {
    SameResolution(branches1, branches2, caller, q.branchId);
    if GetStats(rows1, branches1, caller, q, now).Success? {
      var a := GetStats(rows1, branches1, caller, q, now).value;
      var f := Filter(caller.organizationId, a.branchId, None, None, a.from, a.to);
      forall m | Matches(f, m) ensures Matches(Scope(caller), m) {
        ResolvedWithinScope(branches1, caller, q.branchId, f, m);
      }
      SameCards(rows1, rows2, caller, f);
    }
  }

  // ---------------------------------------------------------------- transitions

  /** The organization's movement of that id, if there is one. */
  function OwnRow(rows: Rows, organizationId: Id, id: Id): Option<Movement> {
    var row := FindRow(rows, id);
    if row.Some? && row.value.organizationId == organizationId then row else None
  }

  ghost predicate SameOwnRows(a: Rows, b: Rows, organizationId: Id) {
    forall id :: OwnRow(a, organizationId, id) == OwnRow(b, organizationId, id)
  }

  lemma {:induction false} FindAfterUpdate(rows: Rows, actor: Id, id: Id, a: Action, now: nat, k: Id)
    ensures FindRow(CommitTransition(rows, actor, id, a, now), k) ==
            var row := FindRow(rows, k);
            if row.Some? && k == id
              then Some(UpdatedRow(row.value, Target(a), ApprovedPatch(a, actor), DeliveredPatch(a, actor), now))
            else row
    decreases |rows|
  {
    if rows != [] {
      FindAfterUpdate(rows[1..], actor, id, a, now, k);
      assert CommitTransition(rows, actor, id, a, now)[1..] == CommitTransition(rows[1..], actor, id, a, now);
    }
  }

  /** A transition gives the same outcome on two databases that agree on the caller's organization,
      leaves them agreeing, and leaves every other organization's movements as they were; a
      foreign movement and an absent one give the same error. */
  lemma TransitionNoninterference(rows1: Rows, branches1: Branches, rows2: Rows, branches2: Branches,
                                  caller: Caller, id: Id, a: Action, now: nat, other: Id)
    requires SameBranches(branches1, branches2, caller.organizationId)
    requires SameOwnRows(rows1, rows2, caller.organizationId)
    ensures var (next1, r1) := Transition(rows1, branches1, caller, id, a, now);
            var (next2, r2) := Transition(rows2, branches2, caller, id, a, now);
            && Blur(r1) == Blur(r2)
            && SameOwnRows(next1, next2, caller.organizationId)
            && (OwnRow(rows1, caller.organizationId, id).None? ==> r1 == r2 == Failure(ResourceNotFound))
            && (other != caller.organizationId ==> SameOwnRows(rows1, next1, other))
  {
    var (next1, r1) := Transition(rows1, branches1, caller, id, a, now);
    var (next2, r2) := Transition(rows2, branches2, caller, id, a, now);
    var own := OwnRow(rows1, caller.organizationId, id);
    assert own == OwnRow(rows2, caller.organizationId, id);
    if own.Some? {
      SameAccess(branches1, branches2, caller, own.value.branchId);
    }
    forall k
      ensures OwnRow(next1, caller.organizationId, k) == OwnRow(next2, caller.organizationId, k)
      ensures other != caller.organizationId ==> OwnRow(rows1, other, k) == OwnRow(next1, other, k)
    {
      assert OwnRow(rows1, caller.organizationId, k) == OwnRow(rows2, caller.organizationId, k);
      FindAfterUpdate(rows1, caller.id, id, a, now, k);
      FindAfterUpdate(rows2, caller.id, id, a, now, k);
    }
  }
}
