/**
 What the listing and the dashboard answer, told from the query, the caller and the table alone:
 which queries are accepted, which rows a page holds, and what each figure adds up.
 */
module ReportAnswers {
  import opened Wrappers
  import opened LedgerTables
  import opened BranchAccess
  import opened CashMovements
  import opened Listing
  import opened Stats

  /** Both dates are dates, if given, and not the wrong way round. */
  predicate GoodDates(from: DateArg, to: DateArg) {
    !from.NotADate? && !to.NotADate? && (from.At? && to.At? ==> from.t <= to.t)
  }

  /** A tied caller reads its own branch, any other the branch asked for or all of them. */
  predicate GoodScope(branches: Branches, caller: Caller, requested: Option<Id>) {
    if Tied(caller) then
      && caller.branchId.Some? && Owned(branches, caller, caller.branchId.value)
      && (requested.Some? ==> requested == caller.branchId)
    else requested.Some? ==> Owned(branches, caller, requested.value)
  }

  lemma ScopeResolves(branches: Branches, caller: Caller, requested: Option<Id>)
    ensures ResolveForFilter(branches, caller, requested).Success? <==> GoodScope(branches, caller, requested)
    ensures GoodScope(branches, caller, requested) ==>
              ResolveForFilter(branches, caller, requested) ==
                Success(if Tied(caller) then caller.branchId else requested)
  {
  }

  /** The row is of the caller's organization, in the branch and between the dates asked for. */
  predicate InScope(caller: Caller, requested: Option<Id>, from: Option<nat>, to: Option<nat>, m: Movement) {
    && m.organizationId == caller.organizationId
    && (Tied(caller) ==> caller.branchId == Some(m.branchId))
    && (requested.Some? ==> requested == Some(m.branchId))
    && (from.Some? ==> m.createdAt >= from.value)
    && (to.Some? ==> m.createdAt <= to.value)
  }

  function Given(d: DateArg): Option<nat> {
    if d.At? then Some(d.t) else None
  }

  // ---------------------------------------------------------------- the listing

  predicate Asked(caller: Caller, q: ListQuery, m: Movement) {
    InScope(caller, q.branchId, Given(q.from), Given(q.to), m) && (q.status.Some? ==> q.status == Some(m.status))
  }

  /** How many rows are asked for. */
  function TotalAsked(rows: Rows, caller: Caller, q: ListQuery): nat {
    if rows == [] then 0 else (if Asked(caller, q, rows[0]) then 1 else 0) + TotalAsked(rows[1..], caller, q)
  }

  /** How many of them are newer than `m`, or as new and of a larger id. */
  function Ahead(rows: Rows, caller: Caller, q: ListQuery, m: Movement): nat {
    if rows == [] then 0
    else
      var x := rows[0];
      (if Asked(caller, q, x)
       && (x.createdAt > m.createdAt || (x.createdAt == m.createdAt && x.id > m.id)) then 1 else 0)
      + Ahead(rows[1..], caller, q, m)
  }

  function RankIn(rows: Rows, m: Movement): nat {
    if rows == [] then 0 else (if Before(rows[0], m) then 1 else 0) + RankIn(rows[1..], m)
  }

  lemma {:induction false} PlaceRank(x: Movement, sorted: Rows, m: Movement)
    ensures RankIn(Place(x, sorted), m) == RankIn(sorted, m) + if Before(x, m) then 1 else 0
    decreases |sorted|
  {
    if sorted == [] || Before(x, sorted[0]) {
      assert ([x] + sorted)[1..] == sorted;
    } else {
      PlaceRank(x, sorted[1..], m);
      assert ([sorted[0]] + Place(x, sorted[1..]))[1..] == Place(x, sorted[1..]);
    }
  }

  lemma {:induction false} SortedRank(rows: Rows, m: Movement)
    ensures RankIn(Sorted(rows), m) == RankIn(rows, m)
    decreases |rows|
  {
    if rows != [] {
      SortedRank(rows[1..], m);
      PlaceRank(rows[0], Sorted(rows[1..]), m);
    }
  }

  lemma {:induction false} NoneAhead(rows: Rows, m: Movement)
    requires forall x :: x in rows ==> !Before(x, m)
    ensures RankIn(rows, m) == 0
    decreases |rows|
  {
    if rows != [] {
      assert rows[0] in rows;
      NoneAhead(rows[1..], m);
    }
  }

  /** In an ordered list the rank of a row is its place. */
  lemma {:induction false} RankIsPlace(all: Rows, i: nat)
    requires Ordered(all) && i < |all|
    ensures RankIn(all, all[i]) == i
    decreases |all|
  {
    assert forall x :: x in all[1..] ==> Before(all[0], x);
    if i == 0 {
      NoneAhead(all[1..], all[0]);
    } else {
      assert all[i] == all[1..][i - 1];
      RankIsPlace(all[1..], i - 1);
    }
  }

  lemma {:induction false} MatchingAsked(rows: Rows, f: Filter, caller: Caller, q: ListQuery, m: Movement)
    requires forall x :: Matches(f, x) <==> Asked(caller, q, x)
    ensures |Matching(rows, f)| == TotalAsked(rows, caller, q)
    ensures RankIn(Matching(rows, f), m) == Ahead(rows, caller, q, m)
    decreases |rows|
  {
    if rows != [] {
      MatchingAsked(rows[1..], f, caller, q, m);
      assert ([rows[0]] + Matching(rows[1..], f))[1..] == Matching(rows[1..], f);
      assert [] + Matching(rows[1..], f) == Matching(rows[1..], f);
    }
  }

  /** A window of an ordered list holds exactly the rows whose rank falls in it. */
  lemma WindowByRank(all: Rows, skip: nat, take: nat, m: Movement)
    requires Ordered(all)
    ensures m in Window(all, skip, take) <==> m in all && skip <= RankIn(all, m) < skip + take
  {
    var w := Window(all, skip, take);
    if m in w {
      var i :| 0 <= i < |w| && w[i] == m;
      assert all[skip + i] == m;
      RankIsPlace(all, skip + i);
    }
    if m in all && skip <= RankIn(all, m) < skip + take {
      var i :| 0 <= i < |all| && all[i] == m;
      RankIsPlace(all, i);
      assert w[i - skip] == m;
    }
  }

  lemma {:induction false} OrderedSlice(all: Rows, skip: nat, take: nat)
    requires Ordered(all)
    ensures Ordered(Window(all, skip, take))
    decreases |all|
  {
    if all != [] {
      var rest := all[1..];
      if skip > 0 {
        OrderedSlice(rest, skip - 1, take);
        assert Window(all, skip, take) == Window(rest, skip - 1, take);
      } else if take > 0 {
        OrderedSlice(rest, 0, take - 1);
        assert Window(all, 0, take) == [all[0]] + Window(rest, 0, take - 1);
        assert Window(all, 0, take)[1..] == Window(rest, 0, take - 1);
        assert forall x :: x in Window(rest, 0, take - 1) ==> x in rest;
      }
    }
  }

  /** Which rows the filter of an accepted query matches. */
  lemma FilterIsAsked(branches: Branches, caller: Caller, q: ListQuery)
    requires GoodDates(q.from, q.to) && GoodScope(branches, caller, q.branchId)
    ensures ParseRange(q.from, q.to).Success? && ResolveForFilter(branches, caller, q.branchId).Success?
    ensures forall x :: Matches(QueryFilter(branches, caller, q), x) <==> Asked(caller, q, x)
  {
    ScopeResolves(branches, caller, q.branchId);
  }

  /** A listing is accepted exactly with good dates and scope; bad dates are told first. */
  lemma ListAccepted(rows: Rows, branches: Branches, caller: Caller, q: ListQuery)
    requires ValidPaging(q)
    ensures var r := FindAll(rows, branches, caller, q);
            && (r.Success? <==> GoodDates(q.from, q.to) && GoodScope(branches, caller, q.branchId))
            && (r == Failure(InvalidDateRange) <==> !GoodDates(q.from, q.to))
  {
    ScopeResolves(branches, caller, q.branchId);
  }

  /** The page and its size default to 1 and 20 and are echoed; the total counts all rows asked for, and
      the number of pages is just enough for them. */
  lemma ListMeta(rows: Rows, branches: Branches, caller: Caller, q: ListQuery)
    requires ValidPaging(q) && FindAll(rows, branches, caller, q).Success?
    ensures var a := FindAll(rows, branches, caller, q).value;
            && (if q.page.Some? then q.page == Some(a.page) else a.page == 1)
            && (if q.pageSize.Some? then q.pageSize == Some(a.pageSize) else a.pageSize == 20)
            && a.total == TotalAsked(rows, caller, q)
            && (if a.total == 0 then a.totalPages == 0
                else a.totalPages >= 1 && (a.totalPages - 1) * a.pageSize < a.total <= a.totalPages * a.pageSize)
  {
    ListAccepted(rows, branches, caller, q);
    FilterIsAsked(branches, caller, q);
    var f := QueryFilter(branches, caller, q);
    var a := FindAll(rows, branches, caller, q).value;
    assert a.total == |Matching(rows, f)|;
    if rows != [] {
      MatchingAsked(rows, f, caller, q, rows[0]);
    }
    if a.total > 0 {
      CeilDivision(a.total, a.pageSize);
    }
  }

  lemma SliceData(rows: Rows, f: Filter, caller: Caller, q: ListQuery, skip: nat, take: nat, m: Movement)
    requires UniqueIds(rows)
    requires forall x :: Matches(f, x) <==> Asked(caller, q, x)
    ensures var data := Window(Sorted(Matching(rows, f)), skip, take);
            && Ordered(data)
            && (m in data <==> m in rows && Asked(caller, q, m) && skip <= Ahead(rows, caller, q, m) < skip + take)
  {
    var found := Matching(rows, f);
    MatchingIsSubset(rows, f);
    SortedKeeps(found);
    MatchingAsked(rows, f, caller, q, m);
    SortedRank(found, m);
    WindowByRank(Sorted(found), skip, take, m);
    OrderedSlice(Sorted(found), skip, take);
  }

  lemma PageData(rows: Rows, f: Filter, caller: Caller, q: ListQuery, page: nat, pageSize: nat, m: Movement)
    requires UniqueIds(rows) && page >= 1
    requires forall x :: Matches(f, x) <==> Asked(caller, q, x)
    ensures var data := Page(rows, f, page, pageSize);
            && Ordered(data)
            && (m in data <==>
                  && m in rows && Asked(caller, q, m)
                  && (page - 1) * pageSize <= Ahead(rows, caller, q, m) < page * pageSize)
  {
    SliceData(rows, f, caller, q, (page - 1) * pageSize, pageSize, m);
    PageEnd(page, pageSize);
  }

  /** The rows on a page are exactly those asked for that have at least (page - 1) * size and fewer than
      page * size others ahead of them; they are in order. */
  lemma ListData(rows: Rows, branches: Branches, caller: Caller, q: ListQuery, m: Movement)
    requires UniqueIds(rows) && ValidPaging(q) && FindAll(rows, branches, caller, q).Success?
    ensures var a := FindAll(rows, branches, caller, q).value;
            && a.page >= 1 && Ordered(a.data)
            && (m in a.data <==>
                  && m in rows && Asked(caller, q, m)
                  && (a.page - 1) * a.pageSize <= Ahead(rows, caller, q, m) < a.page * a.pageSize)
  {
    ListAccepted(rows, branches, caller, q);
    FilterIsAsked(branches, caller, q);
    var f := QueryFilter(branches, caller, q);
    var a := FindAll(rows, branches, caller, q).value;
    assert a.data == Page(rows, f, a.page, a.pageSize);
    PageData(rows, f, caller, q, a.page, a.pageSize, m);
  }

  lemma PageEnd(page: nat, pageSize: nat)
    requires page >= 1
    ensures (page - 1) * pageSize + pageSize == page * pageSize
  {
  }

  /** A query without a page, or without a size, has the answer of page 1, or of size 20. */
  lemma ListDefaults(rows: Rows, branches: Branches, caller: Caller, q: ListQuery)
    requires ValidPaging(q)
    ensures q.page == None ==>
            FindAll(rows, branches, caller, q) == FindAll(rows, branches, caller, q.(page := Some(1)))
    ensures q.pageSize == None ==>
              FindAll(rows, branches, caller, q) == FindAll(rows, branches, caller, q.(pageSize := Some(20)))
  {
  }

  // ---------------------------------------------------------------- the dashboard

  /** Sum of the amounts of one type in scope. */
  function TotalOf(rows: Rows, caller: Caller, requested: Option<Id>, from: Option<nat>, to: Option<nat>,
                   kind: Kind): int {
    if rows == [] then 0
    else (if InScope(caller, requested, from, to, rows[0]) && rows[0].kind == kind then rows[0].amount else 0)
         + TotalOf(rows[1..], caller, requested, from, to, kind)
  }

  /** Number of rows of one status in scope. */
  function CountOf(rows: Rows, caller: Caller, requested: Option<Id>, from: Option<nat>, to: Option<nat>,
                   s: Status): nat {
    if rows == [] then 0
    else (if InScope(caller, requested, from, to, rows[0]) && rows[0].status == s then 1 else 0)
         + CountOf(rows[1..], caller, requested, from, to, s)
  }

  lemma {:induction false} KindTotal(rows: Rows, f: Filter, caller: Caller, requested: Option<Id>, kind: Kind)
    requires forall x :: Matches(f, x) <==> InScope(caller, requested, f.from, f.to, x) && x.kind == kind
    ensures Amounts(Matching(rows, f)) == TotalOf(rows, caller, requested, f.from, f.to, kind)
    decreases |rows|
  {
    if rows != [] {
      KindTotal(rows[1..], f, caller, requested, kind);
      assert rows == [rows[0]] + rows[1..];
      MatchingCons(rows[0], rows[1..], f);
    }
  }

  lemma {:induction false} StatusCount(rows: Rows, f: Filter, caller: Caller, requested: Option<Id>, s: Status)
    requires forall x :: Matches(f, x) <==> InScope(caller, requested, f.from, f.to, x) && x.status == s
    ensures |Matching(rows, f)| == CountOf(rows, caller, requested, f.from, f.to, s)
    decreases |rows|
  {
    if rows != [] {
      StatusCount(rows[1..], f, caller, requested, s);
    }
  }

  /** The dashboard is accepted exactly with good dates and scope. It covers the dates given, or without
      any the last 30 days, and names the branch it covers. */
  lemma StatsRange(rows: Rows, branches: Branches, caller: Caller, q: StatsQuery, now: nat)
    ensures var r := GetStats(rows, branches, caller, q, now);
            && (r.Success? <==> GoodDates(q.from, q.to) && GoodScope(branches, caller, q.branchId))
            && (r == Failure(InvalidDateRange) <==> !GoodDates(q.from, q.to))
            && (r.Success? ==>
                  && r.value.branchId == (if Tied(caller) then caller.branchId else q.branchId)
                  && if q.from == Omitted && q.to == Omitted then
                       && r.value.to == Some(now)
                       && r.value.from == Some(if now >= 2_592_000_000 then now - 2_592_000_000 else 0)
                     else r.value.from == Given(q.from) && r.value.to == Given(q.to))
  {
    ScopeResolves(branches, caller, q.branchId);
  }

  /** Each figure, over the dates the answer names. */
  lemma StatsFigures(rows: Rows, branches: Branches, caller: Caller, q: StatsQuery, now: nat, s: Status)
    requires GetStats(rows, branches, caller, q, now).Success?
    ensures var a := GetStats(rows, branches, caller, q, now).value;
            && a.cards.totalIn == TotalOf(rows, caller, q.branchId, a.from, a.to, IN)
            && a.cards.totalOut == TotalOf(rows, caller, q.branchId, a.from, a.to, OUT)
            && a.cards.net == a.cards.totalIn - a.cards.totalOut
            && CountOf(rows, caller, q.branchId, a.from, a.to, s) ==
               match s {
                 case PENDING => a.cards.pending
                 case APPROVED => a.cards.approved
                 case DELIVERED => a.cards.delivered
                 case REJECTED => a.cards.rejected
               }
  {
    StatsRange(rows, branches, caller, q, now);
    var a := GetStats(rows, branches, caller, q, now).value;
    var f := Filter(caller.organizationId, a.branchId, None, None, a.from, a.to);
    KindTotal(rows, f.(kind := Some(IN)), caller, q.branchId, IN);
    KindTotal(rows, f.(kind := Some(OUT)), caller, q.branchId, OUT);
    StatusCount(rows, f.(status := Some(s)), caller, q.branchId, s);
  }
}
