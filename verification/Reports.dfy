/** Reading the ledger: the paginated listing and the dashboard aggregates. */
module Listing {
  import opened Wrappers
  import opened LedgerTables
  import opened BranchAccess
  import opened CashMovements

  /** A `where` clause; a missing part does not restrict. */
  datatype Filter = Filter(
    organizationId: Id, branchId: Option<Id>, status: Option<Status>, kind: Option<Kind>,
    from: Option<nat>, to: Option<nat>)

  predicate Matches(f: Filter, m: Movement) {
    && m.organizationId == f.organizationId
    && (f.branchId.Some? ==> m.branchId == f.branchId.value)
    && (f.status.Some? ==> m.status == f.status.value)
    && (f.kind.Some? ==> m.kind == f.kind.value)
    && (f.from.Some? ==> f.from.value <= m.createdAt)
    && (f.to.Some? ==> m.createdAt <= f.to.value)
  }

  function Matching(rows: Rows, f: Filter): Rows {
    if rows == [] then [] else (if Matches(f, rows[0]) then [rows[0]] else []) + Matching(rows[1..], f)
  }

  /** `orderBy: [{ createdAt: 'desc' }, { id: 'desc' }]` */
  predicate Before(a: Movement, b: Movement) {
    a.createdAt > b.createdAt || (a.createdAt == b.createdAt && a.id > b.id)
  }

  function Place(m: Movement, sorted: Rows): Rows {
    if sorted == [] then [m]
    else if Before(m, sorted[0]) then [m] + sorted
    else [sorted[0]] + Place(m, sorted[1..])
  }

  function Sorted(rows: Rows): Rows {
    if rows == [] then [] else Place(rows[0], Sorted(rows[1..]))
  }

  /** `skip` and `take` */
  function Window(rows: Rows, skip: nat, take: nat): Rows {
    if skip >= |rows| then []
    else if skip + take >= |rows| then rows[skip..]
    else rows[skip..skip + take]
  }

  function Page(rows: Rows, f: Filter, page: nat, pageSize: nat): Rows
    requires page >= 1
  {
    Window(Sorted(Matching(rows, f)), (page - 1) * pageSize, pageSize)
  }

  function TotalPages(total: nat, pageSize: nat): nat
    requires pageSize >= 1
  {
    if total == 0 then 0 else (total + pageSize - 1) / pageSize
  }

  /** A date argument: omitted, not a date, or a moment. */
  datatype DateArg = Omitted | NotADate | At(t: nat)

  function Moment(d: DateArg): Option<nat> {
    if d.At? then Some(d.t) else None
  }

  function ParseRange(from: DateArg, to: DateArg): Result<(Option<nat>, Option<nat>), Error> {
    if from.NotADate? || to.NotADate? then Failure(InvalidDateRange)
    else if from.At? && to.At? && from.t > to.t then Failure(InvalidDateRange)
    else Success((Moment(from), Moment(to)))
  }

  datatype ListQuery = ListQuery(
    branchId: Option<Id>, status: Option<Status>, from: DateArg, to: DateArg,
    page: Option<nat>, pageSize: Option<nat>)

  /** The bounds the query validation puts on a page request. */
  predicate ValidPaging(q: ListQuery) {
    (q.page.Some? ==> q.page.value >= 1) && (q.pageSize.Some? ==> q.pageSize.value >= 1)
  }

  datatype ListAnswer = ListAnswer(data: Rows, page: nat, pageSize: nat, total: nat, totalPages: nat)

  function FindAll(rows: Rows, branches: Branches, caller: Caller, q: ListQuery): Result<ListAnswer, Error>
    requires ValidPaging(q)
  {
    var (from, to) :- ParseRange(q.from, q.to);
    var branchId :- ResolveForFilter(branches, caller, q.branchId);
    var page := if q.page.Some? then q.page.value else 1;
    var pageSize := if q.pageSize.Some? then q.pageSize.value else 20;
    var f := Filter(caller.organizationId, branchId, q.status, None, from, to);
    var total := |Matching(rows, f)|;
    Success(ListAnswer(Page(rows, f, page, pageSize), page, pageSize, total, TotalPages(total, pageSize)))
  }

  // ---------------------------------------------------------------- the order

  ghost predicate Ordered(rows: Rows) {
    rows == [] || ((forall x :: x in rows[1..] ==> Before(rows[0], x)) && Ordered(rows[1..]))
  }

  lemma {:induction false} PlaceHolds(m: Movement, sorted: Rows)
    ensures multiset(Place(m, sorted)) == multiset(sorted) + multiset{m}
    ensures forall x :: x in Place(m, sorted) <==> x == m || x in sorted
    decreases |sorted|
  {
    if sorted != [] {
      assert sorted == [sorted[0]] + sorted[1..];
      if !Before(m, sorted[0]) {
        PlaceHolds(m, sorted[1..]);
      }
    }
  }

  lemma {:induction false} PlaceOrders(m: Movement, sorted: Rows)
    requires Ordered(sorted) && forall x :: x in sorted ==> x.id != m.id
    ensures Ordered(Place(m, sorted))
    decreases |sorted|
  {
    if sorted != [] {
      var rest := sorted[1..];
      if Before(m, sorted[0]) {
        assert ([m] + sorted)[1..] == sorted;
        assert forall x :: x in sorted ==> x == sorted[0] || x in rest;
      } else {
        PlaceOrders(m, rest);
        PlaceHolds(m, rest);
        assert ([sorted[0]] + Place(m, rest))[1..] == Place(m, rest);
      }
    }
  }

  lemma HeadIsApart(rows: Rows)
    requires UniqueIds(rows) && rows != []
    ensures UniqueIds(rows[1..])
    ensures forall x :: x in rows[1..] ==> x.id != rows[0].id
  {
  }

  /** The listing order is strict and holds exactly the given rows. */
  lemma {:induction false} SortedKeeps(rows: Rows)
    requires UniqueIds(rows)
    ensures Ordered(Sorted(rows))
    ensures multiset(Sorted(rows)) == multiset(rows)
    ensures forall x :: x in Sorted(rows) <==> x in rows
    decreases |rows|
  {
    if rows != [] {
      SortedKeeps(rows[1..]);
      assert rows == [rows[0]] + rows[1..];
      var rest := Sorted(rows[1..]);
      HeadIsApart(rows);
      PlaceOrders(rows[0], rest);
      PlaceHolds(rows[0], rest);
    }
  }

  /** There is no other way to order them: two strictly ordered lists of the same rows are equal. */
  lemma {:induction false} OrderIsUnique(a: Rows, b: Rows)
    requires Ordered(a) && Ordered(b) && multiset(a) == multiset(b)
    ensures a == b
    decreases |a|
  {
    if a == [] {
      assert |multiset(b)| == 0;
    } else {
      assert a[0] in multiset(b);
      assert b != [] && b[0] in multiset(a);
      SameHead(a, b);
      TailMultiset(a);
      TailMultiset(b);
      OrderIsUnique(a[1..], b[1..]);
    }
  }

  lemma TailMultiset(a: Rows)
    requires a != []
    ensures multiset(a[1..]) == multiset(a) - multiset{a[0]}
  {
    assert a == [a[0]] + a[1..];
  }

  lemma SameHead(a: Rows, b: Rows)
    requires a != [] && b != [] && Ordered(a) && Ordered(b)
    requires a[0] in b && b[0] in a
    ensures a[0] == b[0]
  {
    assert a == [a[0]] + a[1..] && b == [b[0]] + b[1..];
  }

  lemma {:induction false} MatchingIsSubset(rows: Rows, f: Filter)
    ensures forall x :: x in Matching(rows, f) <==> x in rows && Matches(f, x)
    ensures UniqueIds(rows) ==> UniqueIds(Matching(rows, f))
    decreases |rows|
  {
    if rows != [] {
      MatchingIsSubset(rows[1..], f);
      var rest := Matching(rows[1..], f);
      assert rows == [rows[0]] + rows[1..];
      if UniqueIds(rows) {
        forall i | 0 <= i < |rest| ensures rest[i].id != rows[0].id {
          assert rest[i] in rows[1..];
        }
      }
    }
  }

  lemma {:induction false} MatchingMultiset(rows: Rows, rows': Rows, f: Filter)
    requires multiset(rows) == multiset(rows')
    ensures multiset(Matching(rows, f)) == multiset(Matching(rows', f))
  {
    forall m ensures multiset(Matching(rows, f))[m] == multiset(Matching(rows', f))[m] {
      MatchingCount(rows, f, m);
      MatchingCount(rows', f, m);
    }
  }

  lemma {:induction false} MatchingCount(rows: Rows, f: Filter, m: Movement)
    ensures multiset(Matching(rows, f))[m] == if Matches(f, m) then multiset(rows)[m] else 0
    decreases |rows|
  {
    if rows != [] {
      assert rows == [rows[0]] + rows[1..];
      MatchingCount(rows[1..], f, m);
    }
  }

  // ---------------------------------------------------------------- the pages

  /** Pages 1 to n, one after the other. */
  function FirstPages(rows: Rows, f: Filter, n: nat, pageSize: nat): Rows {
    if n == 0 then [] else FirstPages(rows, f, n - 1, pageSize) + Page(rows, f, n, pageSize)
  }

  function Prefix(all: Rows, n: nat): Rows {
    if n <= |all| then all[..n] else all
  }

  lemma PrefixGrows(all: Rows, skip: nat, take: nat)
    ensures Prefix(all, skip + take) == Prefix(all, skip) + Window(all, skip, take)
  {
  }

  /** The same on any list that is already sorted. */
  function FirstWindows(all: Rows, n: nat, pageSize: nat): Rows {
    if n == 0 then [] else FirstWindows(all, n - 1, pageSize) + Window(all, (n - 1) * pageSize, pageSize)
  }

  lemma {:induction false} WindowsArePrefix(all: Rows, n: nat, pageSize: nat)
    ensures FirstWindows(all, n, pageSize) == Prefix(all, n * pageSize)
  {
    if n > 0 {
      var skip := (n - 1) * pageSize;
      WindowsArePrefix(all, n - 1, pageSize);
      PrefixGrows(all, skip, pageSize);
      assert n * pageSize == skip + pageSize;
    }
  }

  lemma {:induction false} FirstPagesAreWindows(rows: Rows, f: Filter, n: nat, pageSize: nat)
    ensures FirstPages(rows, f, n, pageSize) == FirstWindows(Sorted(Matching(rows, f)), n, pageSize)
  {
    if n > 0 {
      FirstPagesAreWindows(rows, f, n - 1, pageSize);
    }
  }

  lemma FirstPagesArePrefix(rows: Rows, f: Filter, n: nat, pageSize: nat)
    ensures FirstPages(rows, f, n, pageSize) == Prefix(Sorted(Matching(rows, f)), n * pageSize)
  {
    FirstPagesAreWindows(rows, f, n, pageSize);
    WindowsArePrefix(Sorted(Matching(rows, f)), n, pageSize);
  }

  lemma CeilDivision(total: nat, pageSize: nat)
    requires pageSize >= 1 && total >= 1
    ensures var n := TotalPages(total, pageSize);
            n >= 1 && (n - 1) * pageSize < total <= n * pageSize
  {
    var n := (total + pageSize - 1) / pageSize;
    assert n * pageSize <= total + pageSize - 1 < (n + 1) * pageSize;
    assert (n + 1) * pageSize == n * pageSize + pageSize;
    assert (n - 1) * pageSize == n * pageSize - pageSize;
  }

  lemma PageBounds(p: nat, n: nat, pageSize: nat)
    requires p < n
    ensures p * pageSize + pageSize <= n * pageSize
  {
    assert (n - p - 1) * pageSize >= 0;
    assert n * pageSize == p * pageSize + pageSize + (n - p - 1) * pageSize;
  }

  lemma PageLength(total: nat, pageSize: nat, page: nat)
    requires pageSize >= 1 && page >= 1
    ensures var n := TotalPages(total, pageSize);
            var skip := (page - 1) * pageSize;
            && (page < n ==> skip + pageSize <= total)
            && (page == n ==> skip < total <= skip + pageSize)
            && (page > n ==> total <= skip)
  {
    var n := TotalPages(total, pageSize);
    if total > 0 {
      CeilDivision(total, pageSize);
      if page < n {
        PageBounds(page - 1, n - 1, pageSize);
      } else if page == n {
        assert n * pageSize == (n - 1) * pageSize + pageSize;
      } else {
        PageBounds(n - 1, page - 1, pageSize);
        assert n * pageSize == (n - 1) * pageSize + pageSize;
      }
    } else {
      assert (page - 1) * pageSize >= 0;
    }
  }

  lemma {:induction false} SortedLength(rows: Rows)
    ensures |Sorted(rows)| == |rows|
    decreases |rows|
  {
    if rows != [] {
      SortedLength(rows[1..]);
      PlaceLength(rows[0], Sorted(rows[1..]));
    }
  }

  lemma {:induction false} PlaceLength(m: Movement, sorted: Rows)
    ensures |Place(m, sorted)| == |sorted| + 1
    decreases |sorted|
  {
    if sorted != [] && !Before(m, sorted[0]) {
      PlaceLength(m, sorted[1..]);
    }
  }

  lemma WindowLength(rows: Rows, skip: nat, take: nat)
    ensures |Window(rows, skip, take)| ==
            if skip >= |rows| then 0 else if skip + take >= |rows| then |rows| - skip else take
  {
  }

  /** How long each page of a list is. */
  lemma OnePage(all: Rows, page: nat, pageSize: nat)
    requires pageSize >= 1 && page >= 1
    ensures var n := TotalPages(|all|, pageSize);
            var size := |Window(all, (page - 1) * pageSize, pageSize)|;
            && (page < n ==> size == pageSize)
            && (page == n ==> 1 <= size <= pageSize)
            && (page > n ==> size == 0)
  {
    PageLength(|all|, pageSize, page);
    WindowLength(all, (page - 1) * pageSize, pageSize);
  }

  lemma AllPages(rows: Rows, f: Filter, pageSize: nat)
    requires pageSize >= 1
    ensures FirstPages(rows, f, TotalPages(|Matching(rows, f)|, pageSize), pageSize) == Sorted(Matching(rows, f))
  {
    var total := |Matching(rows, f)|;
    SortedLength(Matching(rows, f));
    FirstPagesArePrefix(rows, f, TotalPages(total, pageSize), pageSize);
    if total > 0 {
      CeilDivision(total, pageSize);
    }
  }

  /** The pages 1..totalPages, put together, are exactly the matching rows in listing order; every
      page but the last is full, the last is not empty, and later pages are. */
  lemma PagesPartition(rows: Rows, f: Filter, pageSize: nat, page: nat)
    requires pageSize >= 1 && page >= 1
    ensures var n := TotalPages(|Matching(rows, f)|, pageSize);
            && FirstPages(rows, f, n, pageSize) == Sorted(Matching(rows, f))
            && (page < n ==> |Page(rows, f, page, pageSize)| == pageSize)
            && (page == n ==> 1 <= |Page(rows, f, page, pageSize)| <= pageSize)
            && (page > n ==> Page(rows, f, page, pageSize) == [])
  {
    AllPages(rows, f, pageSize);
    SortedLength(Matching(rows, f));
    OnePage(Sorted(Matching(rows, f)), page, pageSize);
  }

  /** The filter a query stands for. */
  function QueryFilter(branches: Branches, caller: Caller, q: ListQuery): Filter
    requires ParseRange(q.from, q.to).Success? && ResolveForFilter(branches, caller, q.branchId).Success?
  {
    var (from, to) := ParseRange(q.from, q.to).value;
    Filter(caller.organizationId, ResolveForFilter(branches, caller, q.branchId).value, q.status, None, from, to)
  }

  /** The data of the answers to the query for pages 1 to n, one after the other. */
  function AnsweredPages(rows: Rows, branches: Branches, caller: Caller, q: ListQuery, n: nat): Rows
    requires ValidPaging(q)
  {
    if n == 0 then []
    else
      var answer := FindAll(rows, branches, caller, q.(page := Some(n)));
      AnsweredPages(rows, branches, caller, q, n - 1) + if answer.Success? then answer.value.data else []
  }

  lemma {:induction false} AnsweredPagesArePages(rows: Rows, branches: Branches, caller: Caller, q: ListQuery, n: nat)
    requires ValidPaging(q) && FindAll(rows, branches, caller, q).Success?
    ensures AnsweredPages(rows, branches, caller, q, n) ==
            FirstPages(rows, QueryFilter(branches, caller, q), n, FindAll(rows, branches, caller, q).value.pageSize)
  {
    if n > 0 {
      AnsweredPagesArePages(rows, branches, caller, q, n - 1);
    }
  }

  /** For one table and one query, asking for pages 1 to totalPages lists every matching row exactly
      once, `total` rows in all, in the only strict order there is. */
  lemma ListingIsExact(rows: Rows, branches: Branches, caller: Caller, q: ListQuery, other: Rows)
    requires UniqueIds(rows) && ValidPaging(q)
    requires FindAll(rows, branches, caller, q).Success?
    ensures var a := FindAll(rows, branches, caller, q).value;
            var f := QueryFilter(branches, caller, q);
            var all := AnsweredPages(rows, branches, caller, q, a.totalPages);
            && Ordered(all) && |all| == a.total
            && multiset(all) == multiset(Matching(rows, f))
            && (forall m :: m in all <==> m in rows && Matches(f, m))
            && (Ordered(other) && multiset(other) == multiset(Matching(rows, f)) ==> other == all)
  {
    var a := FindAll(rows, branches, caller, q).value;
    var f := QueryFilter(branches, caller, q);
    AnsweredPagesArePages(rows, branches, caller, q, a.totalPages);
    AllPages(rows, f, a.pageSize);
    MatchingIsSubset(rows, f);
    SortedKeeps(Matching(rows, f));
    SortedLength(Matching(rows, f));
    if Ordered(other) && multiset(other) == multiset(Matching(rows, f)) {
      OrderIsUnique(other, Sorted(Matching(rows, f)));
    }
  }
}

/** The dashboard: sums by kind and counters by status over a scope and a range. */
module Stats {
  import opened Wrappers
  import opened LedgerTables
  import opened BranchAccess
  import opened CashMovements
  import opened Listing

  const DEFAULT_RANGE_DAYS: nat := 30

  datatype StatsQuery = StatsQuery(branchId: Option<Id>, from: DateArg, to: DateArg)

  datatype Cards = Cards(totalIn: int, totalOut: int, net: int, pending: nat, approved: nat, delivered: nat,
                         rejected: nat)

  datatype StatsAnswer = StatsAnswer(from: Option<nat>, to: Option<nat>, branchId: Option<Id>, cards: Cards)

  /** Without any date the last thirty days are meant. */
  function ResolveRange(from: DateArg, to: DateArg, now: nat): Result<(Option<nat>, Option<nat>), Error> {
    var range :- ParseRange(from, to);
    if from == Omitted && to == Omitted then
      var span := DEFAULT_RANGE_DAYS * DAY_MS;
      Success((Some(if now >= span then now - span else 0), Some(now)))
    else Success(range)
  }

  function Amounts(rows: Rows): int {
    if rows == [] then 0 else rows[0].amount + Amounts(rows[1..])
  }

  function CardsFor(rows: Rows, f: Filter): Cards {
    var totalIn := Amounts(Matching(rows, f.(kind := Some(IN))));
    var totalOut := Amounts(Matching(rows, f.(kind := Some(OUT))));
    Cards(totalIn, totalOut, totalIn - totalOut,
          |Matching(rows, f.(status := Some(PENDING)))|,
          |Matching(rows, f.(status := Some(APPROVED)))|,
          |Matching(rows, f.(status := Some(DELIVERED)))|,
          |Matching(rows, f.(status := Some(REJECTED)))|)
  }

  function GetStats(rows: Rows, branches: Branches, caller: Caller, q: StatsQuery, now: nat):
    Result<StatsAnswer, Error>
  {
    var (from, to) :- ResolveRange(q.from, q.to, now);
    var branchId :- ResolveForFilter(branches, caller, q.branchId);
    Success(StatsAnswer(from, to, branchId,
                        CardsFor(rows, Filter(caller.organizationId, branchId, None, None, from, to))))
  }

  function Counter(c: Cards, s: Status): nat {
    match s
    case PENDING => c.pending
    case APPROVED => c.approved
    case DELIVERED => c.delivered
    case REJECTED => c.rejected
  }

  /** A moment as an explicit date argument. */
  function AsArg(d: Option<nat>): DateArg {
    if d.Some? then At(d.value) else Omitted
  }

  // ---------------------------------------------------------------- agreement with the list

  lemma {:induction false} StatusesSplit(rows: Rows, f: Filter)
    requires f.status.None?
    ensures |Matching(rows, f)| ==
            |Matching(rows, f.(status := Some(PENDING)))| + |Matching(rows, f.(status := Some(APPROVED)))|
            + |Matching(rows, f.(status := Some(DELIVERED)))| + |Matching(rows, f.(status := Some(REJECTED)))|
    decreases |rows|
  {
    if rows != [] {
      StatusesSplit(rows[1..], f);
    }
  }

  /** The dates an answer names, given as explicit arguments, are accepted and mean themselves. */
  lemma RangeAskedAgain(from: DateArg, to: DateArg, now: nat)
    requires ResolveRange(from, to, now).Success?
    ensures var (f, t) := ResolveRange(from, to, now).value; ParseRange(AsArg(f), AsArg(t)) == Success((f, t))
  {
  }

  lemma ListTotal(rows: Rows, branches: Branches, caller: Caller, q: ListQuery,
                  from: Option<nat>, to: Option<nat>, branchId: Option<Id>)
    requires ValidPaging(q) && ParseRange(q.from, q.to) == Success((from, to))
    requires ResolveForFilter(branches, caller, q.branchId) == Success(branchId)
    ensures var answer := FindAll(rows, branches, caller, q);
            && answer.Success?
            && answer.value.total == |Matching(rows, Filter(caller.organizationId, branchId, q.status, None, from, to))|
  {
  }

  /** Over the same scope and the dates the stats answer names, every counter is the list total for
      its status, and the four add up to the total of all. */
  lemma CountersMatchList(rows: Rows, branches: Branches, caller: Caller, q: StatsQuery, now: nat, s: Status,
                          page: Option<nat>, pageSize: Option<nat>)
    requires GetStats(rows, branches, caller, q, now).Success?
    requires page.Some? ==> page.value >= 1
    requires pageSize.Some? ==> pageSize.value >= 1
    ensures var a := GetStats(rows, branches, caller, q, now).value;
            var one := FindAll(rows, branches, caller,
                               ListQuery(q.branchId, Some(s), AsArg(a.from), AsArg(a.to), page, pageSize));
            var all := FindAll(rows, branches, caller,
                               ListQuery(q.branchId, None, AsArg(a.from), AsArg(a.to), page, pageSize));
            && one.Success? && one.value.total == Counter(a.cards, s)
            && all.Success?
            && all.value.total == a.cards.pending + a.cards.approved + a.cards.delivered + a.cards.rejected
  {
    var a := GetStats(rows, branches, caller, q, now).value;
    RangeAskedAgain(q.from, q.to, now);
    ListTotal(rows, branches, caller, ListQuery(q.branchId, Some(s), AsArg(a.from), AsArg(a.to), page, pageSize),
              a.from, a.to, a.branchId);
    ListTotal(rows, branches, caller, ListQuery(q.branchId, None, AsArg(a.from), AsArg(a.to), page, pageSize),
              a.from, a.to, a.branchId);
    StatusesSplit(rows, Filter(caller.organizationId, a.branchId, None, None, a.from, a.to));
  }

  lemma {:induction false} NarrowerFilter(rows: Rows, f: Filter, g: Filter)
    requires forall m :: Matches(g, m) ==> Matches(f, m)
    ensures |Matching(rows, g)| <= |Matching(rows, f)|
    ensures |Matching(rows, g)| == |Matching(rows, f)| <==> forall m :: m in rows && Matches(f, m) ==> Matches(g, m)
    decreases |rows|
  {
    if rows != [] {
      NarrowerFilter(rows[1..], f, g);
      assert rows == [rows[0]] + rows[1..];
    }
  }

  /** With no date at all the two differ: a counter equals the undated list total exactly when every
      row the list counts was created in the last thirty days. */
  lemma UndatedCounterIff(rows: Rows, branches: Branches, caller: Caller, branchId: Option<Id>, now: nat, s: Status)
    requires ResolveForFilter(branches, caller, branchId).Success?
    ensures var a := GetStats(rows, branches, caller, StatsQuery(branchId, Omitted, Omitted), now).value;
            var listed := FindAll(rows, branches, caller,
                                  ListQuery(branchId, Some(s), Omitted, Omitted, None, None)).value.total;
            Counter(a.cards, s) == listed <==>
            forall m :: m in rows
                        && Matches(Filter(caller.organizationId, ResolveForFilter(branches, caller, branchId).value,
                                          Some(s), None, None, None), m)
                        ==> m.createdAt <= now <= m.createdAt + 2_592_000_000
  {
    var a := GetStats(rows, branches, caller, StatsQuery(branchId, Omitted, Omitted), now).value;
    var f := Filter(caller.organizationId, a.branchId, Some(s), None, None, None);
    NarrowerFilter(rows, f, f.(from := a.from, to := a.to));
  }

  // ---------------------------------------------------------------- conservation

  function SignedAmount(m: Movement): int {
    if m.kind == IN then m.amount else -m.amount
  }

  function Signed(rows: Rows): int {
    if rows == [] then 0 else SignedAmount(rows[0]) + Signed(rows[1..])
  }

  /** The cards, one at a time. */
  datatype Card = TotalIn | TotalOut | Net | Count(status: Status)

  function Value(c: Cards, k: Card): int {
    match k
    case TotalIn => c.totalIn
    case TotalOut => c.totalOut
    case Net => c.net
    case Count(s) => Counter(c, s)
  }

  /** What one row adds to a card. */
  function RowValue(m: Movement, f: Filter, k: Card): int {
    if !Matches(f, m) then 0
    else
      match k
      case TotalIn => if m.kind == IN then m.amount else 0
      case TotalOut => if m.kind == OUT then m.amount else 0
      case Net => SignedAmount(m)
      case Count(s) => if m.status == s then 1 else 0
  }

  function ValueByRow(rows: Rows, f: Filter, k: Card): int {
    if rows == [] then 0 else RowValue(rows[0], f, k) + ValueByRow(rows[1..], f, k)
  }

  lemma MatchingCons(m: Movement, rows: Rows, f: Filter)
    ensures |Matching([m] + rows, f)| == (if Matches(f, m) then 1 else 0) + |Matching(rows, f)|
    ensures Amounts(Matching([m] + rows, f)) == (if Matches(f, m) then m.amount else 0) + Amounts(Matching(rows, f))
    ensures Signed(Matching([m] + rows, f)) ==
            (if Matches(f, m) then SignedAmount(m) else 0) + Signed(Matching(rows, f))
  {
    assert ([m] + rows)[1..] == rows;
    assert ([m] + Matching(rows, f))[1..] == Matching(rows, f);
    assert [] + Matching(rows, f) == Matching(rows, f);
  }

  lemma CardCons(m: Movement, rows: Rows, f: Filter, k: Card)
    requires f.status.None? && f.kind.None?
    ensures Value(CardsFor([m] + rows, f), k) == RowValue(m, f, k) + Value(CardsFor(rows, f), k)
  {
    MatchingCons(m, rows, f.(kind := Some(IN)));
    MatchingCons(m, rows, f.(kind := Some(OUT)));
    if k.Count? {
      MatchingCons(m, rows, f.(status := Some(k.status)));
    }
  }

  lemma {:induction false} CardsAreByRow(rows: Rows, f: Filter, k: Card)
    requires f.status.None? && f.kind.None?
    ensures Value(CardsFor(rows, f), k) == ValueByRow(rows, f, k)
    decreases |rows|
  {
    if rows != [] {
      assert rows == [rows[0]] + rows[1..];
      CardsAreByRow(rows[1..], f, k);
      CardCons(rows[0], rows[1..], f, k);
    }
  }

  /** Net is the signed sum of the rows in range. */
  lemma {:induction false} NetIsSignedSum(rows: Rows, f: Filter)
    requires f.status.None? && f.kind.None?
    ensures CardsFor(rows, f).net == Signed(Matching(rows, f))
    decreases |rows|
  {
    if rows != [] {
      assert rows == [rows[0]] + rows[1..];
      NetIsSignedSum(rows[1..], f);
      CardCons(rows[0], rows[1..], f, Net);
      MatchingCons(rows[0], rows[1..], f);
    }
  }

  // ---------------------------------------------------------------- branches add up

  function SumOver(ids: seq<Id>, valueOf: Id -> int): int {
    if ids == [] then 0 else valueOf(ids[0]) + SumOver(ids[1..], valueOf)
  }

  lemma {:induction false} SumOverEqual(ids: seq<Id>, g: Id -> int, h: Id -> int)
    requires forall id: Id :: g(id) == h(id)
    ensures SumOver(ids, g) == SumOver(ids, h)
  {
    if ids != [] {
      SumOverEqual(ids[1..], g, h);
    }
  }

  lemma {:induction false} SumOverPlus(ids: seq<Id>, g: Id -> int, h: Id -> int, sum: Id -> int)
    requires forall id: Id :: sum(id) == g(id) + h(id)
    ensures SumOver(ids, sum) == SumOver(ids, g) + SumOver(ids, h)
    decreases |ids|
  {
    if ids != [] {
      SumOverPlus(ids[1..], g, h, sum);
    }
  }

  lemma {:induction false} SumOverSingle(ids: seq<Id>, g: Id -> int, k: Id)
    requires NoRepeats(ids) && forall id: Id :: id != k ==> g(id) == 0
    ensures SumOver(ids, g) == if k in ids then g(k) else 0
    decreases |ids|
  {
    if ids != [] {
      SumOverSingle(ids[1..], g, k);
      assert ids == [ids[0]] + ids[1..];
      assert ids[0] !in ids[1..];
    }
  }

  /** The filter narrowed to one branch. */
  function AtBranch(f: Filter, branchId: Id): Filter {
    f.(branchId := Some(branchId))
  }

  /** One row, summed over the branches. */
  lemma RowOverBranches(m: Movement, f: Filter, ids: seq<Id>, k: Card, rowAt: Id -> int)
    requires NoRepeats(ids)
    requires f.branchId.None? && (m.organizationId == f.organizationId ==> m.branchId in ids)
    requires forall id: Id :: rowAt(id) == RowValue(m, AtBranch(f, id), k)
    ensures SumOver(ids, rowAt) == RowValue(m, f, k)
  {
    SumOverSingle(ids, rowAt, m.branchId);
  }

  lemma {:induction false} OrganizationByRow(rows: Rows, f: Filter, ids: seq<Id>, k: Card, at: Id -> int)
    requires f.branchId.None? && NoRepeats(ids)
    requires forall m :: m in rows && m.organizationId == f.organizationId ==> m.branchId in ids
    requires forall id: Id :: at(id) == ValueByRow(rows, AtBranch(f, id), k)
    ensures ValueByRow(rows, f, k) == SumOver(ids, at)
    decreases |rows|
  {
    if rows == [] {
      var first := if ids == [] then 0 else ids[0];
      SumOverSingle(ids, at, first);
    } else {
      var m, rest := rows[0], rows[1..];
      var rowAt := (id: Id) => RowValue(m, AtBranch(f, id), k);
      var restAt := (id: Id) => ValueByRow(rest, AtBranch(f, id), k);
      OrganizationByRow(rest, f, ids, k, restAt);
      RowOverBranches(m, f, ids, k, rowAt);
      SumOverPlus(ids, rowAt, restAt, at);
    }
  }

  /** Every card of the organization is the sum of that card over its branches. */
  lemma OrganizationIsSumOfBranches(rows: Rows, f: Filter, ids: seq<Id>, k: Card, at: Id -> int)
    requires f == Filter(f.organizationId, None, None, None, f.from, f.to) && NoRepeats(ids)
    requires forall m :: m in rows && m.organizationId == f.organizationId ==> m.branchId in ids
    requires forall id: Id :: at(id) == Value(CardsFor(rows, AtBranch(f, id)), k)
    ensures Value(CardsFor(rows, f), k) == SumOver(ids, at)
  {
    CardsAreByRow(rows, f, k);
    forall id: Id ensures at(id) == ValueByRow(rows, AtBranch(f, id), k) {
      CardsAreByRow(rows, AtBranch(f, id), k);
    }
    OrganizationByRow(rows, f, ids, k, at);
  }

  // ---------------------------------------------------------------- transitions conserve money

  /** How a card moves when a row in range goes from one status to another. */
  function Shift(k: Card, inRange: bool, from: Status, to: Status): int {
    if !inRange || !k.Count? then 0
    else (if k.status == to then 1 else 0) - (if k.status == from then 1 else 0)
  }

  lemma {:induction false} AbsentRowUntouched(rows: Rows, actor: Id, id: Id, a: Action, now: nat)
    requires FreshId(rows, id)
    ensures CommitTransition(rows, actor, id, a, now) == rows
    decreases |rows|
  {
  }

  lemma {:induction false} ShiftByRow(rows: Rows, f: Filter, id: Id, a: Action, actor: Id, now: nat, m: Movement,
                                      k: Card)
    requires f.status.None? && UniqueIds(rows)
    requires FindRow(rows, id) == Some(m)
    ensures ValueByRow(CommitTransition(rows, actor, id, a, now), f, k) ==
            ValueByRow(rows, f, k) + Shift(k, Matches(f, m), m.status, Target(a))
    decreases |rows|
  {
    var head, rest := rows[0], rows[1..];
    var rest' := CommitTransition(rest, actor, id, a, now);
    if head.id == id {
      assert forall i :: 0 <= i < |rest| ==> rest[i] == rows[i + 1];
      AbsentRowUntouched(rest, actor, id, a, now);
      assert CommitTransition(rows, actor, id, a, now)[1..] == rest;
    } else {
      assert CommitTransition(rows, actor, id, a, now)[1..] == rest';
      ShiftByRow(rest, f, id, a, actor, now, m, k);
    }
  }

  /** A committed transition leaves totalIn, totalOut and net alone, and moves one unit from the
      counter of the old status to that of the new one if its row is in range. */
  lemma TransitionConserves(rows: Rows, f: Filter, id: Id, a: Action, actor: Id, now: nat, m: Movement, s: Status)
    requires f.status.None? && f.kind.None? && UniqueIds(rows)
    requires FindRow(rows, id) == Some(m)
    ensures var before := CardsFor(rows, f);
            var after := CardsFor(CommitTransition(rows, actor, id, a, now), f);
            && after.totalIn == before.totalIn && after.totalOut == before.totalOut && after.net == before.net
            && Counter(after, s) + (if Matches(f, m) && s == m.status then 1 else 0) ==
               Counter(before, s) + (if Matches(f, m) && s == Target(a) then 1 else 0)
  {
    var rows' := CommitTransition(rows, actor, id, a, now);
    CardsAreByRow(rows, f, TotalIn);
    CardsAreByRow(rows', f, TotalIn);
    ShiftByRow(rows, f, id, a, actor, now, m, TotalIn);
    CardsAreByRow(rows, f, TotalOut);
    CardsAreByRow(rows', f, TotalOut);
    ShiftByRow(rows, f, id, a, actor, now, m, TotalOut);
    CardsAreByRow(rows, f, Count(s));
    CardsAreByRow(rows', f, Count(s));
    ShiftByRow(rows, f, id, a, actor, now, m, Count(s));
  }
}
