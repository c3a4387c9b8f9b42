/**
 HTTP metrics: request totals and durations, kept in two maps keyed by the Prometheus label string
 of each request. The string is built by two replacement passes; it must stand for exactly the
 triple it prints.
 */
module Metrics {
  import opened Wrappers

  // ---------------------------------------------------------------- the label string

  /** `s.replace(/c/g, with)` */
  function ReplaceAll(s: string, c: char, with: string): string {
    if s == "" then "" else (if s[0] == c then with else [s[0]]) + ReplaceAll(s[1..], c, with)
  }

  function EscapeLabel(s: string): string {
    ReplaceAll(ReplaceAll(s, '\\', "\\\\"), '\"', "\\\"")
  }

  function UpperChar(c: char): char {
    if 'a' <= c <= 'z' then (c as int - 32) as char else c
  }

  function ToUpper(s: string): string {
    if s == "" then "" else [UpperChar(s[0])] + ToUpper(s[1..])
  }

  function BeforeQuery(path: string): string {
    if path == "" || path[0] == '?' then "" else [path[0]] + BeforeQuery(path[1..])
  }

  function NormalizePath(path: string): string {
    var basePath := BeforeQuery(path);
    if basePath == "" then "/" else basePath
  }

  const DIGITS := "0123456789"

  function Decimal(n: nat): string {
    if n < 10 then [DIGITS[n]] else Decimal(n / 10) + [DIGITS[n % 10]]
  }

  /** What the label of a request says. */
  datatype Series = Series(httpMethod: string, path: string, statusCode: nat)

  const METHOD_OPEN := "method=\""
  const PATH_OPEN := ",path=\""
  const STATUS_OPEN := ",status_code=\""

  function Label(s: Series): string {
    METHOD_OPEN + EscapeLabel(s.httpMethod) + "\"" + PATH_OPEN + EscapeLabel(s.path) + "\""
    + STATUS_OPEN + Decimal(s.statusCode) + "\""
  }

  // ---------------------------------------------------------------- the two maps

  datatype Request = Request(httpMethod: string, path: string, statusCode: nat, durationMs: real)

  datatype Duration = Duration(count: nat, durationSumMs: real)

  datatype Tables = Tables(totals: map<string, nat>, durations: map<string, Duration>)

  const NO_REQUESTS := Tables(map[], map[])

  function SeriesOf(r: Request): Series {
    Series(ToUpper(r.httpMethod), NormalizePath(r.path), r.statusCode)
  }

  function Clamped(durationMs: real): real {
    if durationMs > 0.0 then durationMs else 0.0
  }

  function Record(t: Tables, r: Request): Tables {
    var labels := Label(SeriesOf(r));
    var count := if labels in t.totals then t.totals[labels] else 0;
    var d := if labels in t.durations then t.durations[labels] else Duration(0, 0.0);
    Tables(t.totals[labels := count + 1],
           t.durations[labels := Duration(d.count + 1, d.durationSumMs + Clamped(r.durationMs))])
  }

  /** The tables after the requests made since the last reset, oldest first. */
  function RecordAll(rs: seq<Request>): Tables {
    if rs == [] then NO_REQUESTS else Record(RecordAll(rs[..|rs| - 1]), rs[|rs| - 1])
  }

  class MetricsService {
    var httpRequestTotals: map<string, nat>
    var httpRequestDurations: map<string, Duration>

    constructor ()
      ensures State() == NO_REQUESTS
    {
      httpRequestTotals := map[];
      httpRequestDurations := map[];
    }

    ghost function State(): Tables
      reads this
    {
      Tables(httpRequestTotals, httpRequestDurations)
    }

    method RecordHttpRequest(input: Request)
      modifies this
      ensures State() == Record(old(State()), input)
    {
      var httpMethod := EscapeLabel(ToUpper(input.httpMethod));
      var path := EscapeLabel(NormalizePath(input.path));
      var durationMs := if input.durationMs > 0.0 then input.durationMs else 0.0;
      var labels := METHOD_OPEN + httpMethod + "\"" + PATH_OPEN + path + "\""
                    + STATUS_OPEN + Decimal(input.statusCode) + "\"";

      var currentCount := if labels in httpRequestTotals then httpRequestTotals[labels] else 0;
      httpRequestTotals := httpRequestTotals[labels := currentCount + 1];

      var current := if labels in httpRequestDurations then httpRequestDurations[labels] else Duration(0, 0.0);
      httpRequestDurations := httpRequestDurations[
        labels := Duration(current.count + 1, current.durationSumMs + durationMs)];
    }

    method ResetForTests()
      modifies this
      ensures State() == NO_REQUESTS
    {
      httpRequestTotals := map[];
      httpRequestDurations := map[];
    }
  }
}

/** The label reads back to its series, and the string-keyed maps count by series. */
module MetricsLaws {
  import opened Wrappers
  import opened Metrics

  // ---------------------------------------------------------------- reading a label back

  /** One pass, one character at a time. */
  function EscapeEach(s: string): string {
    if s == "" then ""
    else (if s[0] == '\\' || s[0] == '\"' then ['\\', s[0]] else [s[0]]) + EscapeEach(s[1..])
  }

  lemma {:induction false} ReplaceAppend(s: string, t: string, c: char, with: string)
    ensures ReplaceAll(s + t, c, with) == ReplaceAll(s, c, with) + ReplaceAll(t, c, with)
  {
    if s == "" {
      assert s + t == t;
    } else {
      assert (s + t)[0] == s[0] && (s + t)[1..] == s[1..] + t;
      ReplaceAppend(s[1..], t, c, with);
    }
  }

  /** The two replacement passes escape each character once: the quotes of the second pass are never
      the backslashes of the first. */
  lemma {:induction false} TwoPassesEscapeEach(s: string)
    ensures EscapeLabel(s) == EscapeEach(s)
  {
    if s != "" {
      var head := if s[0] == '\\' then "\\\\" else [s[0]];
      var rest := ReplaceAll(s[1..], '\\', "\\\\");
      ReplaceAppend(head, rest, '\"', "\\\"");
      TwoPassesEscapeEach(s[1..]);
      assert ReplaceAll(head[1..], '\"', "\\\"") == head[1..] by {
        assert head[1..] == "" || (head[1..] == "\\" && head[1..][1..] == "");
      }
    }
  }

  /** Reads an escaped value up to the first bare quote: the value and what follows the quote. */
  function ReadQuoted(t: string): Option<(string, string)> {
    if t == "" then None
    else if t[0] == '\"' then Some(("", t[1..]))
    else if t[0] == '\\' && |t| == 1 then None
    else
      var (c, rest) := if t[0] == '\\' then (t[1], t[2..]) else (t[0], t[1..]);
      match ReadQuoted(rest)
      case None => None
      case Some((value, after)) => Some(([c] + value, after))
  }

  lemma {:induction false} ReadBack(s: string, rest: string)
    ensures ReadQuoted(EscapeLabel(s) + "\"" + rest) == Some((s, rest))
  {
    TwoPassesEscapeEach(s);
    var t := EscapeLabel(s) + "\"" + rest;
    if s == "" {
      assert t[1..] == rest;
    } else {
      TwoPassesEscapeEach(s[1..]);
      ReadBack(s[1..], rest);
      var tail := EscapeLabel(s[1..]) + "\"" + rest;
      if s[0] == '\\' || s[0] == '\"' {
        assert t[2..] == tail;
      } else {
        assert t[1..] == tail;
      }
      assert s == [s[0]] + s[1..];
    }
  }

  function DigitValue(c: char): nat {
    if '0' <= c <= '9' then c as int - '0' as int else 0
  }

  function ReadDecimal(t: string): nat {
    if t == "" then 0 else 10 * ReadDecimal(t[..|t| - 1]) + DigitValue(t[|t| - 1])
  }

  lemma {:induction false} DecimalReadBack(n: nat)
    ensures ReadDecimal(Decimal(n)) == n
    decreases n
  {
    var t := Decimal(n);
    assert DigitValue(DIGITS[n % 10]) == n % 10;
    if n < 10 {
      assert t[..|t| - 1] == "";
    } else {
      DecimalReadBack(n / 10);
      assert t[..|t| - 1] == Decimal(n / 10);
    }
  }

  /** Reads `open` (by length only), then a quoted value. */
  function ReadField(open: string, t: string): Option<(string, string)> {
    if |t| < |open| then None else ReadQuoted(t[|open|..])
  }

  lemma FieldReadBack(open: string, value: string, rest: string)
    ensures ReadField(open, open + EscapeLabel(value) + "\"" + rest) == Some((value, rest))
  {
    var t := open + EscapeLabel(value) + "\"" + rest;
    assert t[|open|..] == EscapeLabel(value) + "\"" + rest;
    ReadBack(value, rest);
  }

  function ReadStatus(open: string, t: string): Option<nat> {
    if |t| <= |open| then None else Some(ReadDecimal(t[|open|..|t| - 1]))
  }

  lemma StatusReadBack(open: string, statusCode: nat)
    ensures ReadStatus(open, open + Decimal(statusCode) + "\"") == Some(statusCode)
  {
    var t := open + Decimal(statusCode) + "\"";
    assert t[|open|..|t| - 1] == Decimal(statusCode);
    DecimalReadBack(statusCode);
  }

  function ReadSeries(open1: string, open2: string, open3: string, t: string): Option<Series> {
    match ReadField(open1, t)
    case None => None
    case Some((httpMethod, t1)) =>
      match ReadField(open2, t1)
      case None => None
      case Some((path, t2)) =>
        match ReadStatus(open3, t2)
        case None => None
        case Some(statusCode) => Some(Series(httpMethod, path, statusCode))
  }

  lemma SeriesReadBack(open1: string, open2: string, open3: string, s: Series)
    ensures ReadSeries(open1, open2, open3,
                       open1 + EscapeLabel(s.httpMethod) + "\"" + open2 + EscapeLabel(s.path) + "\""
                       + open3 + Decimal(s.statusCode) + "\"") == Some(s)
  {
    var t2 := open3 + Decimal(s.statusCode) + "\"";
    var t1 := open2 + EscapeLabel(s.path) + "\"" + t2;
    var t := open1 + EscapeLabel(s.httpMethod) + "\"" + t1;
    assert ReadField(open1, t) == Some((s.httpMethod, t1)) by { FieldReadBack(open1, s.httpMethod, t1); }
    assert ReadField(open2, t1) == Some((s.path, t2)) by { FieldReadBack(open2, s.path, t2); }
    assert ReadStatus(open3, t2) == Some(s.statusCode) by { StatusReadBack(open3, s.statusCode); }
    assert ReadSeries(open1, open2, open3, t) == Some(s);
    var head := open1 + EscapeLabel(s.httpMethod) + "\"";
    Regroup(head + (open2 + EscapeLabel(s.path) + "\""), open3, Decimal(s.statusCode));
    Regroup(head, open2, EscapeLabel(s.path));
    assert t == head + (open2 + EscapeLabel(s.path) + "\"") + t2;
  }

  lemma Regroup(a: string, open: string, value: string)
    ensures a + (open + value + "\"") == a + open + value + "\""
  {
  }

  /** Reads a label string as `method="..",path="..",status_code=".."`. */
  function ReadLabel(t: string): Option<Series> {
    ReadSeries(METHOD_OPEN, PATH_OPEN, STATUS_OPEN, t)
  }

  /** Every label reads back to the series it was built from, so the string is a faithful key. */
  lemma LabelRoundTrip(s: Series)
    ensures ReadLabel(Label(s)) == Some(s)
  {
    SeriesReadBack(METHOD_OPEN, PATH_OPEN, STATUS_OPEN, s);
  }

  lemma LabelInjective(s: Series, t: Series)
    ensures Label(s) == Label(t) ==> s == t
  {
    LabelRoundTrip(s);
    LabelRoundTrip(t);
  }

  // ---------------------------------------------------------------- counting by series

  function CountOf(rs: seq<Request>, s: Series): nat {
    if rs == [] then 0
    else CountOf(rs[..|rs| - 1], s) + if SeriesOf(rs[|rs| - 1]) == s then 1 else 0
  }

  function DurationOf(rs: seq<Request>, s: Series): real {
    if rs == [] then 0.0
    else DurationOf(rs[..|rs| - 1], s)
         + if SeriesOf(rs[|rs| - 1]) == s then Clamped(rs[|rs| - 1].durationMs) else 0.0
  }

  /** One series, as the two maps show it. */
  ghost predicate Shows(t: Tables, rs: seq<Request>, s: Series) {
    var key := Label(s);
    && Lookup(t.totals, key) == (if CountOf(rs, s) == 0 then None else Some(CountOf(rs, s)))
    && Lookup(t.durations, key) ==
       (if CountOf(rs, s) == 0 then None else Some(Duration(CountOf(rs, s), DurationOf(rs, s))))
  }

  lemma RecordShows(t: Tables, rs: seq<Request>, r: Request, s: Series)
    requires Shows(t, rs, s)
    ensures Shows(Record(t, r), rs + [r], s)
  {
    LabelInjective(s, SeriesOf(r));
    assert (rs + [r])[..|rs|] == rs;
    if CountOf(rs, s) == 0 {
      NoCountNoDuration(rs, s);
    }
  }

  /** The string-keyed maps hold, for each series, the number and total duration of its requests. */
  lemma {:induction false} TablesCountBySeries(rs: seq<Request>, s: Series)
    ensures Shows(RecordAll(rs), rs, s)
    decreases |rs|
  {
    if rs != [] {
      var front := rs[..|rs| - 1];
      TablesCountBySeries(front, s);
      RecordShows(RecordAll(front), front, rs[|rs| - 1], s);
      assert front + [rs[|rs| - 1]] == rs;
    }
  }

  ghost function LabelsOf(rs: seq<Request>): set<string> {
    set r | r in rs :: Label(SeriesOf(r))
  }

  /** Both maps hold one entry per distinct label. */
  lemma {:induction false} KeysAreLabels(rs: seq<Request>)
    ensures RecordAll(rs).totals.Keys == RecordAll(rs).durations.Keys == LabelsOf(rs)
    decreases |rs|
  {
    if rs != [] {
      var front := rs[..|rs| - 1];
      KeysAreLabels(front);
      assert front + [rs[|rs| - 1]] == rs;
    }
  }

  lemma {:induction false} NoCountNoDuration(rs: seq<Request>, s: Series)
    requires CountOf(rs, s) == 0
    ensures DurationOf(rs, s) == 0.0
    decreases |rs|
  {
    if rs != [] {
      NoCountNoDuration(rs[..|rs| - 1], s);
    }
  }

  ghost function Sum(m: map<string, nat>): nat
    decreases |m|
  {
    if m == map[] then 0
    else
      var k :| k in m;
      m[k] + Sum(m - {k})
  }

  lemma {:induction false} SumSplit(m: map<string, nat>, k: string)
    requires k in m
    ensures Sum(m) == m[k] + Sum(m - {k})
    decreases |m|
  {
    var j :| j in m && Sum(m) == m[j] + Sum(m - {j});
    if j != k {
      SumSplit(m - {j}, k);
      SumSplit(m - {k}, j);
      assert m - {j} - {k} == m - {k} - {j};
    }
  }

  /** No request is lost or counted twice: the totals add up to the calls made since the reset. */
  lemma {:induction false} TotalsAddUp(rs: seq<Request>)
    ensures Sum(RecordAll(rs).totals) == |rs|
    decreases |rs|
  {
    if rs != [] {
      var front := rs[..|rs| - 1];
      TotalsAddUp(front);
      RecordAddsOne(RecordAll(front), rs[|rs| - 1]);
    }
  }

  lemma RecordAddsOne(t: Tables, r: Request)
    ensures Sum(Record(t, r).totals) == Sum(t.totals) + 1
  {
    SumPlusOne(t.totals, Label(SeriesOf(r)));
  }

  lemma SumPlusOne(m: map<string, nat>, k: string)
    ensures Sum(m[k := (if k in m then m[k] else 0) + 1]) == Sum(m) + 1
  {
    var m' := m[k := (if k in m then m[k] else 0) + 1];
    SumSplit(m', k);
    assert m' - {k} == m - {k};
    if k in m {
      SumSplit(m, k);
    } else {
      assert m - {k} == m;
    }
  }

  // ---------------------------------------------------------------- what a request is counted as

  /** Letters in upper case, one for one. */
  lemma {:induction false} UpperHolds(s: string)
    ensures |ToUpper(s)| == |s|
    ensures forall i :: 0 <= i < |s| ==>
              if 'a' <= s[i] <= 'z' then ToUpper(s)[i] as int + 32 == s[i] as int else ToUpper(s)[i] == s[i]
    decreases |s|
  {
    if s != "" {
      UpperHolds(s[1..]);
      forall i | 0 <= i < |s|
        ensures if 'a' <= s[i] <= 'z' then ToUpper(s)[i] as int + 32 == s[i] as int else ToUpper(s)[i] == s[i]
      {
        if i > 0 {
          assert s[i] == s[1..][i - 1] && ToUpper(s)[i] == ToUpper(s[1..])[i - 1];
        }
      }
    }
  }

  /** The path is cut at the first '?', and an empty one stands for the root. */
  lemma {:induction false} PathHolds(path: string, query: string)
    requires '?' !in path
    ensures NormalizePath(path) == NormalizePath(path + "?" + query)
    ensures NormalizePath(path) == if path == "" then "/" else path
    decreases |path|
  {
    Cut(path, query);
  }

  lemma {:induction false} Cut(path: string, query: string)
    requires '?' !in path
    ensures BeforeQuery(path) == path && BeforeQuery(path + "?" + query) == path
    decreases |path|
  {
    if path != "" {
      assert (path + "?" + query)[1..] == path[1..] + "?" + query;
      Cut(path[1..], query);
    }
  }

  /** One request counts for its method in upper case, its path and its status: one more there, its
      duration if that is positive, and nothing anywhere else. */
  lemma RequestCounts(rs: seq<Request>, r: Request, key: string)
    ensures var (before, after) := (RecordAll(rs), RecordAll(rs + [r]));
            var own := "method=\"" + EscapeEach(ToUpper(r.httpMethod))
                       + "\",path=\"" + EscapeEach(NormalizePath(r.path))
                       + "\",status_code=\"" + Decimal(r.statusCode) + "\"";
            && own in after.totals && own in after.durations
            && (own in before.totals ==> after.totals[own] == before.totals[own] + 1)
            && (own !in before.totals ==> after.totals[own] == 1)
            && (var sum := if own in before.durations then before.durations[own].durationSumMs else 0.0;
                after.durations[own].durationSumMs == if r.durationMs < 0.0 then sum else sum + r.durationMs)
            && after.durations[own].count == (if own in before.durations then before.durations[own].count else 0) + 1
            && (key != own ==>
                  && Lookup(after.totals, key) == Lookup(before.totals, key)
                  && Lookup(after.durations, key) == Lookup(before.durations, key))
  {
    assert (rs + [r])[..|rs|] == rs;
    TwoPassesEscapeEach(ToUpper(r.httpMethod));
    TwoPassesEscapeEach(NormalizePath(r.path));
    LabelText(EscapeEach(ToUpper(r.httpMethod)), EscapeEach(NormalizePath(r.path)), Decimal(r.statusCode));
  }

  lemma LabelText(m: string, p: string, d: string)
    ensures METHOD_OPEN + m + "\"" + PATH_OPEN + p + "\"" + STATUS_OPEN + d + "\"" ==
            "method=\"" + m + "\",path=\"" + p + "\",status_code=\"" + d + "\""
  {
    assert METHOD_OPEN == "method=\"";
    assert "\"" + PATH_OPEN == "\",path=\"";
    assert "\"" + STATUS_OPEN == "\",status_code=\"";
    var a := METHOD_OPEN + m;
    assert a + "\"" + PATH_OPEN == a + ("\"" + PATH_OPEN);
    var b := a + "\",path=\"" + p;
    assert b + "\"" + STATUS_OPEN == b + ("\"" + STATUS_OPEN);
  }
}
