/**
 * The expense table of scripts/database.py. The SQLite table `user_data`
 * becomes a sequence of rows in insertion order; the two queries the
 * interface runs on it are specified by functions, and the handler's
 * methods are proved to compute them.
 */
module Expenses {
  import opened Wrappers
  import opened Text
  import opened Registry
  import StableSort
  import InputParser

  /** A row of `user_data`: its six TEXT columns in table order. */
  datatype Row = Row(month: string, year: string, day: string, category: string, value: string, description: string)

  /** `item[2:]` of a row: day, category, value, description. */
  datatype Item = Item(day: string, category: string, value: string, description: string)

  /** One (month, year) pair of the registries. */
  datatype Period = Period(month: string, year: string)

  // ---------------------------------------------------------------------
  // The statements on the table
  // ---------------------------------------------------------------------

  /**
   * The row `add_entry` and `delete_entry` receive from a valid parse:
   * the parsed attributes, the year int taken as its decimal text (the
   * TEXT affinity of the `year` column).
   */
  function ParsedRow(p: InputParser.Parsed): Row
    requires p.IsValid()
  {
    Row(p.month.value, IntToString(p.year.value), p.day.value, p.category.value, p.value.value, p.description.value)
  }

  /** `DELETE FROM user_data WHERE` all six columns equal those of `r`: every copy of `r` goes. */
  function Without(rows: seq<Row>, r: Row): seq<Row> {
    if rows == [] then [] else (if rows[0] == r then [] else [rows[0]]) + Without(rows[1..], r)
  }

  /** `SELECT * FROM user_data WHERE month=? AND year=?`, in table order. */
  function Select(rows: seq<Row>, month: string, year: string): seq<Row> {
    if rows == [] then []
    else (if rows[0].month == month && rows[0].year == year then [rows[0]] else []) + Select(rows[1..], month, year)
  }

  function Project(r: Row): Item {
    Item(r.day, r.category, r.value, r.description)
  }

  function ProjectAll(rows: seq<Row>): seq<Item> {
    seq(|rows|, i requires 0 <= i < |rows| => Project(rows[i]))
  }

  // ---------------------------------------------------------------------
  // get_elements_period
  // ---------------------------------------------------------------------

  /** The sort key `int(x[0])` where it is defined. */
  function DayKey(it: Item): int {
    match PyInt(it.day)
    case Some(v) => v
    case None => 0
  }

  /** `int(x[0])` does not raise. */
  predicate DayIsInt(it: Item) {
    PyInt(it.day).Some?
  }

  /** `p` holds of every element. */
  predicate All<T>(s: seq<T>, p: T -> bool) {
    forall i :: 0 <= i < |s| ==> p(s[i])
  }

  /** `int(x[0])` raises for no item. */
  predicate DaysAreInts(items: seq<Item>) {
    All(items, DayIsInt)
  }

  /**
   * The items of a period, sorted by `int(day)` with Python's stable sort;
   * a day that `int` rejects raises ValueError while the keys are computed.
   */
  function ElementsPeriod(rows: seq<Row>, month: string, year: string): Result<seq<Item>> {
    var items := ProjectAll(Select(rows, month, year));
    if DaysAreInts(items) then Ok(StableSort.SortBy(items, DayKey)) else Err(ValueError)
  }

  // ---------------------------------------------------------------------
  // get_cumulative_expenses_until_period
  // ---------------------------------------------------------------------

  /** The first `n` months of `ms` in year `y`. */
  function YearPeriods(ms: seq<string>, y: string, n: nat): (ps: seq<Period>)
    requires n <= |ms|
    ensures |ps| == n && forall i :: 0 <= i < n ==> ps[i] == Period(ms[i], y)
  {
    seq(n, i requires 0 <= i < n => Period(ms[i], y))
  }

  /** Every month of `ms` in each of the first `k` years of `ys`, year by year. */
  function PeriodsOfYears(ys: seq<string>, ms: seq<string>, k: nat): seq<Period>
    requires k <= |ys|
  {
    if k == 0 then [] else PeriodsOfYears(ys, ms, k - 1) + YearPeriods(ms, ys[k - 1], |ms|)
  }

  /** `YEARS` x `MONTHS` in the order of the nested loops: year-major, months in calendar order. */
  function AllPeriods(): seq<Period> {
    PeriodsOfYears(Years, Months, |Years|)
  }

  /** Position of the first `p` in `ps`, or `|ps|`. */
  function FirstIndex(ps: seq<Period>, p: Period): (k: nat)
    ensures k <= |ps| && (k < |ps| ==> ps[k] == p)
    ensures forall j :: 0 <= j < k ==> ps[j] != p
  {
    if ps == [] then 0 else if ps[0] == p then 0 else 1 + FirstIndex(ps[1..], p)
  }

  /** The periods the first loop collects: those before (month, year), all of them when it is not found. */
  function PeriodsBefore(month: string, year: string): seq<Period> {
    AllPeriods()[..FirstIndex(AllPeriods(), Period(month, year))]
  }

  /** `f"{m}|{y}"`. */
  function PeriodKey(p: Period): string {
    p.month + "|" + p.year
  }

  /** The totals of a period before any row: every category at zero. */
  function ZeroTotals(): map<string, int> {
    map c | c in Categories :: 0
  }

  /**
   * `float(item[4])`, in hundredths, for the strings the parser stores: an
   * optionally padded term of digits with at most two decimals. `None` is
   * the ValueError, which an information separator anywhere also gives,
   * since `float()` does not skip it as whitespace.
   */
  function ValueCents(s: string): Option<nat> {
    var t := Strip(s);
    if !HasSeparatorControl(s) && InputParser.IsTerm(t) then Some(InputParser.TermCents(t)) else None
  }

  /** One turn of the row loop: ValueError for the value, then KeyError for the category. */
  function AddRow(totals: map<string, int>, x: Row, read: string -> Option<nat>): Result<map<string, int>> {
    match read(x.value)
    case None => Err(ValueError)
    case Some(v) =>
      if x.category in totals then Ok(totals[x.category := totals[x.category] + v]) else Err(KeyError)
  }

  lemma AddRowAdds(totals: map<string, int>, x: Row, v: nat, read: string -> Option<nat>)
    requires read(x.value) == Some(v) && x.category in totals
    ensures AddRow(totals, x, read) == Ok(totals[x.category := totals[x.category] + v])
  {
  }

  /** The row loop over `rows`, in order, stopping at the first error. */
  function AddRows(totals: map<string, int>, rows: seq<Row>, read: string -> Option<nat>): Result<map<string, int>>
    decreases |rows|
  {
    if rows == [] then Ok(totals)
    else
      match AddRows(totals, rows[..|rows| - 1], read)
      case Err(e) => Err(e)
      case Ok(t) => AddRow(t, rows[|rows| - 1], read)
  }

  /** The totals of one period: zero-filled, then every row of the period added. */
  function PeriodTotals(rows: seq<Row>, p: Period): Result<map<string, int>> {
    AddRows(ZeroTotals(), Select(rows, p.month, p.year), ValueCents)
  }

  /**
   * The period loop over `ps`, in order, stopping at the first error;
   * `tot` gives each period's totals.
   */
  function Walk(tot: Period -> Result<map<string, int>>, ps: seq<Period>): Result<map<string, map<string, int>>>
    decreases |ps|
  {
    if ps == [] then Ok(map[])
    else
      match Walk(tot, ps[..|ps| - 1])
      case Err(e) => Err(e)
      case Ok(acc) =>
        var p := ps[|ps| - 1];
        match tot(p)
        case Err(e) => Err(e)
        case Ok(t) => Ok(acc[PeriodKey(p) := t])
  }

  /** The totals of each period of the table. */
  function TotalsOf(rows: seq<Row>): Period -> Result<map<string, int>> {
    p => PeriodTotals(rows, p)
  }

  /** What `get_cumulative_expenses_until_period` returns or raises. */
  function Cumulative(rows: seq<Row>, month: string, year: string): Result<map<string, map<string, int>>> {
    Walk(TotalsOf(rows), PeriodsBefore(month, year))
  }

  /** The first `p` of a sequence that starts with `pre + [p]`, `p` not in `pre`, is at `|pre|`. */
  lemma {:induction false} FirstIndexAfter(ps: seq<Period>, pre: seq<Period>, p: Period)
    requires |pre| < |ps| && ps[..|pre| + 1] == pre + [p] && p !in pre
    ensures FirstIndex(ps, p) == |pre|
    decreases |pre|
  {
    if pre != [] {
      assert ps[1..][..|pre| - 1 + 1] == pre[1..] + [p];
      FirstIndexAfter(ps[1..], pre[1..], p);
    } else {
      assert ps[0] == p;
    }
  }

  /** The first `a` years form a prefix of the first `b` years. */
  lemma {:induction false} PeriodsOfYearsPrefix(ys: seq<string>, ms: seq<string>, a: nat, b: nat)
    requires a <= b <= |ys|
    ensures |PeriodsOfYears(ys, ms, a)| <= |PeriodsOfYears(ys, ms, b)|
    ensures PeriodsOfYears(ys, ms, b)[..|PeriodsOfYears(ys, ms, a)|] == PeriodsOfYears(ys, ms, a)
    decreases b
  {
    if a < b {
      PeriodsOfYearsPrefix(ys, ms, a, b - 1);
      var p := PeriodsOfYears(ys, ms, b - 1);
      var q := PeriodsOfYears(ys, ms, a);
      assert PeriodsOfYears(ys, ms, b)[..|p|] == p;
      assert p[..|q|] == q;
    }
  }

  /** What the loops have collected after `mi` months of year number `yi`. */
  function Collected(ys: seq<string>, ms: seq<string>, yi: nat, mi: nat): seq<Period>
    requires yi < |ys| && mi <= |ms|
  {
    PeriodsOfYears(ys, ms, yi) + YearPeriods(ms, ys[yi], mi)
  }

  /** The collected periods, followed by the next one, start the walk. */
  lemma CollectedPrefix(ys: seq<string>, ms: seq<string>, yi: nat, mi: nat)
    requires yi < |ys| && mi < |ms|
    ensures |Collected(ys, ms, yi, mi)| < |PeriodsOfYears(ys, ms, |ys|)|
    ensures PeriodsOfYears(ys, ms, |ys|)[..|Collected(ys, ms, yi, mi)| + 1]
         == Collected(ys, ms, yi, mi) + [Period(ms[mi], ys[yi])]
  {
    var y := ys[yi];
    var all := PeriodsOfYears(ys, ms, |ys|);
    var done := PeriodsOfYears(ys, ms, yi);
    var year := YearPeriods(ms, y, |ms|);
    PeriodsOfYearsPrefix(ys, ms, yi + 1, |ys|);
    assert PeriodsOfYears(ys, ms, yi + 1) == done + year;
    var k := |done| + mi + 1;
    assert all[..k] == (done + year)[..k];
    assert (done + year)[..k] == done + year[..mi + 1];
    assert year[..mi + 1] == YearPeriods(ms, y, mi) + [Period(ms[mi], y)];
  }

  /** The next month, or the first month of the next year. */
  lemma CollectedStep(ys: seq<string>, ms: seq<string>, yi: nat, mi: nat)
    requires yi < |ys| && mi < |ms|
    ensures Collected(ys, ms, yi, mi) + [Period(ms[mi], ys[yi])] == Collected(ys, ms, yi, mi + 1)
  {
    var y := ys[yi];
    assert YearPeriods(ms, y, mi) + [Period(ms[mi], y)] == YearPeriods(ms, y, mi + 1);
  }

  /** A finished year is the start of the next one. */
  lemma CollectedNextYear(ys: seq<string>, ms: seq<string>, yi: nat)
    requires yi + 1 < |ys|
    ensures Collected(ys, ms, yi, |ms|) == Collected(ys, ms, yi + 1, 0)
  {
    assert YearPeriods(ms, ys[yi + 1], 0) == [];
  }

  /** The last finished year completes the walk. */
  lemma CollectedLastYear(ys: seq<string>, ms: seq<string>, yi: nat)
    requires yi + 1 == |ys|
    ensures Collected(ys, ms, yi, |ms|) == PeriodsOfYears(ys, ms, |ys|)
  {
  }

  /** Found at the next position: the loops stop with what they have collected. */
  lemma PeriodsBeforeFound(yi: nat, mi: nat)
    requires yi < |Years| && mi < |Months|
    requires Period(Months[mi], Years[yi]) !in Collected(Years, Months, yi, mi)
    ensures PeriodsBefore(Months[mi], Years[yi]) == Collected(Years, Months, yi, mi)
  {
    var pre := Collected(Years, Months, yi, mi);
    CollectedPrefix(Years, Months, yi, mi);
    FirstFound(AllPeriods(), pre, Period(Months[mi], Years[yi]));
  }

  lemma FirstFound(ps: seq<Period>, pre: seq<Period>, p: Period)
    requires |pre| < |ps| && ps[..|pre| + 1] == pre + [p] && p !in pre
    ensures ps[..FirstIndex(ps, p)] == pre
  {
    FirstIndexAfter(ps, pre, p);
    assert ps[..|pre|] == (ps[..|pre| + 1])[..|pre|];
  }

  /** Not found anywhere: every period is collected. */
  lemma PeriodsBeforeMissing(month: string, year: string)
    requires Period(month, year) !in AllPeriods()
    ensures PeriodsBefore(month, year) == AllPeriods()
  {
  }

  /** The period loop of `get_cumulative_expenses_until_period`: the two nested loops with the `to_break` flag. */
  method CollectPeriods(month: string, year: string) returns (periods: seq<Period>)
    ensures periods == PeriodsBefore(month, year)
  {
    periods := [];
    var toBreak := false;
    for yi := 0 to |Years|
      invariant !toBreak
      invariant periods == if yi < |Years| then Collected(Years, Months, yi, 0) else AllPeriods()
      invariant Period(month, year) !in periods
    {
      for mi := 0 to |Months|
        invariant !toBreak
        invariant periods == Collected(Years, Months, yi, mi)
        invariant Period(month, year) !in periods
      {
        if Years[yi] == year && Months[mi] == month {
          PeriodsBeforeFound(yi, mi);
          toBreak := true;
          break;
        }
        CollectedStep(Years, Months, yi, mi);
        periods := periods + [Period(Months[mi], Years[yi])];
      }
      if toBreak {
        break;
      }
      if yi + 1 < |Years| {
        CollectedNextYear(Years, Months, yi);
      } else {
        CollectedLastYear(Years, Months, yi);
      }
    }
    if !toBreak {
      PeriodsBeforeMissing(month, year);
    }
  }

  // ---------------------------------------------------------------------
  // Properties of the table statements
  // ---------------------------------------------------------------------

  /** `delete_entry` removes exactly the rows equal to `r`: the other rows stay, each as often as before. */
  lemma WithoutMembers(rows: seq<Row>, r: Row)
    ensures forall x :: x in Without(rows, r) <==> x in rows && x != r
    ensures multiset(Without(rows, r)) == multiset(rows)[r := 0]
  {
    WithoutCounts(rows, r);
    forall x ensures x in Without(rows, r) <==> x in rows && x != r {
      assert x in Without(rows, r) <==> x in multiset(Without(rows, r));
      assert x in rows <==> x in multiset(rows);
    }
  }

  lemma {:induction false} WithoutCounts(rows: seq<Row>, r: Row)
    ensures multiset(Without(rows, r)) == multiset(rows)[r := 0]
    decreases |rows|
  {
    if rows != [] {
      WithoutCounts(rows[1..], r);
      assert rows == [rows[0]] + rows[1..];
      assert multiset(rows) == multiset{rows[0]} + multiset(rows[1..]);
    }
  }


  /** Deleting keeps the order of the remaining rows: it distributes over concatenation. */
  lemma {:induction false} WithoutAppend(a: seq<Row>, b: seq<Row>, r: Row)
    ensures Without(a + b, r) == Without(a, r) + Without(b, r)
    decreases |a|
  {
    if a == [] {
      assert a + b == b;
    } else {
      assert (a + b)[1..] == a[1..] + b;
      WithoutAppend(a[1..], b, r);
    }
  }

  /** A table without `r` is left as it is. */
  lemma {:induction false} WithoutAbsent(rows: seq<Row>, r: Row)
    requires r !in rows
    ensures Without(rows, r) == rows
    decreases |rows|
  {
    if rows != [] {
      WithoutAbsent(rows[1..], r);
    }
  }

  /** Deleting right after adding the same row leaves the table as the delete alone would. */
  lemma DeleteAfterAdd(rows: seq<Row>, r: Row)
    ensures Without(rows + [r], r) == Without(rows, r)
  {
    WithoutAppend(rows, [r], r);
    assert Without([r], r) == [];
  }

  /** Deleting twice is deleting once. */
  lemma DeleteIdempotent(rows: seq<Row>, r: Row)
    ensures Without(Without(rows, r), r) == Without(rows, r)
  {
    WithoutMembers(rows, r);
    WithoutAbsent(Without(rows, r), r);
  }

  /** The query selects exactly the rows of the period. */
  lemma {:induction false} SelectMembers(rows: seq<Row>, month: string, year: string)
    ensures forall x :: x in Select(rows, month, year) <==> x in rows && x.month == month && x.year == year
    decreases |rows|
  {
    if rows != [] {
      SelectMembers(rows[1..], month, year);
      assert rows == [rows[0]] + rows[1..];
    }
  }

  /** The query keeps table order: it distributes over concatenation. */
  lemma {:induction false} SelectAppend(a: seq<Row>, b: seq<Row>, month: string, year: string)
    ensures Select(a + b, month, year) == Select(a, month, year) + Select(b, month, year)
    decreases |a|
  {
    if a == [] {
      assert a + b == b;
    } else {
      assert (a + b)[1..] == a[1..] + b;
      SelectAppend(a[1..], b, month, year);
    }
  }

  /** A row added for another period does not change what the query returns. */
  lemma SelectAfterAdd(rows: seq<Row>, x: Row, month: string, year: string)
    ensures Select(rows + [x], month, year)
         == Select(rows, month, year) + (if x.month == month && x.year == year then [x] else [])
  {
    SelectAppend(rows, [x], month, year);
    assert [x][1..] == [];
  }

  // ---------------------------------------------------------------------
  // Properties of get_elements_period
  // ---------------------------------------------------------------------

  /** The query raises ValueError exactly when some row of the period has a day that `int` rejects. */
  lemma ElementsPeriodRaises(rows: seq<Row>, month: string, year: string)
    ensures ElementsPeriod(rows, month, year).Ok?
        <==> forall x :: x in rows && x.month == month && x.year == year ==> PyInt(x.day).Some?
  {
    var sel := Select(rows, month, year);
    var items := ProjectAll(sel);
    SelectMembers(rows, month, year);
    if DaysAreInts(items) {
      forall x | x in rows && x.month == month && x.year == year ensures PyInt(x.day).Some? {
        var i :| 0 <= i < |sel| && sel[i] == x;
        assert items[i] == Project(x);
      }
    } else {
      var i :| 0 <= i < |items| && PyInt(items[i].day).None?;
      assert sel[i] in sel;
    }
  }

  /**
   * On success the result is the stable sort by day of the period's items
   * in table order: the same items, ascending by `int(day)`, items of equal
   * day in table order.
   */
  lemma ElementsPeriodSorted(rows: seq<Row>, month: string, year: string)
    requires ElementsPeriod(rows, month, year).Ok?
    ensures StableSort.IsStableSortOf(ElementsPeriod(rows, month, year).value,
                                      ProjectAll(Select(rows, month, year)), DayKey)
    ensures multiset(ElementsPeriod(rows, month, year).value) == multiset(ProjectAll(Select(rows, month, year)))
  {
    StableSort.SortByIsStableSort(ProjectAll(Select(rows, month, year)), DayKey);
  }

  /** On success every day of the result is an integer, and they ascend. */
  lemma ElementsPeriodAscending(rows: seq<Row>, month: string, year: string)
    requires ElementsPeriod(rows, month, year).Ok?
    ensures forall i :: 0 <= i < |ElementsPeriod(rows, month, year).value| ==>
              PyInt(ElementsPeriod(rows, month, year).value[i].day).Some?
    ensures forall i, j :: 0 <= i < j < |ElementsPeriod(rows, month, year).value| ==>
              PyInt(ElementsPeriod(rows, month, year).value[i].day).value <=
              PyInt(ElementsPeriod(rows, month, year).value[j].day).value
  {
    var items := ProjectAll(Select(rows, month, year));
    var r := ElementsPeriod(rows, month, year).value;
    ElementsPeriodSorted(rows, month, year);
    forall i | 0 <= i < |r| ensures PyInt(r[i].day).Some? {
      assert r[i] in multiset(items);
      var k :| 0 <= k < |items| && items[k] == r[i];
    }
  }

  // ---------------------------------------------------------------------
  // Properties of the row loop
  // ---------------------------------------------------------------------

  /** `float(item[4])` of a row, zero where it raises. */
  function Cents(x: Row, read: string -> Option<nat>): nat {
    match read(x.value)
    case Some(v) => v
    case None => 0
  }

  /** The sum of the values of the rows in category `c`. */
  function CategorySum(rows: seq<Row>, c: string, read: string -> Option<nat>): nat
    decreases |rows|
  {
    if rows == [] then 0
    else CategorySum(rows[..|rows| - 1], c, read) + (if rows[|rows| - 1].category == c then Cents(rows[|rows| - 1], read) else 0)
  }

  /** A row the loop adds without raising, to totals whose categories are `keys`. */
  predicate Addable(keys: set<string>, x: Row, read: string -> Option<nat>) {
    read(x.value).Some? && x.category in keys
  }

  /** The row loop keeps the categories it started with. */
  lemma {:induction false} AddRowsKeys(totals: map<string, int>, rows: seq<Row>, read: string -> Option<nat>)
    ensures AddRows(totals, rows, read).Ok? ==> AddRows(totals, rows, read).value.Keys == totals.Keys
    decreases |rows|
  {
    if rows != [] {
      AddRowsKeys(totals, rows[..|rows| - 1], read);
    }
  }

  /** After the loop every category holds its starting value plus the values of its rows. */
  lemma {:induction false} AddRowsSums(totals: map<string, int>, rows: seq<Row>, read: string -> Option<nat>)
    ensures AddRows(totals, rows, read).Ok? ==>
              forall c :: c in totals ==>
                c in AddRows(totals, rows, read).value && AddRows(totals, rows, read).value[c] == totals[c] + CategorySum(rows, c, read)
    decreases |rows|
  {
    AddRowsKeys(totals, rows, read);
    if rows != [] && AddRows(totals, rows, read).Ok? {
      var front := rows[..|rows| - 1];
      AddRowsSums(totals, front, read);
      AddRowsKeys(totals, front, read);
    }
  }

  /** The loop raises nothing exactly when every row is addable to the starting categories. */
  lemma AddRowsOk(totals: map<string, int>, rows: seq<Row>, read: string -> Option<nat>)
    ensures AddRows(totals, rows, read).Ok? <==> forall i :: 0 <= i < |rows| ==> Addable(totals.Keys, rows[i], read)
  {
    if AddRows(totals, rows, read).Ok? {
      AddRowsOkAddable(totals, rows, read);
    } else {
      AddRowsErrNotAddable(totals, rows, read);
    }
  }

  lemma {:induction false} AddRowsOkAddable(totals: map<string, int>, rows: seq<Row>, read: string -> Option<nat>)
    requires AddRows(totals, rows, read).Ok?
    ensures forall i :: 0 <= i < |rows| ==> Addable(totals.Keys, rows[i], read)
    decreases |rows|
  {
    if rows != [] {
      var front := rows[..|rows| - 1];
      var last := rows[|rows| - 1];
      OkStep(totals, front, last, read);
      assert rows == front + [last];
      AddRowsOkAddable(totals, front, read);
      AddableSnoc(totals.Keys, front, last, read);
    }
  }

  lemma OkStep(totals: map<string, int>, front: seq<Row>, last: Row, read: string -> Option<nat>)
    requires AddRows(totals, front + [last], read).Ok?
    ensures AddRows(totals, front, read).Ok? && Addable(totals.Keys, last, read)
  {
    assert (front + [last])[..|front|] == front;
    AddRowsKeys(totals, front, read);
  }

  lemma AddableSnoc(keys: set<string>, front: seq<Row>, last: Row, read: string -> Option<nat>)
    requires forall i :: 0 <= i < |front| ==> Addable(keys, front[i], read)
    requires Addable(keys, last, read)
    ensures forall i :: 0 <= i < |front + [last]| ==> Addable(keys, (front + [last])[i], read)
  {
  }

  lemma {:induction false} AddRowsErrNotAddable(totals: map<string, int>, rows: seq<Row>, read: string -> Option<nat>)
    requires AddRows(totals, rows, read).Err?
    ensures exists i :: 0 <= i < |rows| && !Addable(totals.Keys, rows[i], read)
    decreases |rows|
  {
    var front := rows[..|rows| - 1];
    var last := rows[|rows| - 1];
    if AddRows(totals, front, read).Err? {
      AddRowsErrNotAddable(totals, front, read);
      var i :| 0 <= i < |front| && !Addable(totals.Keys, front[i], read);
      assert rows[i] == front[i];
    } else {
      AddRowsKeys(totals, front, read);
      assert !Addable(totals.Keys, rows[|rows| - 1], read);
    }
  }

  /** Once the loop has raised on a prefix, the rest of the rows change nothing. */
  lemma {:induction false} AddRowsErrStays(totals: map<string, int>, rows: seq<Row>, k: nat, read: string -> Option<nat>)
    requires k <= |rows| && AddRows(totals, rows[..k], read).Err?
    ensures AddRows(totals, rows, read) == AddRows(totals, rows[..k], read)
    decreases |rows|
  {
    if k < |rows| {
      var front := rows[..|rows| - 1];
      assert front[..k] == rows[..k];
      AddRowsErrStays(totals, front, k, read);
    } else {
      assert rows[..k] == rows;
    }
  }

  /** The first row that is not addable decides the error: ValueError for its value, else KeyError. */
  lemma AddRowsFirstError(totals: map<string, int>, rows: seq<Row>, i: nat, read: string -> Option<nat>)
    requires i < |rows| && !Addable(totals.Keys, rows[i], read)
    requires forall j :: 0 <= j < i ==> Addable(totals.Keys, rows[j], read)
    ensures AddRows(totals, rows, read) == Err(if read(rows[i].value).None? then ValueError else KeyError)
  {
    var pre := rows[..i];
    AddRowsOk(totals, pre, read);
    AddRowsKeys(totals, pre, read);
    assert rows[..i + 1][..i] == pre;
    AddRowsErrStays(totals, rows, i + 1, read);
  }

  /** One more row: the loop body applied to what the loop has so far. */
  lemma AddRowsSnoc(totals: map<string, int>, rows: seq<Row>, j: nat, read: string -> Option<nat>)
    requires j < |rows|
    ensures AddRows(totals, rows[..j + 1], read) ==
              match AddRows(totals, rows[..j], read)
              case Err(e) => Err(e)
              case Ok(t) => AddRow(t, rows[j], read)
  {
    assert rows[..j + 1][..j] == rows[..j];
  }

  // ---------------------------------------------------------------------
  // Properties of the period loop
  // ---------------------------------------------------------------------

  /** The key `f"{m}|{y}"` determines the period when no month contains the separator. */
  lemma PeriodKeyInjective(p: Period, q: Period)
    requires '|' !in p.month && '|' !in q.month
    requires PeriodKey(p) == PeriodKey(q)
    ensures p == q
  {
    SplitPrefix(p.month, p.year, '|');
    SplitPrefix(q.month, q.year, '|');
    assert p.month == Split(PeriodKey(p), '|')[0] == q.month;
    assert p.year == PeriodKey(p)[|p.month| + 1..] == PeriodKey(q)[|q.month| + 1..] == q.year;
  }

  /** One more period: the loop body applied to what the loop has so far. */
  lemma WalkSnoc(tot: Period -> Result<map<string, int>>, ps: seq<Period>, j: nat)
    requires j < |ps|
    ensures Walk(tot, ps[..j + 1]) ==
              match Walk(tot, ps[..j])
              case Err(e) => Err(e)
              case Ok(acc) =>
                match tot(ps[j])
                case Err(e) => Err(e)
                case Ok(t) => Ok(acc[PeriodKey(ps[j]) := t])
  {
    assert ps[..j + 1][..j] == ps[..j];
  }

  /** Once a period has raised, the later periods change nothing. */
  lemma {:induction false} WalkErrStays(tot: Period -> Result<map<string, int>>, ps: seq<Period>, k: nat)
    requires k <= |ps| && Walk(tot, ps[..k]).Err?
    ensures Walk(tot, ps) == Walk(tot, ps[..k])
    decreases |ps|
  {
    if k < |ps| {
      var front := ps[..|ps| - 1];
      assert front[..k] == ps[..k];
      WalkErrStays(tot, front, k);
    } else {
      assert ps[..k] == ps;
    }
  }

  /** The period loop raises nothing exactly when no period's row loop raises. */
  lemma WalkOk(tot: Period -> Result<map<string, int>>, ps: seq<Period>)
    ensures Walk(tot, ps).Ok? <==> forall i :: 0 <= i < |ps| ==> tot(ps[i]).Ok?
  {
    if Walk(tot, ps).Ok? {
      WalkOkPeriods(tot, ps);
    } else {
      WalkErrPeriod(tot, ps);
    }
  }

  lemma {:induction false} WalkOkPeriods(tot: Period -> Result<map<string, int>>, ps: seq<Period>)
    requires Walk(tot, ps).Ok?
    ensures forall i :: 0 <= i < |ps| ==> tot(ps[i]).Ok?
    decreases |ps|
  {
    if ps != [] {
      var front := ps[..|ps| - 1];
      var last := ps[|ps| - 1];
      assert ps == front + [last];
      assert Walk(tot, front).Ok? && tot(last).Ok?;
      WalkOkPeriods(tot, front);
      forall i | 0 <= i < |ps| ensures tot(ps[i]).Ok? {
        if i < |front| {
          assert ps[i] == front[i];
        }
      }
    }
  }

  lemma {:induction false} WalkErrPeriod(tot: Period -> Result<map<string, int>>, ps: seq<Period>)
    requires Walk(tot, ps).Err?
    ensures exists i :: 0 <= i < |ps| && tot(ps[i]).Err?
    decreases |ps|
  {
    var front := ps[..|ps| - 1];
    if Walk(tot, front).Err? {
      WalkErrPeriod(tot, front);
      var i :| 0 <= i < |front| && tot(front[i]).Err?;
      assert ps[i] == front[i];
    } else {
      assert tot(ps[|ps| - 1]).Err?;
    }
  }

  /** The first period whose row loop raises decides the error of the whole loop. */
  lemma WalkFirstError(tot: Period -> Result<map<string, int>>, ps: seq<Period>, i: nat)
    requires i < |ps| && tot(ps[i]).Err?
    requires forall j :: 0 <= j < i ==> tot(ps[j]).Ok?
    ensures Walk(tot, ps) == Err(tot(ps[i]).error)
  {
    var pre := ps[..i];
    assert forall j :: 0 <= j < |pre| ==> pre[j] == ps[j];
    WalkOk(tot, pre);
    WalkSnoc(tot, ps, i);
    WalkErrStays(tot, ps, i + 1);
  }

  /** On success the keys are exactly those of the periods walked. */
  lemma {:induction false} WalkKeys(tot: Period -> Result<map<string, int>>, ps: seq<Period>)
    requires Walk(tot, ps).Ok?
    ensures Walk(tot, ps).value.Keys == set p | p in ps :: PeriodKey(p)
    decreases |ps|
  {
    if ps != [] {
      var front := ps[..|ps| - 1];
      var last := ps[|ps| - 1];
      assert ps == front + [last];
      WalkKeys(tot, front);
      assert (set p | p in ps :: PeriodKey(p)) == (set p | p in front :: PeriodKey(p)) + {PeriodKey(last)};
    }
  }

  /** On success every period's key holds that period's totals. */
  lemma {:induction false} WalkValues(tot: Period -> Result<map<string, int>>, ps: seq<Period>)
    requires forall i :: 0 <= i < |ps| ==> '|' !in ps[i].month
    requires Walk(tot, ps).Ok?
    ensures forall i :: 0 <= i < |ps| ==>
              PeriodKey(ps[i]) in Walk(tot, ps).value &&
              tot(ps[i]) == Ok(Walk(tot, ps).value[PeriodKey(ps[i])])
    decreases |ps|
  {
    if ps != [] {
      var front := ps[..|ps| - 1];
      var last := ps[|ps| - 1];
      assert ps == front + [last];
      WalkStepOk(tot, front, last);
      WalkValues(tot, front);
      KeyedUpdate(tot, Walk(tot, front).value, front, last, tot(last).value);
    }
  }

  /** Storing the totals of the next period keeps the earlier periods' totals under their keys. */
  lemma KeyedUpdate(tot: Period -> Result<map<string, int>>, acc: map<string, map<string, int>>, front: seq<Period>, last: Period,
                    t: map<string, int>)
    requires forall i :: 0 <= i < |front| ==> '|' !in front[i].month
    requires '|' !in last.month
    requires forall i :: 0 <= i < |front| ==>
               PeriodKey(front[i]) in acc && tot(front[i]) == Ok(acc[PeriodKey(front[i])])
    requires tot(last) == Ok(t)
    ensures forall i :: 0 <= i < |front + [last]| ==>
              PeriodKey((front + [last])[i]) in acc[PeriodKey(last) := t] &&
              tot((front + [last])[i]) == Ok(acc[PeriodKey(last) := t][PeriodKey((front + [last])[i])])
  {
    var ps := front + [last];
    forall i | 0 <= i < |ps|
      ensures PeriodKey(ps[i]) in acc[PeriodKey(last) := t]
      ensures tot(ps[i]) == Ok(acc[PeriodKey(last) := t][PeriodKey(ps[i])])
    {
      if i < |front| {
        assert ps[i] == front[i];
        if PeriodKey(front[i]) == PeriodKey(last) {
          PeriodKeyInjective(front[i], last);
        }
      }
    }
  }

  /** A successful walk over one more period extends a successful walk by that period's totals. */
  lemma WalkStepOk(tot: Period -> Result<map<string, int>>, front: seq<Period>, last: Period)
    requires Walk(tot, front + [last]).Ok?
    ensures Walk(tot, front).Ok? && tot(last).Ok?
    ensures Walk(tot, front + [last]).value
         == Walk(tot, front).value[PeriodKey(last) := tot(last).value]
  {
    assert (front + [last])[..|front|] == front;
  }

  // ---------------------------------------------------------------------
  // The periods before a target
  // ---------------------------------------------------------------------

  /** Every period of the first `k` years takes its year from those years and its month from `ms`. */
  lemma {:induction false} PeriodsOfYearsMembers(ys: seq<string>, ms: seq<string>, k: nat)
    requires k <= |ys|
    ensures |PeriodsOfYears(ys, ms, k)| == k * |ms|
    ensures forall i :: 0 <= i < |PeriodsOfYears(ys, ms, k)| ==>
              PeriodsOfYears(ys, ms, k)[i].month in ms && PeriodsOfYears(ys, ms, k)[i].year in ys[..k]
    decreases k
  {
    if k > 0 {
      PeriodsOfYearsMembers(ys, ms, k - 1);
      var front: seq<Period> := PeriodsOfYears(ys, ms, k - 1);
      var year: seq<Period> := YearPeriods(ms, ys[k - 1], |ms|);
      var all: seq<Period> := front + year;
      forall i | 0 <= i < |all| ensures all[i].month in ms && all[i].year in ys[..k] {
        if i < |front| {
          assert all[i] == front[i];
          assert front[i].year in ys[..k - 1];
          assert ys[..k - 1] == ys[..k][..k - 1];
        } else {
          assert all[i] == Period(ms[i - |front|], ys[k - 1]);
          assert ys[..k][k - 1] == ys[k - 1];
        }
      }
    }
  }

  /** With distinct years and distinct months, the target is not among the periods collected before it. */
  lemma TargetNotCollected(ys: seq<string>, ms: seq<string>, yi: nat, mi: nat)
    requires yi < |ys| && mi < |ms|
    requires forall i, j :: 0 <= i < j < |ys| ==> ys[i] != ys[j]
    requires forall i, j :: 0 <= i < j < |ms| ==> ms[i] != ms[j]
    ensures Period(ms[mi], ys[yi]) !in Collected(ys, ms, yi, mi)
    ensures |Collected(ys, ms, yi, mi)| == yi * |ms| + mi
  {
    var done := PeriodsOfYears(ys, ms, yi);
    var year := YearPeriods(ms, ys[yi], mi);
    PeriodsOfYearsMembers(ys, ms, yi);
    assert ys[yi] !in ys[..yi];
    assert Period(ms[mi], ys[yi]) !in done;
    assert Period(ms[mi], ys[yi]) !in year;
  }

  /** For a known month and year the loops collect every earlier period: `12 * yi + mi` of them. */
  lemma PeriodsBeforeTarget(yi: nat, mi: nat)
    requires yi < |Years| && mi < |Months|
    ensures PeriodsBefore(Months[mi], Years[yi]) == Collected(Years, Months, yi, mi)
    ensures |PeriodsBefore(Months[mi], Years[yi])| == 12 * yi + mi
  {
    YearsIncreasing();
    MonthsDistinct();
    TargetNotCollected(Years, Months, yi, mi);
    PeriodsBeforeFound(yi, mi);
  }

  /** January 2024, the first period, has no period before it. */
  lemma PeriodsBeforeFirst()
    ensures PeriodsBefore("January", "2024") == []
  {
    YearsSpan();
    PeriodsBeforeTarget(0, 0);
  }

  /** A month or year outside the registries makes the loops collect all 84 periods. */
  lemma PeriodsBeforeUnknown(month: string, year: string)
    requires month !in Months || year !in Years
    ensures PeriodsBefore(month, year) == AllPeriods()
    ensures |AllPeriods()| == 84
  {
    AllPeriodsShape();
    NotAmong(AllPeriods(), Period(month, year));
    PeriodsBeforeMissing(month, year);
  }

  /** The 84 periods, each a month of `MONTHS` in a year of `YEARS`. */
  lemma AllPeriodsShape()
    ensures |AllPeriods()| == 84
    ensures forall i :: 0 <= i < |AllPeriods()| ==> AllPeriods()[i].month in Months && AllPeriods()[i].year in Years
  {
    PeriodsOfYearsMembers(Years, Months, |Years|);
    YearsIncreasing();
    SliceAll(Years);
  }

  lemma NotAmong(ps: seq<Period>, p: Period)
    requires forall i :: 0 <= i < |ps| ==> ps[i].month in Months && ps[i].year in Years
    requires p.month !in Months || p.year !in Years
    ensures p !in ps
  {
  }

  // ---------------------------------------------------------------------
  // get_cumulative_expenses_until_period, end to end
  // ---------------------------------------------------------------------

  lemma ZeroTotalsKeys()
    ensures ZeroTotals().Keys == set c | c in Categories
    ensures forall c :: c in Categories ==> c in ZeroTotals() && ZeroTotals()[c] == 0
  {
  }

  /** A period's row loop raises nothing exactly when each of its rows has a value `float` reads and a known category. */
  lemma PeriodTotalsOk(rows: seq<Row>, p: Period)
    ensures PeriodTotals(rows, p).Ok? <==>
              forall x :: x in Select(rows, p.month, p.year) ==> ValueCents(x.value).Some? && x.category in Categories
  {
    var sel := Select(rows, p.month, p.year);
    AddRowsOk(ZeroTotals(), sel, ValueCents);
    ZeroTotalsKeys();
    assert forall x :: x in sel ==> (Addable(ZeroTotals().Keys, x, ValueCents) <==> ValueCents(x.value).Some? && x.category in Categories);
  }

  /** A period's totals hold every category, each the sum of the values of that period's rows in it. */
  lemma PeriodTotalsSums(rows: seq<Row>, p: Period)
    requires PeriodTotals(rows, p).Ok?
    ensures PeriodTotals(rows, p).value.Keys == set c | c in Categories
    ensures forall c :: c in Categories ==>
              c in PeriodTotals(rows, p).value &&
              PeriodTotals(rows, p).value[c] == CategorySum(Select(rows, p.month, p.year), c, ValueCents)
  {
    var sel := Select(rows, p.month, p.year);
    ZeroTotalsKeys();
    AddRowsKeys(ZeroTotals(), sel, ValueCents);
    AddRowsSums(ZeroTotals(), sel, ValueCents);
  }

  lemma MonthsBarFree()
    ensures forall i :: 0 <= i < |Months| ==> '|' !in Months[i]
  {
  }

  /** The months of the periods before any target are those of `MONTHS`, none containing the separator. */
  lemma PeriodsBeforeMonths(month: string, year: string)
    ensures forall i :: 0 <= i < |PeriodsBefore(month, year)| ==> '|' !in PeriodsBefore(month, year)[i].month
  {
    PeriodsOfYearsMembers(Years, Months, |Years|);
    MonthsBarFree();
    BarFreeMonths(AllPeriods(), Months);
    BarFreePrefix(AllPeriods(), FirstIndex(AllPeriods(), Period(month, year)));
  }

  lemma BarFreeMonths(ps: seq<Period>, ms: seq<string>)
    requires forall i :: 0 <= i < |ps| ==> ps[i].month in ms
    requires forall i :: 0 <= i < |ms| ==> '|' !in ms[i]
    ensures forall i :: 0 <= i < |ps| ==> '|' !in ps[i].month
  {
    forall i | 0 <= i < |ps| ensures '|' !in ps[i].month {
      var k :| 0 <= k < |ms| && ms[k] == ps[i].month;
    }
  }

  lemma BarFreePrefix(ps: seq<Period>, n: nat)
    requires n <= |ps|
    requires forall i :: 0 <= i < |ps| ==> '|' !in ps[i].month
    ensures forall i :: 0 <= i < n ==> '|' !in ps[..n][i].month
  {
  }

  /** The query raises exactly when the row loop of some period before the target raises. */
  lemma CumulativeOk(rows: seq<Row>, month: string, year: string)
    ensures Cumulative(rows, month, year).Ok? <==>
              forall p :: p in PeriodsBefore(month, year) ==> PeriodTotals(rows, p).Ok?
  {
    WalkOk(TotalsOf(rows), PeriodsBefore(month, year));
  }

  /**
   * On success the result has one key `f"{m}|{y}"` per period before the
   * target, and under it that period's totals.
   */
  lemma CumulativeKeys(rows: seq<Row>, month: string, year: string)
    requires Cumulative(rows, month, year).Ok?
    ensures Cumulative(rows, month, year).value.Keys == set p | p in PeriodsBefore(month, year) :: PeriodKey(p)
  {
    WalkKeys(TotalsOf(rows), PeriodsBefore(month, year));
  }

  lemma CumulativeValues(rows: seq<Row>, month: string, year: string)
    requires Cumulative(rows, month, year).Ok?
    ensures forall p :: p in PeriodsBefore(month, year) ==>
              PeriodKey(p) in Cumulative(rows, month, year).value &&
              PeriodTotals(rows, p) == Ok(Cumulative(rows, month, year).value[PeriodKey(p)])
  {
    var ps := PeriodsBefore(month, year);
    PeriodsBeforeMonths(month, year);
    WalkValues(TotalsOf(rows), ps);
    forall p | p in ps
      ensures PeriodKey(p) in Cumulative(rows, month, year).value
      ensures PeriodTotals(rows, p) == Ok(Cumulative(rows, month, year).value[PeriodKey(p)])
    {
      var i :| 0 <= i < |ps| && ps[i] == p;
    }
  }

  // ---------------------------------------------------------------------
  // The handler
  // ---------------------------------------------------------------------

  /** The zero-initialised totals of a period: one entry per category of `CATEGORIES_AVAILABLE`. */
  method ZeroFill() returns (totals: map<string, int>)
    ensures totals == ZeroTotals()
  {
    totals := map[];
    for i := 0 to |Categories|
      invariant totals == map c | c in Categories[..i] :: 0
    {
      assert Categories[..i + 1] == Categories[..i] + [Categories[i]];
      totals := totals[Categories[i] := 0];
    }
    assert Categories[..|Categories|] == Categories;
  }

  /**
   * The row loop of one period from `start`: `read` the value (`float`),
   * then `+=` into the category's entry.
   */
  method AddPeriodRows(start: map<string, int>, items: seq<Row>, read: string -> Option<nat>)
    returns (r: Result<map<string, int>>)
    ensures r == AddRows(start, items, read)
  {
    var totals := start;
    for j := 0 to |items|
      invariant AddRows(start, items[..j], read) == Ok(totals)
    {
      var item := items[j];
      var value := read(item.value);
      if value.None? || item.category !in totals {
        AddRowsStops(start, items, j, totals, read);
        return Err(if value.None? then ValueError else KeyError);
      }
      AddRowsNext(start, items, j, totals, value.value, read);
      totals := totals[item.category := totals[item.category] + value.value];
    }
    SliceAll(items);
    r := Ok(totals);
  }

  lemma SliceAll<T>(s: seq<T>)
    ensures s[..|s|] == s
  {
  }

  lemma SliceSnoc<T>(s: seq<T>, j: nat)
    requires j < |s|
    ensures s[..j + 1] == s[..j] + [s[j]]
  {
  }

  /** The row loop adds a readable row of a known category to its totals. */
  lemma AddRowsNext(start: map<string, int>, rows: seq<Row>, j: nat, totals: map<string, int>, v: nat,
                    read: string -> Option<nat>)
    requires j < |rows| && AddRows(start, rows[..j], read) == Ok(totals)
    requires read(rows[j].value) == Some(v) && rows[j].category in totals
    ensures AddRows(start, rows[..j + 1], read) == Ok(totals[rows[j].category := totals[rows[j].category] + v])
  {
    AddRowsSnoc(start, rows, j, read);
    AddRowAdds(totals, rows[j], v, read);
  }

  /** The period loop stores the totals of a period whose row loop succeeds. */
  lemma WalkNext(tot: Period -> Result<map<string, int>>, ps: seq<Period>, i: nat,
                 acc: map<string, map<string, int>>, t: map<string, int>)
    requires i < |ps| && Walk(tot, ps[..i]) == Ok(acc) && tot(ps[i]) == Ok(t)
    ensures Walk(tot, ps[..i + 1]) == Ok(acc[PeriodKey(ps[i]) := t])
  {
    WalkSnoc(tot, ps, i);
  }

  /** The period loop stops at the first period whose row loop raises, with its error. */
  lemma WalkStops(tot: Period -> Result<map<string, int>>, ps: seq<Period>, i: nat,
                  acc: map<string, map<string, int>>)
    requires i < |ps| && Walk(tot, ps[..i]) == Ok(acc) && tot(ps[i]).Err?
    ensures Walk(tot, ps) == Err(tot(ps[i]).error)
  {
    WalkSnoc(tot, ps, i);
    WalkErrStays(tot, ps, i + 1);
  }

  lemma ProjectSnoc(rows: seq<Row>, i: nat)
    requires i < |rows|
    ensures ProjectAll(rows[..i + 1]) == ProjectAll(rows[..i]) + [Project(rows[i])]
  {
  }

  /** The row loop stops at a row it cannot add, with that row's error. */
  lemma AddRowsStops(start: map<string, int>, rows: seq<Row>, j: nat, totals: map<string, int>,
                     read: string -> Option<nat>)
    requires j < |rows| && AddRows(start, rows[..j], read) == Ok(totals)
    requires read(rows[j].value).None? || rows[j].category !in totals
    ensures AddRows(start, rows, read) == Err(if read(rows[j].value).None? then ValueError else KeyError)
  {
    AddRowsSnoc(start, rows, j, read);
    AddRowsErrStays(start, rows, j + 1, read);
  }

  /** The loop building `items_list`: `item[2:]` of every fetched row, in order. */
  method ProjectItems(fetched: seq<Row>) returns (items: seq<Item>)
    ensures items == ProjectAll(fetched)
  {
    items := [];
    for i := 0 to |fetched|
      invariant items == ProjectAll(fetched[..i])
    {
      var x := fetched[i];
      ProjectSnoc(fetched, i);
      items := items + [Item(x.day, x.category, x.value, x.description)];
    }
    SliceAll(fetched);
  }

  /** A scan that stops at the first element failing `p`. */
  method CheckAll<T>(s: seq<T>, p: T -> bool) returns (ok: bool)
    ensures ok == All(s, p)
  {
    for i := 0 to |s|
      invariant forall k :: 0 <= k < i ==> p(s[k])
    {
      if !p(s[i]) {
        return false;
      }
    }
    return true;
  }

  /** `DatabaseHandler`: the rows of `user_data`, in insertion order. */
  class DatabaseHandler {
    var rows: seq<Row>

    /** Opening a database whose table already holds `stored`. */
    constructor(stored: seq<Row>)
      ensures rows == stored
    {
      rows := stored;
    }

    /** `add_entry`: the new row goes at the end of the table. */
    method AddEntry(month: string, year: string, day: string, category: string, value: string, description: string)
      modifies this
      ensures rows == old(rows) + [Row(month, year, day, category, value, description)]
    {
      rows := rows + [Row(month, year, day, category, value, description)];
    }

    /** `delete_entry`: every row equal in all six columns goes; the others stay in order. */
    method DeleteEntry(month: string, year: string, day: string, category: string, value: string, description: string)
      modifies this
      ensures rows == Without(old(rows), Row(month, year, day, category, value, description))
    {
      rows := Without(rows, Row(month, year, day, category, value, description));
    }

    /** `get_elements_period`: the period's items, sorted by `int(day)`; ValueError for a day `int` rejects. */
    method GetElementsPeriod(month: string, year: string) returns (r: Result<seq<Item>>)
      ensures r == ElementsPeriod(rows, month, year)
    {
      var items := ProjectItems(Select(rows, month, year));
      // the key computation of the sort: `int(x[0])` of every item
      var ok := CheckAll(items, DayIsInt);
      if !ok {
        return Err(ValueError);
      }
      r := Ok(StableSort.SortBy(items, DayKey));
    }

    /**
     * `get_cumulative_expenses_until_period`: the totals per category of
     * every period before (month, year), keyed `f"{m}|{y}"`.
     */
    method GetCumulativeExpensesUntilPeriod(month: string, year: string)
      returns (r: Result<map<string, map<string, int>>>)
      ensures r == Cumulative(rows, month, year)
    {
      var periods := CollectPeriods(month, year);
      var itemsList: map<string, map<string, int>> := map[];
      for i := 0 to |periods|
        invariant Walk(TotalsOf(rows), periods[..i]) == Ok(itemsList)
      {
        var p := periods[i];
        var zero := ZeroFill();
        var totals := AddPeriodRows(zero, Select(rows, p.month, p.year), ValueCents);
        assert TotalsOf(rows)(p) == totals;
        if totals.Err? {
          WalkStops(TotalsOf(rows), periods, i, itemsList);
          return Err(totals.error);
        }
        WalkNext(TotalsOf(rows), periods, i, itemsList, totals.value);
        itemsList := itemsList[PeriodKey(p) := totals.value];
      }
      SliceAll(periods);
      r := Ok(itemsList);
    }
  }
}
