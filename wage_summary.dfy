/** The wage summary (`generateWageSummaryPdf`): a single page for the head-load workers listing
    each worker's salary, attendance and average salary per day, with a total row. */
module WageSummary {
  import opened Wrappers
  import opened Money
  import opened Entities
  import Store
  import Text
  import opened PeriodEntries
  import ReportText

  /** One worker's row: the wage entered (paise) and the days worked. */
  datatype SummaryRow = SummaryRow(name: string, wages: int, days: int)

  /** The average per day in paise: the quotient rounded half-up to two decimals. Only asked for
      a positive number of days. */
  function AveragePaise(wages: int, days: int): (r: int)
    requires days > 0
    ensures RoundsHalfUp(r, wages, days)
  {
    RoundHalfUp(wages, days)
  }

  /** The average cell: `BigDecimal.ZERO` (printed "0") unless the days are positive. */
  function AverageText(wages: int, days: int): string {
    if days > 0 then ReportText.AmountText(AveragePaise(wages, days)) else "0"
  }

  /** The row of one entry, or `None` where the report fails: a missing day count cannot be
      converted and a missing wage cannot be added to the total. */
  function RowOf(e: Entry): (r: Option<SummaryRow>)
    requires e.employee.Some?
    ensures r.None? <==> e.daysWorked.None? || e.wagesEarned.None?
    ensures r.Some? ==> r.value.wages == e.wagesEarned.value && r.value.days == e.daysWorked.value
  {
    if e.daysWorked.None? || e.wagesEarned.None? then None
    else Some(SummaryRow(ReportText.CellText(e.employee.value.fullName), e.wagesEarned.value, e.daysWorked.value))
  }

  /** The five cells of a data row; the wage keeps its two decimals, the days print as a whole. */
  function RowCells(serial: int, r: SummaryRow): seq<string> {
    [Text.IntToString(serial), r.name, ReportText.AmountText(r.wages), Text.IntToString(r.days),
     AverageText(r.wages, r.days)]
  }

  datatype SummaryPage = SummaryPage(title: string, rows: seq<SummaryRow>, totalSalary: int, totalAttendance: int)

  /** The total row: the label, the salary total, the attendance total and the overall average,
      which is the salary total over the attendance total (not the mean of the rows' averages). */
  function TotalCells(p: SummaryPage): seq<string> {
    ["TOTAL", ReportText.AmountText(p.totalSalary), Text.IntToString(p.totalAttendance),
     AverageText(p.totalSalary, p.totalAttendance)]
  }

  function Title(period: Period): string
    requires 1 <= period.month <= 12
  {
    "ARRAKULAM HEAD LOAD SALARY " + ReportText.MonthName(period.month) + " " + Text.IntToString(period.year)
  }

  /** The summary rows of the entries, `None` as soon as one cannot be printed; the same shape as
      `RemittanceReport.RowsOf`, over the summary's rows. */
  function RowsOf(entries: seq<Entry>): (r: Option<seq<SummaryRow>>)
    requires AllHaveEmployees(entries)
    ensures r.Some? ==> |r.value| == |entries|
  {
    if entries == [] then Some([])
    else
      var front := RowsOf(entries[..|entries| - 1]);
      var last := RowOf(entries[|entries| - 1]);
      if front.None? || last.None? then None else Some(front.value + [last.value])
  }

  function SalaryTotal(rows: seq<SummaryRow>): int {
    if rows == [] then 0 else SalaryTotal(rows[..|rows| - 1]) + rows[|rows| - 1].wages
  }

  function AttendanceTotal(rows: seq<SummaryRow>): int {
    if rows == [] then 0 else AttendanceTotal(rows[..|rows| - 1]) + rows[|rows| - 1].days
  }

  function PageOf(title: string, sorted: seq<Entry>): Option<SummaryPage>
    requires AllHaveEmployees(sorted)
  {
    var rows := RowsOf(sorted);
    if rows.None? then None
    else Some(SummaryPage(title, rows.value, SalaryTotal(rows.value), AttendanceTotal(rows.value)))
  }

  /** The report: no page when there is no head-load entry, and `None` where it fails (an employee
      without a category cannot be grouped; the month must be 1..12 to title the page; a
      head-load entry must have its days and wage). Casual labour is grouped but never printed. */
  function Summary(entries: seq<Entry>, period: Period): Option<seq<SummaryPage>>
    requires AllHaveEmployees(entries)
  {
    if exists i :: 0 <= i < |entries| && CategoryOf(entries[i]).None? then None
    else
      var group := OfCategory(entries, HL);
      if group == [] then Some([])
      else if !(1 <= period.month <= 12) then None
      else
        GroupHasEmployees(group);
        var page := PageOf(Title(period), SortedByMemberId(group));
        if page.None? then None else Some([page.value])
  }

  lemma GroupHasEmployees(group: seq<Entry>)
    requires forall i :: 0 <= i < |group| ==> CategoryOf(group[i]).Some?
    ensures AllHaveEmployees(SortedByMemberId(group))
  {
    var sorted := SortedByMemberId(group);
    forall i | 0 <= i < |sorted| ensures sorted[i].employee.Some? {
      assert sorted[i] in multiset(group);
    }
  }

  /** The page loop: a row per entry while the salary and attendance totals run. */
  method BuildPage(title: string, sorted: seq<Entry>) returns (page: Option<SummaryPage>)
    requires AllHaveEmployees(sorted)
    ensures page == PageOf(title, sorted)
  {
    var rows: seq<SummaryRow> := [];
    var totalSalary, totalAttendance := 0, 0;
    var i := 0;
    while i < |sorted|
      invariant 0 <= i <= |sorted|
      invariant RowsOf(sorted[..i]) == Some(rows)
      invariant totalSalary == SalaryTotal(rows) && totalAttendance == AttendanceTotal(rows)
    {
      assert sorted[..i + 1][..i] == sorted[..i];
      var entry := sorted[i];
      if entry.daysWorked.None? || entry.wagesEarned.None? {
        assert RowsOf(sorted[..i + 1]).None?;
        RowsOfNoneExtends(sorted, i + 1);
        return None;
      }
      var wages := entry.wagesEarned.value;
      var days := entry.daysWorked.value;
      var row := SummaryRow(ReportText.CellText(entry.employee.value.fullName), wages, days);
      rows := rows + [row];
      totalSalary := totalSalary + wages;
      totalAttendance := totalAttendance + days;
      i := i + 1;
    }
    assert sorted[..i] == sorted;
    page := Some(SummaryPage(title, rows, totalSalary, totalAttendance));
  }

  /** `generateWageSummaryPdf`. */
  method GenerateSummary(entries: seq<Entry>, period: Period) returns (pages: Option<seq<SummaryPage>>)
    requires AllHaveEmployees(entries)
    ensures pages == Summary(entries, period)
  {
    if exists i :: 0 <= i < |entries| && CategoryOf(entries[i]).None? {
      return None;
    }
    var group := OfCategory(entries, HL);
    if group == [] {
      return Some([]);
    }
    if !(1 <= period.month <= 12) {
      return None;
    }
    GroupHasEmployees(group);
    var page := BuildPage(Title(period), SortedByMemberId(group));
    if page.None? {
      return None;
    }
    pages := Some([page.value]);
  }

  /** The message every exception inside `generateWageSummaryPdf` is rethrown with. */
  const REPORT_ERROR: string := "Error generating Wage Summary PDF"

  /** `generateWageSummaryPdf` as called: the period is looked up by id and its entries fetched
      in repository order; every exception inside, an unknown id's included, is rethrown as
      `REPORT_ERROR`. */
  method GenerateSummaryById(s: Store.State, periodId: nat) returns (r: Result<seq<SummaryPage>, string>)
    requires AllHaveEmployees(EntriesOfPeriod(s.entries, periodId))
    ensures Store.PeriodWithId(s.periods, periodId).None? ==> r == Failure(REPORT_ERROR)
    ensures Store.PeriodWithId(s.periods, periodId).Some? ==>
      var pages := Summary(EntriesOfPeriod(s.entries, periodId), Store.PeriodWithId(s.periods, periodId).value);
      r == if pages.Some? then Success(pages.value) else Failure(REPORT_ERROR)
  {
    var period := Store.PeriodWithId(s.periods, periodId);
    if period.None? {
      return Failure(REPORT_ERROR);
    }
    var pages := GenerateSummary(EntriesOfPeriod(s.entries, periodId), period.value);
    r := if pages.Some? then Success(pages.value) else Failure(REPORT_ERROR);
  }

  /** A row that cannot be printed fails every longer prefix too, as
      `RemittanceReport.RowsOfNoneExtends` states for the remittance rows. */
  lemma {:induction false} RowsOfNoneExtends(entries: seq<Entry>, n: nat)
    requires AllHaveEmployees(entries) && 0 < n <= |entries| && RowsOf(entries[..n]).None?
    ensures RowsOf(entries).None?
    decreases |entries| - n
  {
    if n < |entries| {
      assert entries[..n + 1][..n] == entries[..n];
      RowsOfNoneExtends(entries, n + 1);
    } else {
      assert entries[..n] == entries;
    }
  }

  // ---------------------------------------------------------------------------
  // Properties of the summary
  // ---------------------------------------------------------------------------

  /** The average printed is the nearest whole paise to the exact average: times the days it is
      within half a day's worth of a paisa of the wage, on either side. */
  lemma AverageIsNearest(wages: int, days: int)
    requires days > 0
    ensures var a := AveragePaise(wages, days);
      -days <= 2 * (a * days - wages) <= days
  {
  }

  /** An average is exact when the days divide the wage. */
  lemma {:induction false} AverageOfMultiple(average: int, days: int)
    requires days > 0
    ensures AveragePaise(average * days, days) == average
  {
    RoundHalfUpUnique(average, average * days, days);
  }

  /** The salary total is the sum of the head-load wages entered, in whatever order the entries
      are stored, and the attendance total the sum of their days. */
  lemma SummaryTotals(entries: seq<Entry>, period: Period)
    requires AllHaveEmployees(entries) && Summary(entries, period).Some? && Summary(entries, period).value != []
    ensures var p := Summary(entries, period).value[0];
      var group := OfCategory(entries, HL);
      && |Summary(entries, period).value| == 1
      && |p.rows| == |group| > 0
      && p.totalSalary == WagesTotal(group)
      && p.totalAttendance == DaysTotal(group)
  {
    var group := OfCategory(entries, HL);
    GroupHasEmployees(group);
    var sorted := SortedByMemberId(group);
    TotalsOfRows(sorted);
    WagesPermutation(sorted, group);
  }

  /** The wages entered over a list of entries (missing ones counted as zero). */
  function WagesTotal(entries: seq<Entry>): int {
    if entries == [] then 0 else WagesTotal(entries[..|entries| - 1]) + entries[|entries| - 1].wagesEarned.GetOr(0)
  }

  function DaysTotal(entries: seq<Entry>): int {
    if entries == [] then 0 else DaysTotal(entries[..|entries| - 1]) + entries[|entries| - 1].daysWorked.GetOr(0)
  }

  lemma {:induction false} TotalsOfRows(entries: seq<Entry>)
    requires AllHaveEmployees(entries) && RowsOf(entries).Some?
    ensures SalaryTotal(RowsOf(entries).value) == WagesTotal(entries)
    ensures AttendanceTotal(RowsOf(entries).value) == DaysTotal(entries)
  {
    if entries != [] {
      var front := entries[..|entries| - 1];
      TotalsOfRows(front);
      var rows := RowsOf(entries).value;
      assert rows[..|rows| - 1] == RowsOf(front).value;
    }
  }

  lemma {:induction false} TotalsAppend(a: seq<Entry>, b: seq<Entry>)
    ensures WagesTotal(a + b) == WagesTotal(a) + WagesTotal(b)
    ensures DaysTotal(a + b) == DaysTotal(a) + DaysTotal(b)
    decreases |b|
  {
    if b != [] {
      assert (a + b)[..|a + b| - 1] == a + b[..|b| - 1];
      TotalsAppend(a, b[..|b| - 1]);
    } else {
      assert a + b == a;
    }
  }

  lemma {:induction false} WagesPermutation(a: seq<Entry>, b: seq<Entry>)
    requires multiset(a) == multiset(b)
    ensures WagesTotal(a) == WagesTotal(b) && DaysTotal(a) == DaysTotal(b)
    decreases |a|
  {
    if a == [] {
      assert b == [] by { assert |multiset(b)| == 0; }
    } else {
      var x := a[|a| - 1];
      var front := a[..|a| - 1];
      assert a == front + [x];
      assert x in multiset(b);
      var k :| 0 <= k < |b| && b[k] == x;
      var left, right := b[..k], b[k + 1..];
      RemoveOne(a, b, k);
      SplitAt(b, k);
      WagesPermutation(front, left + right);
      TotalsAppend(front, [x]);
      TotalsAppend(left + [x], right);
      TotalsAppend(left, [x]);
      TotalsAppend(left, right);
    }
  }

  /** 16000 rupees over 26 days average 615.38 rupees a day; 16000 rupees over 0 days print "0". */
  lemma AverageExamples()
    ensures AveragePaise(1_600_000, 26) == 61_538
    ensures AverageText(1_600_000, 0) == "0"
  {
    RoundHalfUpUnique(61_538, 1_600_000, 26);
  }
}
