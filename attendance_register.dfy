/** The attendance register of casual labour (`generateAttendanceRegisterPdf`): the casual entries
    in name order, a first table marking days 1 to 15 and a second marking days 16 to the end of
    the month with the days worked and the salary at the daily rate, and a grand total. */
module AttendanceRegister {
  import opened Wrappers
  import opened Entities
  import Store
  import Text
  import MemberOrder
  import opened PeriodEntries
  import PayrollCalculator
  import ReportText

  /** The fixed daily rate in rupees, and how a worked day is marked. */
  const DAILY_RATE: int := 541
  const MARK: string := "541"

  /** The name the register sorts by; a missing name never reaches a comparison (see `RegisterOf`). */
  function NameOf(e: Entry): string {
    if e.employee.Some? && e.employee.value.fullName.Some? then e.employee.value.fullName.value else ""
  }

  function DayMark(activeDays: set<int>, day: int): string {
    if day in activeDays then MARK else ""
  }

  /** The fifteen day cells of the first table. */
  function FirstMarks(activeDays: set<int>): (r: seq<string>)
    ensures |r| == 15
  {
    seq(15, k requires 0 <= k < 15 => DayMark(activeDays, k + 1))
  }

  /** The sixteen day cells of the second table (days 16 to 31); days past the month are blank. */
  function SecondMarks(activeDays: set<int>, daysInMonth: int): (r: seq<string>)
    ensures |r| == 16
  {
    seq(16, k requires 0 <= k < 16 => if 16 + k <= daysInMonth then DayMark(activeDays, 16 + k) else "")
  }

  /** The day numbers heading the second table, blank past the end of the month. */
  function SecondHeader(daysInMonth: int): (r: seq<string>)
    ensures |r| == 16
  {
    seq(16, k requires 0 <= k < 16 => DayNumber(16 + k, daysInMonth))
  }

  /** A day's column heading: its number, or blank past the end of the month. */
  function DayNumber(day: int, daysInMonth: int): string {
    if day <= daysInMonth then Text.IntToString(day) else ""
  }

  datatype FirstRow = FirstRow(name: string, marks: seq<string>)

  /** A row of the second table: the marks, the days worked and the salary in rupees. */
  datatype SecondRow = SecondRow(name: string, marks: seq<string>, days: int, salary: int)

  /** The register: the month and year its title names, the two tables and the grand totals. */
  datatype Register =
    | NoCasualLabourers
    | Register(month: int, year: int, firstTable: seq<FirstRow>, secondHeader: seq<string>, secondTable: seq<SecondRow>,
               totalAttendance: int, totalSalary: int)

  function FirstRowOf(e: Entry): FirstRow
    requires e.employee.Some?
  {
    FirstRow(ReportText.CellText(e.employee.value.fullName), FirstMarks(e.activeDays))
  }

  function SecondRowOf(e: Entry, daysInMonth: int): (r: SecondRow)
    requires e.employee.Some? && e.daysWorked.Some?
    ensures r.days == e.daysWorked.value
    ensures r.salary * 100 == PayrollCalculator.StandardWage(r.days)
  {
    var days := e.daysWorked.value;
    SecondRow(ReportText.CellText(e.employee.value.fullName), SecondMarks(e.activeDays, daysInMonth), days,
              DAILY_RATE * days)
  }

  /** The cells printed for a second-table row: the name, the marks, the days and the salary. */
  function SecondCells(r: SecondRow): seq<string> {
    [r.name] + r.marks + [Text.IntToString(r.days), Text.IntToString(r.salary)]
  }

  function FirstTable(sorted: seq<Entry>): (r: seq<FirstRow>)
    requires AllHaveEmployees(sorted)
    ensures |r| == |sorted|
    ensures forall i :: 0 <= i < |r| ==> r[i] == FirstRowOf(sorted[i])
  {
    if sorted == [] then [] else FirstTable(sorted[..|sorted| - 1]) + [FirstRowOf(sorted[|sorted| - 1])]
  }

  /** The second table, or `None` when an entry has no day count (it cannot be multiplied). */
  function SecondTable(sorted: seq<Entry>, daysInMonth: int): (r: Option<seq<SecondRow>>)
    requires AllHaveEmployees(sorted)
    ensures r.Some? ==> |r.value| == |sorted|
  {
    if sorted == [] then Some([])
    else
      var front := SecondTable(sorted[..|sorted| - 1], daysInMonth);
      var last := sorted[|sorted| - 1];
      if front.None? || last.daysWorked.None? then None else Some(front.value + [SecondRowOf(last, daysInMonth)])
  }

  function AttendanceTotal(rows: seq<SecondRow>): int {
    if rows == [] then 0 else AttendanceTotal(rows[..|rows| - 1]) + rows[|rows| - 1].days
  }

  function SalaryTotal(rows: seq<SecondRow>): int {
    if rows == [] then 0 else SalaryTotal(rows[..|rows| - 1]) + rows[|rows| - 1].salary
  }

  /** The title above the tables. */
  function Title(register: Register): string
    requires register.Register? && 1 <= register.month <= 12
  {
    "CASUAL WORKERS SALARY SLIP WORK MONTH " + ReportText.MonthName(register.month) + " " + Text.IntToString(register.year)
  }

  /** Some casual entry has no name; with two or more entries the name comparison fails on it. */
  predicate SomeNameMissing(casuals: seq<Entry>) {
    exists i :: 0 <= i < |casuals| && (casuals[i].employee.None? || casuals[i].employee.value.fullName.None?)
  }

  function SortedByName(casuals: seq<Entry>): (r: seq<Entry>)
    ensures multiset(r) == multiset(casuals) && |r| == |casuals|
  {
    MemberOrder.SortBy(casuals, NameOf, MemberOrder.ByName)
  }

  /** The register, `NoCasualLabourers` when the period has no casual entry, or `None` where the
      report fails: two or more casual entries one of which has no name, a month outside 1..12, or
      a casual entry without a day count. Entries whose employee has no category are not casual. */
  function RegisterOf(entries: seq<Entry>, period: Period): Option<Register>
    requires AllHaveEmployees(entries)
  {
    var casuals := OfCategory(entries, CL);
    if |casuals| >= 2 && SomeNameMissing(casuals) then None
    else
      var sorted := SortedByName(casuals);
      SortedHaveEmployees(casuals);
      if sorted == [] then Some(NoCasualLabourers)
      else if !(1 <= period.month <= 12) then None
      else
        var daysInMonth := DaysInMonth(period.year, period.month);
        var second := SecondTable(sorted, daysInMonth);
        if second.None? then None
        else
          Some(Register(period.month, period.year, FirstTable(sorted), SecondHeader(daysInMonth), second.value,
                        AttendanceTotal(second.value), SalaryTotal(second.value)))
  }

  lemma SortedHaveEmployees(casuals: seq<Entry>)
    requires forall i :: 0 <= i < |casuals| ==> CategoryOf(casuals[i]) == Some(CL)
    ensures AllHaveEmployees(SortedByName(casuals))
  {
    var sorted := SortedByName(casuals);
    forall i | 0 <= i < |sorted| ensures sorted[i].employee.Some? {
      assert sorted[i] in multiset(casuals);
    }
  }

  // ---------------------------------------------------------------------------
  // The report's loops
  // ---------------------------------------------------------------------------

  /** The first table's day loop for one entry. */
  method MarkFirstHalf(activeDays: set<int>) returns (marks: seq<string>)
    ensures marks == FirstMarks(activeDays)
  {
    marks := [];
    var i := 1;
    while i <= 15
      invariant 1 <= i <= 16 && |marks| == i - 1
      invariant forall k :: 0 <= k < i - 1 ==> marks[k] == DayMark(activeDays, k + 1)
    {
      if i in activeDays {
        marks := marks + [MARK];
      } else {
        marks := marks + [""];
      }
      i := i + 1;
    }
  }

  /** The second table's day loop for one entry: days past the month stay blank. */
  method MarkSecondHalf(activeDays: set<int>, daysInMonth: int) returns (marks: seq<string>)
    ensures marks == SecondMarks(activeDays, daysInMonth)
  {
    marks := [];
    var i := 16;
    while i <= 31
      invariant 16 <= i <= 32 && |marks| == i - 16
      invariant forall k :: 0 <= k < i - 16 ==>
                  marks[k] == (if 16 + k <= daysInMonth then DayMark(activeDays, 16 + k) else "")
    {
      if i <= daysInMonth {
        if i in activeDays {
          marks := marks + [MARK];
        } else {
          marks := marks + [""];
        }
      } else {
        marks := marks + [""];
      }
      i := i + 1;
    }
  }

  /** The header loop of the second table. */
  method NumberSecondHalf(daysInMonth: int) returns (header: seq<string>)
    ensures header == SecondHeader(daysInMonth)
  {
    header := [];
    var i := 16;
    while i <= 31
      invariant 16 <= i <= 32 && |header| == i - 16
      invariant forall k :: 0 <= k < i - 16 ==> header[k] == DayNumber(16 + k, daysInMonth)
    {
      if i <= daysInMonth {
        header := header + [Text.IntToString(i)];
      } else {
        header := header + [""];
      }
      assert header[i - 16] == DayNumber(i, daysInMonth);
      i := i + 1;
    }
    assert forall k :: 0 <= k < 16 ==> header[k] == SecondHeader(daysInMonth)[k];
  }

  /** The first table: a row per entry. */
  method BuildFirstTable(sorted: seq<Entry>) returns (table: seq<FirstRow>)
    requires AllHaveEmployees(sorted)
    ensures table == FirstTable(sorted)
  {
    table := [];
    var i := 0;
    while i < |sorted|
      invariant 0 <= i <= |sorted| && |table| == i
      invariant forall k :: 0 <= k < i ==> table[k] == FirstRowOf(sorted[k])
    {
      var marks := MarkFirstHalf(sorted[i].activeDays);
      table := table + [FirstRow(ReportText.CellText(sorted[i].employee.value.fullName), marks)];
      i := i + 1;
    }
  }

  /** The second table and its grand totals, accumulated row by row. */
  method BuildSecondTable(sorted: seq<Entry>, daysInMonth: int)
    returns (table: Option<seq<SecondRow>>, grandTotalAttendance: int, grandTotalSalary: int)
    requires AllHaveEmployees(sorted)
    ensures table == SecondTable(sorted, daysInMonth)
    ensures table.Some? ==> grandTotalAttendance == AttendanceTotal(table.value)
                            && grandTotalSalary == SalaryTotal(table.value)
  {
    var rows: seq<SecondRow> := [];
    grandTotalAttendance, grandTotalSalary := 0, 0;
    var i := 0;
    while i < |sorted|
      invariant 0 <= i <= |sorted|
      invariant SecondTable(sorted[..i], daysInMonth) == Some(rows)
      invariant grandTotalAttendance == AttendanceTotal(rows) && grandTotalSalary == SalaryTotal(rows)
    {
      SecondTableStep(sorted, daysInMonth, i);
      var entry := sorted[i];
      if entry.daysWorked.None? {
        SecondTableNoneExtends(sorted, daysInMonth, i + 1);
        return None, grandTotalAttendance, grandTotalSalary;
      }
      var row := BuildSecondRow(entry, daysInMonth);
      TotalsSnoc(rows, row);
      rows := rows + [row];
      grandTotalAttendance := grandTotalAttendance + row.days;
      grandTotalSalary := grandTotalSalary + row.salary;
      i := i + 1;
    }
    assert sorted[..i] == sorted;
    table := Some(rows);
  }

  /** One row of the second table: the day loop, the days and the salary at the daily rate. */
  method BuildSecondRow(entry: Entry, daysInMonth: int) returns (row: SecondRow)
    requires entry.employee.Some? && entry.daysWorked.Some?
    ensures row == SecondRowOf(entry, daysInMonth)
  {
    var marks := MarkSecondHalf(entry.activeDays, daysInMonth);
    var days := entry.daysWorked.value;
    var totalSalary := DAILY_RATE * days;
    row := SecondRow(ReportText.CellText(entry.employee.value.fullName), marks, days, totalSalary);
  }

  lemma SecondTableStep(sorted: seq<Entry>, daysInMonth: int, i: nat)
    requires AllHaveEmployees(sorted) && i < |sorted|
    ensures AllHaveEmployees(sorted[..i]) && AllHaveEmployees(sorted[..i + 1])
    ensures SecondTable(sorted[..i + 1], daysInMonth) ==
      if SecondTable(sorted[..i], daysInMonth).None? || sorted[i].daysWorked.None? then None
      else Some(SecondTable(sorted[..i], daysInMonth).value + [SecondRowOf(sorted[i], daysInMonth)])
  {
    assert sorted[..i + 1][..i] == sorted[..i];
    assert sorted[..i + 1][i] == sorted[i];
  }

  lemma TotalsSnoc(rows: seq<SecondRow>, row: SecondRow)
    ensures AttendanceTotal(rows + [row]) == AttendanceTotal(rows) + row.days
    ensures SalaryTotal(rows + [row]) == SalaryTotal(rows) + row.salary
  {
    assert (rows + [row])[..|rows|] == rows;
  }

  /** `generateAttendanceRegisterPdf`. */
  method GenerateRegister(entries: seq<Entry>, period: Period) returns (register: Option<Register>)
    requires AllHaveEmployees(entries)
    ensures register == RegisterOf(entries, period)
  {
    var casuals := OfCategory(entries, CL);
    if |casuals| >= 2 && SomeNameMissing(casuals) {
      return None;
    }
    var sorted := SortedByName(casuals);
    SortedHaveEmployees(casuals);
    if |sorted| == 0 {
      return Some(NoCasualLabourers);
    }
    if !(1 <= period.month <= 12) {
      return None;
    }
    var first := BuildFirstTable(sorted);
    var daysInMonth := DaysInMonth(period.year, period.month);
    var header := NumberSecondHalf(daysInMonth);
    var second, grandTotalAttendance, grandTotalSalary := BuildSecondTable(sorted, daysInMonth);
    if second.None? {
      return None;
    }
    register := Some(Register(period.month, period.year, first, header, second.value, grandTotalAttendance, grandTotalSalary));
  }

  /** The message every exception inside `generateAttendanceRegisterPdf` is rethrown with. */
  const REPORT_ERROR: string := "Error generating Attendance Register PDF"

  /** `generateAttendanceRegisterPdf` as called: the period is looked up by id and its entries
      fetched in repository order; every exception inside, an unknown id's included, is
      rethrown as `REPORT_ERROR`. */
  method GenerateRegisterById(s: Store.State, periodId: nat) returns (r: Result<Register, string>)
    requires AllHaveEmployees(EntriesOfPeriod(s.entries, periodId))
    ensures Store.PeriodWithId(s.periods, periodId).None? ==> r == Failure(REPORT_ERROR)
    ensures Store.PeriodWithId(s.periods, periodId).Some? ==>
      var register := RegisterOf(EntriesOfPeriod(s.entries, periodId), Store.PeriodWithId(s.periods, periodId).value);
      r == if register.Some? then Success(register.value) else Failure(REPORT_ERROR)
  {
    var period := Store.PeriodWithId(s.periods, periodId);
    if period.None? {
      return Failure(REPORT_ERROR);
    }
    var register := GenerateRegister(EntriesOfPeriod(s.entries, periodId), period.value);
    r := if register.Some? then Success(register.value) else Failure(REPORT_ERROR);
  }

  lemma {:induction false} SecondTableNoneExtends(entries: seq<Entry>, daysInMonth: int, n: nat)
    requires AllHaveEmployees(entries) && 0 < n <= |entries| && SecondTable(entries[..n], daysInMonth).None?
    ensures SecondTable(entries, daysInMonth).None?
    decreases |entries| - n
  {
    if n < |entries| {
      assert entries[..n + 1][..n] == entries[..n];
      SecondTableNoneExtends(entries, daysInMonth, n + 1);
    } else {
      assert entries[..n] == entries;
    }
  }

  // ---------------------------------------------------------------------------
  // Properties of the register
  // ---------------------------------------------------------------------------

  /** The cell of day `day` (1 to 31) on an entry's two rows. */
  function DayCell(e: Entry, daysInMonth: int, day: int): string
    requires 1 <= day <= 31
  {
    if day <= 15 then FirstMarks(e.activeDays)[day - 1] else SecondMarks(e.activeDays, daysInMonth)[day - 16]
  }

  /** A day is marked exactly when it is one of the entry's active days and lies in the month. */
  lemma DayMarked(e: Entry, year: int, month: int, day: int)
    requires 1 <= month <= 12 && 1 <= day <= 31
    ensures DayCell(e, DaysInMonth(year, month), day) == MARK <==> day in e.activeDays && day <= DaysInMonth(year, month)
    ensures DayCell(e, DaysInMonth(year, month), day) != MARK ==> DayCell(e, DaysInMonth(year, month), day) == ""
  {
  }

  /** The grand salary is the daily rate times the grand attendance. */
  lemma {:induction false} SalaryIsRateTimesAttendance(rows: seq<SecondRow>)
    requires forall i :: 0 <= i < |rows| ==> rows[i].salary == DAILY_RATE * rows[i].days
    ensures SalaryTotal(rows) == DAILY_RATE * AttendanceTotal(rows)
  {
    if rows != [] {
      SalaryIsRateTimesAttendance(rows[..|rows| - 1]);
    }
  }

  /** A register of `count` casual entries: none at all exactly when there are none, otherwise
      both tables with a row per entry, the same name on each entry's two rows, and the grand
      salary the daily rate times the grand attendance. */
  predicate LaidOut(r: Register, count: nat) {
    && (r.NoCasualLabourers? <==> count == 0)
    && (r.Register? ==>
          && |r.firstTable| == |r.secondTable| == count
          && (forall i :: 0 <= i < |r.secondTable| ==> r.firstTable[i].name == r.secondTable[i].name)
          && r.totalSalary == DAILY_RATE * r.totalAttendance
          && r.totalSalary * 100 == PayrollCalculator.StandardWage(r.totalAttendance))
  }

  /** A register lists every casual entry once in each table, in name order, and its grand salary
      is the daily rate times its grand attendance, matching the standard casual wage. */
  lemma RegisterLayout(entries: seq<Entry>, period: Period)
    requires AllHaveEmployees(entries) && RegisterOf(entries, period).Some?
    ensures LaidOut(RegisterOf(entries, period).value, |OfCategory(entries, CL)|)
  {
    var casuals := OfCategory(entries, CL);
    if casuals != [] && 1 <= period.month <= 12 {
      var sorted := SortedByName(casuals);
      SortedHaveEmployees(casuals);
      TablesAgree(sorted, DaysInMonth(period.year, period.month));
    }
  }

  lemma TablesAgree(sorted: seq<Entry>, daysInMonth: int)
    requires AllHaveEmployees(sorted) && SecondTable(sorted, daysInMonth).Some?
    ensures var second := SecondTable(sorted, daysInMonth).value;
      && |FirstTable(sorted)| == |second|
      && (forall i :: 0 <= i < |second| ==> FirstTable(sorted)[i].name == second[i].name)
      && SalaryTotal(second) == DAILY_RATE * AttendanceTotal(second)
  {
    SecondTableRows(sorted, daysInMonth);
    SalaryIsRateTimesAttendance(SecondTable(sorted, daysInMonth).value);
  }

  lemma {:induction false} SecondTableRows(sorted: seq<Entry>, daysInMonth: int)
    requires AllHaveEmployees(sorted) && SecondTable(sorted, daysInMonth).Some?
    ensures forall i :: 0 <= i < |sorted| ==>
              sorted[i].daysWorked.Some? && SecondTable(sorted, daysInMonth).value[i] == SecondRowOf(sorted[i], daysInMonth)
  {
    if sorted != [] {
      var front := sorted[..|sorted| - 1];
      SecondTableRows(front, daysInMonth);
    }
  }

  /** With all names present the register's entries are in name order (`String.compareTo`). */
  lemma RegisterInNameOrder(casuals: seq<Entry>)
    ensures MemberOrder.Sorted(SortedByName(casuals), NameOf, MemberOrder.ByName)
  {
    MemberOrder.SortBySorted(casuals, NameOf, MemberOrder.ByName);
  }

  /** Ten days worked pay 5410 rupees. */
  lemma RegisterExamples(employee: Employee)
    ensures SecondRowOf(NewEntry(0, 0, employee).(daysWorked := Some(10)), 30).salary == 5410
  {
  }
}
