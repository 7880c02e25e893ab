/** The wage import (`PayrollImportService.importPayroll`): every row after the header names a
    member and carries the days worked, the wages and the advance of the month; the row's entry is
    found or created, its three inputs are overwritten, and it is recalculated and saved. A row
    that fails is counted and reported, and the import goes on. */
module PayrollImport {
  import opened Wrappers
  import opened Money
  import opened Entities
  import Text
  import opened Store
  import opened Cells
  import PayrollCalculator
  import PayrollRecords

  // ---------------------------------------------------------------------------
  // Reading cells
  // ---------------------------------------------------------------------------

  /** The library's readers of number text: `new BigDecimal(s)` as hundredths, and
      `(int) Double.parseDouble(s)` as the whole part toward zero; `None` where they throw. */
  datatype NumberSyntax = NumberSyntax(decimal: string -> Option<int>, wholeOfDouble: string -> Option<int>)

  /** `getCellValueAsString` of a present cell: text as is, numbers as their `(int)` digits,
      a formula by its cached number or text, booleans spelled out, anything else "". */
  function CellAsString(c: Cell): (r: string)
    ensures c.StringCell? ==> r == c.text
    ensures c.NumericCell? ==> r == Text.IntToString(IntCast(c.paise))
    ensures c.BlankCell? || c.ErrorCell? || c == FormulaCell(OtherValue) ==> r == ""
  {
    match c
    case StringCell(text) => text
    case NumericCell(paise) => Text.IntToString(IntCast(paise))
    case FormulaCell(NumericValue(paise)) => Text.IntToString(IntCast(paise))
    case FormulaCell(StringValue(text)) => text
    case FormulaCell(OtherValue) => ""
    case BooleanCell(flag) => BooleanText(flag)
    case _ => ""
  }

  /** The text of a string cell as the number readers see it: trimmed, and `None` when blank. */
  function TrimmedText(text: string): Option<string> {
    var t := Text.Trim(text);
    if t == "" then None else Some(t)
  }

  /** `getCellValueAsBigDecimal`: a number as is; text read as a decimal, else read again with
      its commas removed, else 0; everything else, and a missing cell, 0. */
  function CellAsDecimal(c: Option<Cell>, syntax: NumberSyntax): (r: int)
    ensures c.None? || c == Some(BlankCell) || c == Some(ErrorCell) ==> r == 0
    ensures c.Some? && c.value.NumericCell? ==> r == c.value.paise
    ensures c.Some? && c.value.StringCell? && Text.TrimsToEmpty(c.value.text) ==> r == 0
  {
    if c.None? then 0
    else match c.value
      case NumericCell(paise) => paise
      case StringCell(text) =>
        Text.TrimEmptyIff(text);
        var t := TrimmedText(text);
        if t.None? then 0
        else if syntax.decimal(t.value).Some? then syntax.decimal(t.value).value
        else if syntax.decimal(Text.Replace(t.value, ",", "")).Some? then syntax.decimal(Text.Replace(t.value, ",", "")).value
        else 0
      case FormulaCell(NumericValue(paise)) => paise
      case _ => 0
  }

  /** `getCellValueAsInteger`: a number cast to `int`; text read by `Integer.parseInt`, else by
      `(int) Double.parseDouble`, else 0; everything else, and a missing cell, 0. */
  function CellAsInteger(c: Option<Cell>, syntax: NumberSyntax): (r: int)
    ensures Text.INT_MIN <= r <= Text.INT_MAX
    ensures c.None? || c == Some(BlankCell) || c == Some(ErrorCell) ==> r == 0
    ensures c.Some? && c.value.NumericCell? ==> r == IntCast(c.value.paise)
    ensures c.Some? && c.value.StringCell? && Text.TrimsToEmpty(c.value.text) ==> r == 0
  {
    if c.None? then 0
    else match c.value
      case NumericCell(paise) => IntCast(paise)
      case StringCell(text) =>
        Text.TrimEmptyIff(text);
        var t := TrimmedText(text);
        if t.None? then 0
        else if Text.ParseInt(t.value).Some? then Text.ParseInt(t.value).value
        else if syntax.wholeOfDouble(t.value).Some? then Text.SaturateInt(syntax.wholeOfDouble(t.value).value)
        else 0
      case FormulaCell(NumericValue(paise)) => IntCast(paise)
      case _ => 0
  }

  /** A day count typed as text reads back as itself, with or without surrounding spaces,
      whatever the double reader does. */
  lemma IntegerTextReadsBack(n: int, syntax: NumberSyntax)
    requires Text.INT_MIN <= n <= Text.INT_MAX
    ensures CellAsInteger(Some(StringCell(Text.IntToString(n))), syntax) == n
    ensures CellAsInteger(Some(StringCell(" " + Text.IntToString(n) + " ")), syntax) == n
  {
    var s := Text.IntToString(n);
    IntegerTextTrims(n);
    TrimmedIntegerReads(n, s, syntax);
    TrimmedIntegerReads(n, " " + s + " ", syntax);
  }

  /** Whatever surrounds it, text that trims to a number's digits reads as that number. */
  lemma TrimmedIntegerReads(n: int, text: string, syntax: NumberSyntax)
    requires Text.INT_MIN <= n <= Text.INT_MAX && Text.Trim(text) == Text.IntToString(n)
    ensures CellAsInteger(Some(StringCell(text)), syntax) == n
  {
    Text.ParseIntOfIntToString(n);
  }

  /** A number's digits have nothing to trim, and spaces around them are trimmed off. */
  lemma IntegerTextTrims(n: int)
    ensures Text.Trim(Text.IntToString(n)) == Text.IntToString(n)
    ensures Text.Trim(" " + Text.IntToString(n) + " ") == Text.IntToString(n)
  {
    var s := Text.IntToString(n);
    Text.IntToStringUntrimmed(n);
    var padded := " " + s + " ";
    assert Text.TrimStart(padded) == s + " " by {
      assert padded[1..] == s + " ";
      Text.NothingToTrimStart(s + " ");
    }
    assert Text.TrimEnd(s + " ") == s by {
      assert (s + " ")[..|s|] == s;
      Text.NothingToTrimEnd(s);
    }
  }

  /** A whole number of rupees in a number cell reads as its digits in the member-id column and
      as itself in the day column. */
  lemma WholeNumberCells(n: int, syntax: NumberSyntax)
    requires Text.INT_MIN <= n <= Text.INT_MAX
    ensures CellAsString(NumericCell(Rupees(n))) == Text.IntToString(n)
    ensures CellAsInteger(Some(NumericCell(Rupees(n))), syntax) == n
  {
    TruncateWholeRupees(n);
  }

  /** Text no reader accepts, with or without commas, counts as 0 rather than failing the row. */
  lemma UnreadableAmountIsZero(text: string, syntax: NumberSyntax)
    requires !Text.TrimsToEmpty(text)
    requires syntax.decimal(Text.Trim(text)).None?
    requires syntax.decimal(Text.Replace(Text.Trim(text), ",", "")).None?
    ensures CellAsDecimal(Some(StringCell(text)), syntax) == 0
  {
    Text.TrimEmptyIff(text);
  }

  /** Text read only once its commas are gone ("1,500") gives the comma-free reading. */
  lemma CommaGroupedAmount(text: string, syntax: NumberSyntax, v: int)
    requires !Text.TrimsToEmpty(text)
    requires syntax.decimal(Text.Trim(text)).None?
    requires syntax.decimal(Text.Replace(Text.Trim(text), ",", "")) == Some(v)
    ensures CellAsDecimal(Some(StringCell(text)), syntax) == v
  {
    Text.TrimEmptyIff(text);
  }

  // ---------------------------------------------------------------------------
  // One row
  // ---------------------------------------------------------------------------

  const EMPLOYEE_NOT_FOUND: string := "Employee not found with Member ID: "

  /** The member id of a row, `None` when the cell is missing or blank: such rows are passed
      over and count as imported. */
  function RowMemberId(row: SheetRow): Option<string> {
    var c := CellAt(row, 0);
    if c.None? then None
    else
      var id := CellAsString(c.value);
      if Text.Trim(id) == "" then None else Some(id)
  }

  /** The entry a row writes: the stored entry of the member for the period, or a new one, with
      the row's days, wages and advance (0 where unreadable), recalculated. */
  function RowEntry(base: Entry, row: SheetRow, syntax: NumberSyntax): (r: Entry)
    ensures r.id == base.id && r.periodId == base.periodId && r.employee == base.employee
    ensures r.activeDays == base.activeDays && r.utrNumber == base.utrNumber
    ensures r.daysWorked == Some(CellAsInteger(CellAt(row, 2), syntax))
    ensures r.wagesEarned == Some(CellAsDecimal(CellAt(row, 3), syntax))
    ensures r.advanceDeduction == Some(CellAsDecimal(CellAt(row, 4), syntax))
    ensures r == PayrollCalculator.Calculated(r)
  {
    var staged := base.(
      daysWorked := Some(CellAsInteger(CellAt(row, 2), syntax)),
      wagesEarned := Some(CellAsDecimal(CellAt(row, 3), syntax)),
      advanceDeduction := Some(CellAsDecimal(CellAt(row, 4), syntax)));
    PayrollCalculator.CalculateIdempotent(staged);
    PayrollCalculator.Calculated(staged)
  }

  /** `processRow` on the repositories: the outcome (a failure's message) and the state after. */
  function RowProcessed(s: State, row: SheetRow, periodId: nat, syntax: NumberSyntax): (r: (Result<(), string>, State))
    ensures r.1.employees == s.employees && r.1.periods == s.periods
    ensures r.0.Failure? || RowMemberId(row).None? ==> r.1 == s
    ensures r.0.Failure? <==> RowMemberId(row).Some? && EmployeeByMemberId(s.employees, RowMemberId(row).value).None?
  {
    var memberId := RowMemberId(row);
    if memberId.None? then (Success(()), s)
    else
      var k := EmployeeByMemberId(s.employees, memberId.value);
      if k.None? then (Failure(EMPLOYEE_NOT_FOUND + memberId.value), s)
      else
        (Success(()), RowWritten(s, s.employees[k.value], row, periodId, syntax))
  }

  /** The state after a row of a known employee: the employee's entry for the period, found or
      new, overwritten by `RowEntry` and saved. */
  function RowWritten(s: State, employee: Employee, row: SheetRow, periodId: nat, syntax: NumberSyntax): (r: State)
    ensures r.employees == s.employees && r.periods == s.periods
    ensures r.nextId == (if EntryOf(s.entries, periodId, employee.id).Some? then s.nextId else s.nextId + 1)
    ensures exists e :: e in r.entries && e.periodId == periodId && e.employee.Some? && e.employee.value.id == employee.id
                        && e.daysWorked == Some(CellAsInteger(CellAt(row, 2), syntax))
  {
    var found := EntryOf(s.entries, periodId, employee.id);
    var base := if found.Some? then s.entries[found.value] else NewEntry(s.nextId, periodId, employee);
    var saved := RowEntry(base, row, syntax);
    assert saved in SaveEntry(s.entries, saved) by {
      var k := EntryById(s.entries, saved.id);
      if k.Some? { assert SaveEntry(s.entries, saved)[k.value] == saved; }
      else { assert SaveEntry(s.entries, saved)[|s.entries|] == saved; }
    }
    s.(entries := SaveEntry(s.entries, saved), nextId := if found.Some? then s.nextId else s.nextId + 1)
  }

  /** A row with a known member leaves exactly one entry of that member in the period, holding
      the row's inputs, recalculated; the entry keeps its id when it existed. An unknown member
      fails the row with the member id in the message and changes nothing, as does a row
      without a member id (which succeeds). */
  lemma RowWritesTheMembersEntry(s: State, row: SheetRow, periodId: nat, syntax: NumberSyntax)
    requires PayrollRecords.StateWellFormed(s)
    ensures var (outcome, after) := RowProcessed(s, row, periodId, syntax);
      && (RowMemberId(row).None? ==> outcome.Success? && after == s)
      && (RowMemberId(row).Some? && EmployeeByMemberId(s.employees, RowMemberId(row).value).None? ==>
            outcome == Failure(EMPLOYEE_NOT_FOUND + RowMemberId(row).value) && after == s)
      && (RowMemberId(row).Some? && EmployeeByMemberId(s.employees, RowMemberId(row).value).Some? ==>
            var employee := s.employees[EmployeeByMemberId(s.employees, RowMemberId(row).value).value];
            var k := EntryOf(after.entries, periodId, employee.id);
            && outcome.Success? && after.employees == s.employees && after.periods == s.periods
            && k.Some?
            && after.entries[k.value].daysWorked == Some(CellAsInteger(CellAt(row, 2), syntax))
            && after.entries[k.value].wagesEarned == Some(CellAsDecimal(CellAt(row, 3), syntax))
            && after.entries[k.value].advanceDeduction == Some(CellAsDecimal(CellAt(row, 4), syntax))
            && after.entries[k.value] == PayrollCalculator.Calculated(after.entries[k.value])
            && (EntryOf(s.entries, periodId, employee.id).Some? ==>
                  after.entries[k.value].id == s.entries[EntryOf(s.entries, periodId, employee.id).value].id))
  {
    var memberId := RowMemberId(row);
    if memberId.Some? && EmployeeByMemberId(s.employees, memberId.value).Some? {
      var employee := s.employees[EmployeeByMemberId(s.employees, memberId.value).value];
      KnownRowWrites(s, employee, row, periodId, syntax);
    }
  }

  /** The known-member case of `RowWritesTheMembersEntry`, on `RowWritten`. */
  lemma KnownRowWrites(s: State, employee: Employee, row: SheetRow, periodId: nat, syntax: NumberSyntax)
    requires PayrollRecords.StateWellFormed(s)
    ensures var after := RowWritten(s, employee, row, periodId, syntax);
      var k := EntryOf(after.entries, periodId, employee.id);
      && after.employees == s.employees && after.periods == s.periods
      && k.Some?
      && after.entries[k.value].daysWorked == Some(CellAsInteger(CellAt(row, 2), syntax))
      && after.entries[k.value].wagesEarned == Some(CellAsDecimal(CellAt(row, 3), syntax))
      && after.entries[k.value].advanceDeduction == Some(CellAsDecimal(CellAt(row, 4), syntax))
      && after.entries[k.value] == PayrollCalculator.Calculated(after.entries[k.value])
      && (EntryOf(s.entries, periodId, employee.id).Some? ==>
            after.entries[k.value].id == s.entries[EntryOf(s.entries, periodId, employee.id).value].id)
  {
    var after := RowWritten(s, employee, row, periodId, syntax);
    var found := EntryOf(s.entries, periodId, employee.id);
    var base := if found.Some? then s.entries[found.value] else NewEntry(s.nextId, periodId, employee);
    var staged := base.(daysWorked := Some(CellAsInteger(CellAt(row, 2), syntax)),
                        wagesEarned := Some(CellAsDecimal(CellAt(row, 3), syntax)),
                        advanceDeduction := Some(CellAsDecimal(CellAt(row, 4), syntax)));
    var saved := RowEntry(base, row, syntax);
    PayrollCalculator.CalculateIdempotent(staged);
    assert saved.wagesEarned == staged.wagesEarned;
    var p := (e: Entry) => e.periodId == periodId && e.employee.Some? && e.employee.value.id == employee.id;
    if found.Some? {
      assert EntryById(s.entries, saved.id) == found;
      FirstIndexAt(after.entries, p, found.value);
    } else {
      assert EntryById(s.entries, saved.id).None?;
      FirstIndexAt(after.entries, p, |s.entries|);
    }
  }

  /** A row keeps the repositories well formed: a new entry is made only when the member has
      none in the period, and it takes a fresh id. */
  lemma RowKeepsWellFormed(s: State, row: SheetRow, periodId: nat, syntax: NumberSyntax)
    requires PayrollRecords.StateWellFormed(s)
    ensures PayrollRecords.StateWellFormed(RowProcessed(s, row, periodId, syntax).1)
    ensures RowProcessed(s, row, periodId, syntax).1.nextId >= s.nextId
  {
    var memberId := RowMemberId(row);
    if memberId.Some? && EmployeeByMemberId(s.employees, memberId.value).Some? {
      var employee := s.employees[EmployeeByMemberId(s.employees, memberId.value).value];
      if EntryOf(s.entries, periodId, employee.id).Some? {
        RewriteKeepsWellFormed(s, employee, row, periodId, syntax);
      } else {
        CreateKeepsWellFormed(s, employee, row, periodId, syntax);
      }
    }
  }

  /** Rewriting a stored entry keeps every entry's id, period and employee. */
  lemma RewriteKeepsWellFormed(s: State, employee: Employee, row: SheetRow, periodId: nat, syntax: NumberSyntax)
    requires PayrollRecords.StateWellFormed(s)
    requires EntryOf(s.entries, periodId, employee.id).Some?
    ensures PayrollRecords.StateWellFormed(RowWritten(s, employee, row, periodId, syntax))
    ensures RowWritten(s, employee, row, periodId, syntax).nextId == s.nextId
  {
    var k := EntryOf(s.entries, periodId, employee.id).value;
    var saved := RowEntry(s.entries[k], row, syntax);
    assert EntryById(s.entries, saved.id) == Some(k);
    var after := RowWritten(s, employee, row, periodId, syntax).entries;
    assert after == s.entries[k := saved];
    assert forall i :: 0 <= i < |after| ==>
      after[i].id == s.entries[i].id && after[i].periodId == s.entries[i].periodId && after[i].employee == s.entries[i].employee;
  }

  /** A new entry has a fresh id, its member had no entry in the period, and it is joined to the
      stored employee. */
  lemma CreateKeepsWellFormed(s: State, employee: Employee, row: SheetRow, periodId: nat, syntax: NumberSyntax)
    requires PayrollRecords.StateWellFormed(s)
    requires EntryOf(s.entries, periodId, employee.id).None? && employee in s.employees
    ensures PayrollRecords.StateWellFormed(RowWritten(s, employee, row, periodId, syntax))
    ensures RowWritten(s, employee, row, periodId, syntax).nextId == s.nextId + 1
  {
    var saved := RowEntry(NewEntry(s.nextId, periodId, employee), row, syntax);
    assert EntryById(s.entries, saved.id).None?;
    var after := RowWritten(s, employee, row, periodId, syntax).entries;
    assert after == s.entries + [saved];
    AppendNewEntry(s.entries, saved, s.nextId);
  }

  /** Appending an entry with the next id, for an employee with no entry in its period, keeps
      the entry table well formed. */
  lemma AppendNewEntry(entries: seq<Entry>, e: Entry, nextId: nat)
    requires EntryIdsDistinct(entries) && OneEntryPerEmployee(entries)
    requires forall i :: 0 <= i < |entries| ==> entries[i].id < nextId
    requires e.id == nextId && e.employee.Some?
    requires EntryOf(entries, e.periodId, e.employee.value.id).None?
    ensures var all := entries + [e];
      && EntryIdsDistinct(all) && OneEntryPerEmployee(all)
      && forall i :: 0 <= i < |all| ==> all[i].id < nextId + 1
  {
    var all := entries + [e];
    forall i | 0 <= i < |entries|
      ensures !(entries[i].periodId == e.periodId && entries[i].employee.value.id == e.employee.value.id)
    {
      var p := (x: Entry) => x.periodId == e.periodId && x.employee.Some? && x.employee.value.id == e.employee.value.id;
      assert !p(entries[i]);
    }
    forall i, j | 0 <= i < j < |all|
      ensures all[i].id != all[j].id
      ensures !(all[i].periodId == all[j].periodId && all[i].employee.value.id == all[j].employee.value.id)
    {
      if j == |entries| {
        assert all[j] == e && all[i] == entries[i];
      }
    }
  }

  // ---------------------------------------------------------------------------
  // The whole sheet
  // ---------------------------------------------------------------------------

  /** The running counts and the error lines. */
  datatype Tally = Tally(success: nat, failed: nat, errors: seq<string>)

  /** "Row n: message", with the 1-based row number. */
  function ErrorLine(row: SheetRow, message: string): (r: string)
    ensures Text.StartsWith(r, "Row ") && Text.EndsWith(r, message)
  {
    var r := "Row " + Text.IntToString(row.rowNum + 1) + ": " + message;
    assert r[..4] == "Row ";
    assert r[|r| - |message|..] == message;
    r
  }

  /** The data rows processed in order: each row adds one success or one failure with its line. */
  function Imported(s: State, rows: seq<SheetRow>, periodId: nat, syntax: NumberSyntax): (r: (Tally, State))
    ensures r.0.success + r.0.failed == |rows|
    ensures r.1.employees == s.employees && r.1.periods == s.periods
  {
    if rows == [] then (Tally(0, 0, []), s)
    else ImportStep(Imported(s, rows[..|rows| - 1], periodId, syntax), rows[|rows| - 1], periodId, syntax)
  }

  /** One more row: processed on the current state, then counted. */
  function ImportStep(before: (Tally, State), row: SheetRow, periodId: nat, syntax: NumberSyntax): (Tally, State) {
    var tally := before.0;
    var step := RowProcessed(before.1, row, periodId, syntax);
    if step.0.Success? then (tally.(success := tally.success + 1), step.1)
    else (Tally(tally.success, tally.failed + 1, tally.errors + [ErrorLine(row, step.0.error)]), step.1)
  }

  /** Every data row is counted exactly once, as a success or a failure, and every failure has
      its line; the import never stops early. */
  lemma {:induction false} ImportCountsEveryRow(s: State, rows: seq<SheetRow>, periodId: nat, syntax: NumberSyntax)
    ensures var (tally, _) := Imported(s, rows, periodId, syntax);
      && tally.success + tally.failed == |rows|
      && |tally.errors| == tally.failed
      && forall j :: 0 <= j < |tally.errors| ==> Text.StartsWith(tally.errors[j], "Row ")
  {
    if rows != [] {
      ImportCountsEveryRow(s, rows[..|rows| - 1], periodId, syntax);
    }
  }

  /** The import keeps the repositories well formed, and adds no employee and no period. */
  lemma {:induction false} ImportKeepsWellFormed(s: State, rows: seq<SheetRow>, periodId: nat, syntax: NumberSyntax)
    requires PayrollRecords.StateWellFormed(s)
    ensures var after := Imported(s, rows, periodId, syntax).1;
      PayrollRecords.StateWellFormed(after) && after.employees == s.employees && after.periods == s.periods
  {
    if rows != [] {
      ImportKeepsWellFormed(s, rows[..|rows| - 1], periodId, syntax);
      var current := Imported(s, rows[..|rows| - 1], periodId, syntax).1;
      RowKeepsWellFormed(current, rows[|rows| - 1], periodId, syntax);
    }
  }

  /** A sheet of members all known: nothing fails and the error list stays empty. */
  lemma {:induction false} KnownMembersNeverFail(s: State, rows: seq<SheetRow>, periodId: nat, syntax: NumberSyntax)
    requires forall i :: 0 <= i < |rows| && RowMemberId(rows[i]).Some? ==> EmployeeByMemberId(s.employees, RowMemberId(rows[i]).value).Some?
    ensures var (tally, after) := Imported(s, rows, periodId, syntax);
      tally == Tally(|rows|, 0, []) && after.employees == s.employees
  {
    if rows != [] {
      KnownMembersNeverFail(s, rows[..|rows| - 1], periodId, syntax);
    }
  }

  const PERIOD_NOT_FOUND: string := "Period not found"
  const PARSE_FAILED: string := "Failed to parse Excel file: "

  /** The answer's text. */
  function Summary(tally: Tally): string {
    "Import Completed. Success: " + Text.IntToString(tally.success) + ", Failed: " + Text.IntToString(tally.failed)
    + (if tally.errors == [] then "" else "\nErrors:\n" + Text.Join(tally.errors, "\n"))
  }

  /** `importPayroll`: an unknown period or an unreadable workbook ends the request; otherwise the
      first row is skipped as the header and the rest are imported. `sheet` is the sheet's rows
      in order, or the message of the library's failure to read the file. */
  function PayrollImported(s: State, periodId: nat, sheet: Result<seq<SheetRow>, string>, syntax: NumberSyntax)
    : (r: (Result<string, string>, State))
    ensures PeriodById(s.periods, periodId).None? ==> r == (Failure(PERIOD_NOT_FOUND), s)
    ensures PeriodById(s.periods, periodId).Some? && sheet.Failure? ==> r == (Failure(PARSE_FAILED + sheet.error), s)
    ensures r.0.Failure? ==> r.1 == s
    ensures r.1.employees == s.employees && r.1.periods == s.periods
  {
    if PeriodById(s.periods, periodId).None? then (Failure(PERIOD_NOT_FOUND), s)
    else if sheet.Failure? then (Failure(PARSE_FAILED + sheet.error), s)
    else
      var data := if sheet.value == [] then [] else sheet.value[1..];
      var imported := Imported(s, data, periodId, syntax);
      (Success(Summary(imported.0)), imported.1)
  }

  /** The worked case: a header and two rows, the second naming an unknown member. */
  lemma ImportReportsBadRow(s: State, periodId: nat, syntax: NumberSyntax, known: string)
    requires PeriodById(s.periods, periodId).Some?
    requires EmployeeByMemberId(s.employees, known).Some? && EmployeeByMemberId(s.employees, "X9").None?
    requires Text.Trim(known) != ""
    ensures var header := SheetRow(0, [Some(StringCell("MEMBER_ID"))]);
      var good := SheetRow(1, [Some(StringCell(known)), None, Some(StringCell("10"))]);
      var bad := SheetRow(2, [Some(StringCell("X9"))]);
      PayrollImported(s, periodId, Success([header, good, bad]), syntax).0
        == Success("Import Completed. Success: 1, Failed: 1\nErrors:\n" + ("Row 3: " + (EMPLOYEE_NOT_FOUND + "X9")))
  {
    var header := SheetRow(0, [Some(StringCell("MEMBER_ID"))]);
    var good := SheetRow(1, [Some(StringCell(known)), None, Some(StringCell("10"))]);
    var bad := SheetRow(2, [Some(StringCell("X9"))]);
    var message := EMPLOYEE_NOT_FOUND + "X9";
    assert [header, good, bad][1..] == [good, bad];
    ImportedSheet(s, periodId, [header, good, bad], syntax);
    KnownRowCounts(s, good, periodId, syntax, known);
    UnknownRowFails(Imported(s, [good], periodId, syntax).1, bad, periodId, syntax, "X9");
    TwoRowsTally(s, good, bad, periodId, syntax, message);
    ThirdRowLine(bad, message);
    OneFailureSummary("Row 3: " + message);
  }

  lemma ImportedSheet(s: State, periodId: nat, rows: seq<SheetRow>, syntax: NumberSyntax)
    requires PeriodById(s.periods, periodId).Some? && rows != []
    ensures PayrollImported(s, periodId, Success(rows), syntax).0
      == Success(Summary(Imported(s, rows[1..], periodId, syntax).0))
  {
  }

  /** A counted row, then a failed one. */
  lemma TwoRowsTally(s: State, good: SheetRow, bad: SheetRow, periodId: nat, syntax: NumberSyntax, message: string)
    requires Imported(s, [good], periodId, syntax).0 == Tally(1, 0, [])
    requires RowProcessed(Imported(s, [good], periodId, syntax).1, bad, periodId, syntax).0 == Failure(message)
    ensures Imported(s, [good, bad], periodId, syntax).0 == Tally(1, 1, [ErrorLine(bad, message)])
  {
    TwoRows(s, good, bad, periodId, syntax);
    FailedStep(Imported(s, [good], periodId, syntax), bad, periodId, syntax);
    assert [] + [ErrorLine(bad, message)] == [ErrorLine(bad, message)];
  }

  lemma TwoRows(s: State, a: SheetRow, b: SheetRow, periodId: nat, syntax: NumberSyntax)
    ensures Imported(s, [a, b], periodId, syntax) == ImportStep(Imported(s, [a], periodId, syntax), b, periodId, syntax)
  {
    assert [a, b][..1] == [a];
  }

  lemma FailedStep(before: (Tally, State), row: SheetRow, periodId: nat, syntax: NumberSyntax)
    requires RowProcessed(before.1, row, periodId, syntax).0.Failure?
    ensures var message := RowProcessed(before.1, row, periodId, syntax).0.error;
      ImportStep(before, row, periodId, syntax).0
        == Tally(before.0.success, before.0.failed + 1, before.0.errors + [ErrorLine(row, message)])
  {
  }

  lemma OneFailureSummary(line: string)
    ensures Summary(Tally(1, 1, [line])) == "Import Completed. Success: 1, Failed: 1\nErrors:\n" + line
  {
    SmallNumbers();
    assert Text.Join([line], "\n") == line;
  }

  lemma KnownRowCounts(s: State, row: SheetRow, periodId: nat, syntax: NumberSyntax, known: string)
    requires EmployeeByMemberId(s.employees, known).Some? && Text.Trim(known) != ""
    requires CellAt(row, 0) == Some(StringCell(known))
    ensures Imported(s, [row], periodId, syntax).0 == Tally(1, 0, [])
    ensures Imported(s, [row], periodId, syntax).1.employees == s.employees
  {
    assert RowMemberId(row) == Some(known);
    assert [row][..0] == [];
  }

  lemma UnknownRowFails(s: State, row: SheetRow, periodId: nat, syntax: NumberSyntax, id: string)
    requires id != [] && !Text.IsTrimmed(id[0]) && !Text.IsTrimmed(id[|id| - 1])
    requires EmployeeByMemberId(s.employees, id).None?
    requires CellAt(row, 0) == Some(StringCell(id))
    ensures RowProcessed(s, row, periodId, syntax) == (Failure(EMPLOYEE_NOT_FOUND + id), s)
  {
    Text.TrimOfTrimmed(id);
  }

  lemma ThirdRowLine(row: SheetRow, message: string)
    requires row.rowNum == 2
    ensures ErrorLine(row, message) == "Row 3: " + message
  {
    SmallNumbers();
  }

  lemma SmallNumbers()
    ensures Text.IntToString(1) == "1" && Text.IntToString(3) == "3"
  {
    assert Text.NatToString(1) == ['1'];
    assert Text.NatToString(3) == ['3'];
  }

  // ---------------------------------------------------------------------------
  // The import, step by step
  // ---------------------------------------------------------------------------

  /** `processRow`: finds the member, finds or creates the entry object, overwrites its inputs,
      recalculates it and saves it; a failure is returned as the exception's message. */
  method ProcessRow(store: Repositories, row: SheetRow, periodId: nat, syntax: NumberSyntax) returns (outcome: Result<(), string>)
    modifies store
    ensures (outcome, store.Snapshot()) == RowProcessed(old(store.Snapshot()), row, periodId, syntax)
  {
    var memberIdCell := CellAt(row, 0);
    if memberIdCell.None? {
      return Success(());
    }
    var memberId := CellAsString(memberIdCell.value);
    if Text.Trim(memberId) == "" {
      return Success(());
    }
    var k := EmployeeByMemberId(store.employees, memberId);
    if k.None? {
      return Failure(EMPLOYEE_NOT_FOUND + memberId);
    }
    WriteRow(store, store.employees[k.value], row, periodId, syntax);
    outcome := Success(());
  }

  lemma ImportedStep(s: State, rows: seq<SheetRow>, i: nat, periodId: nat, syntax: NumberSyntax)
    requires i < |rows|
    ensures Imported(s, rows[..i + 1], periodId, syntax) == ImportStep(Imported(s, rows[..i], periodId, syntax), rows[i], periodId, syntax)
  {
    assert rows[..i + 1][..i] == rows[..i];
  }

  /** One row's outcome, counted. */
  lemma CountedStep(before: (Tally, State), row: SheetRow, periodId: nat, syntax: NumberSyntax,
                    outcome: Result<(), string>, after: State)
    requires (outcome, after) == RowProcessed(before.1, row, periodId, syntax)
    ensures ImportStep(before, row, periodId, syntax) == (Counted(before.0, row, outcome), after)
  {
    var step := RowProcessed(before.1, row, periodId, syntax);
    assert step.0 == outcome && step.1 == after;
  }

  /** The counters after one row's outcome. */
  function Counted(tally: Tally, row: SheetRow, outcome: Result<(), string>): (r: Tally)
    ensures outcome.Success? ==> r == tally.(success := tally.success + 1)
    ensures outcome.Failure? ==> r.success == tally.success && r.failed == tally.failed + 1
  {
    if outcome.Success? then tally.(success := tally.success + 1)
    else Tally(tally.success, tally.failed + 1, tally.errors + [ErrorLine(row, outcome.error)])
  }

  /** The part of `processRow` after the member is found: find or create the entry object, set
      its inputs, recalculate, save. */
  method WriteRow(store: Repositories, employee: Employee, row: SheetRow, periodId: nat, syntax: NumberSyntax)
    modifies store
    ensures store.Snapshot() == RowWritten(old(store.Snapshot()), employee, row, periodId, syntax)
  {
    var found := EntryOf(store.entries, periodId, employee.id);
    var base: Entry;
    if found.Some? {
      base := store.entries[found.value];
    } else {
      var id := store.FreshId();
      base := NewEntry(id, periodId, employee);
    }
    var saved := FilledEntry(base, row, syntax);
    store.StoreEntry(saved);
  }

  /** The entry object of `processRow`: the row's inputs set on it, then recalculated. */
  method FilledEntry(base: Entry, row: SheetRow, syntax: NumberSyntax) returns (saved: Entry)
    ensures saved == RowEntry(base, row, syntax)
  {
    var entry := new PayrollCalculator.PayrollEntry(base);
    entry.daysWorked := Some(CellAsInteger(CellAt(row, 2), syntax));
    entry.wagesEarned := Some(CellAsDecimal(CellAt(row, 3), syntax));
    entry.advanceDeduction := Some(CellAsDecimal(CellAt(row, 4), syntax));
    assert entry.Value() == base.(daysWorked := entry.daysWorked, wagesEarned := entry.wagesEarned,
                                  advanceDeduction := entry.advanceDeduction);
    PayrollCalculator.Calculate(entry);
    saved := entry.Value();
  }

  /** `importPayroll`: skips the header row, then processes each row, counting and collecting. */
  method ImportPayroll(store: Repositories, periodId: nat, sheet: Result<seq<SheetRow>, string>, syntax: NumberSyntax)
    returns (response: Result<string, string>)
    modifies store
    ensures (response, store.Snapshot()) == PayrollImported(old(store.Snapshot()), periodId, sheet, syntax)
  {
    if PeriodById(store.periods, periodId).None? {
      return Failure(PERIOD_NOT_FOUND);
    }
    if sheet.Failure? {
      return Failure(PARSE_FAILED + sheet.error);
    }
    var data := if sheet.value == [] then [] else sheet.value[1..];
    var tally := ImportRows(store, data, periodId, syntax);
    response := Success(Summary(tally));
  }

  /** The loop of `importPayroll` over the data rows. */
  method ImportRows(store: Repositories, data: seq<SheetRow>, periodId: nat, syntax: NumberSyntax)
    returns (tally: Tally)
    modifies store
    ensures (tally, store.Snapshot()) == Imported(old(store.Snapshot()), data, periodId, syntax)
  {
    tally := Tally(0, 0, []);
    var i := 0;
    while i < |data|
      invariant 0 <= i <= |data|
      invariant (tally, store.Snapshot()) == Imported(old(store.Snapshot()), data[..i], periodId, syntax)
    {
      ImportedStep(old(store.Snapshot()), data, i, periodId, syntax);
      ghost var before := (tally, store.Snapshot());
      var outcome := ProcessRow(store, data[i], periodId, syntax);
      CountedStep(before, data[i], periodId, syntax, outcome, store.Snapshot());
      tally := Counted(tally, data[i], outcome);
      i := i + 1;
    }
    assert data[..i] == data;
  }
}
