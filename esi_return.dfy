/** The monthly ESI contribution sheet: the template's first sheet, with one row per entry of the
    period from row 1 on (row 0 is the template's header). */
module EsiReturn {
  import opened Wrappers
  import opened Entities
  import Store
  import Text
  import PayrollCalculator

  /** The six cells written on a row: IP number, name, days, total monthly wages (paise), the reason
      code and the last working day. A missing IP number or name leaves its cell empty. */
  datatype EsiRow = EsiRow(
    ipNumber: Option<string>,
    name: Option<string>,
    days: int,
    wages: int,
    reasonCode: string,
    lastWorkingDay: string)

  /** The period's last working day as `dd/MM/yyyy`, or empty when it is not set. */
  function LastWorkingDayText(period: Period): (r: string)
    ensures period.lastWorkingDay.None? <==> r == ""
  {
    if period.lastWorkingDay.Some? then FormatDate(period.lastWorkingDay.value) else ""
  }

  /** Reason code 1 ("no wages this month") exactly when the wage is zero. */
  function ReasonCode(wages: int): string {
    if wages == 0 then "1" else "0"
  }

  function EsiRowOf(e: Entry, lastWorkingDay: string): (r: EsiRow)
    requires e.employee.Some?
    ensures r.wages == PayrollCalculator.WageBasis(e)
    ensures r.reasonCode == "1" <==> r.wages == 0
  {
    var employee := e.employee.value;
    var days := e.daysWorked.GetOr(0);
    var wages := if employee.category == Some(CL) then PayrollCalculator.StandardWage(days)
                 else e.wagesEarned.GetOr(0);
    EsiRow(employee.ipNumber, employee.fullName, days, wages, ReasonCode(wages), lastWorkingDay)
  }

  /** The rows written: row `k` (from 1) holds the `k`-th entry of the period. */
  function EsiRows(entries: seq<Entry>, lastWorkingDay: string): map<nat, EsiRow>
    requires AllHaveEmployees(entries)
  {
    if entries == [] then map[]
    else
      var n := |entries|;
      EsiRows(entries[..n - 1], lastWorkingDay)[n := EsiRowOf(entries[n - 1], lastWorkingDay)]
  }

  function EsiSheet(template: map<nat, EsiRow>, entries: seq<Entry>, period: Period): map<nat, EsiRow>
    requires AllHaveEmployees(entries)
  {
    template + EsiRows(entries, LastWorkingDayText(period))
  }

  /** `generateEsiExcel`: walks the entries, writing row `rowIdx` and moving on; rows of the
      template beyond the last entry stay as they were. */
  method GenerateEsiSheet(template: map<nat, EsiRow>, entries: seq<Entry>, period: Period)
    returns (sheet: map<nat, EsiRow>)
    requires AllHaveEmployees(entries)
    ensures sheet == EsiSheet(template, entries, period)
  {
    var lastWorkingDate := if period.lastWorkingDay.Some? then FormatDate(period.lastWorkingDay.value) else "";
    sheet := template;
    var rowIdx: nat := 1;
    var i := 0;
    while i < |entries|
      invariant 0 <= i <= |entries| && rowIdx == i + 1
      invariant sheet == template + EsiRows(entries[..i], lastWorkingDate)
    {
      var row := WriteRow(entries[i], lastWorkingDate);
      EsiSheetStep(template, entries, i, lastWorkingDate);
      sheet := sheet[rowIdx := row];
      rowIdx := rowIdx + 1;
      i := i + 1;
    }
    assert entries[..i] == entries;
  }

  /** The message every exception inside `generateEsiExcel` is rethrown with. */
  const SHEET_ERROR: string := "Error generating ESI Excel"

  /** `generateEsiExcel` as called: the entries are fetched in repository order and the period
      looked up by id; an unknown id's `NoSuchElementException` is rethrown as `SHEET_ERROR`. */
  method GenerateEsiSheetById(template: map<nat, EsiRow>, s: Store.State, periodId: nat)
    returns (r: Result<map<nat, EsiRow>, string>)
    requires AllHaveEmployees(EntriesOfPeriod(s.entries, periodId))
    ensures Store.PeriodWithId(s.periods, periodId).None? ==> r == Failure(SHEET_ERROR)
    ensures Store.PeriodWithId(s.periods, periodId).Some? ==>
      r == Success(EsiSheet(template, EntriesOfPeriod(s.entries, periodId), Store.PeriodWithId(s.periods, periodId).value))
  {
    var entries := EntriesOfPeriod(s.entries, periodId);
    var period := Store.PeriodWithId(s.periods, periodId);
    if period.None? {
      return Failure(SHEET_ERROR);
    }
    var sheet := GenerateEsiSheet(template, entries, period.value);
    r := Success(sheet);
  }

  /** One row of the loop: the cells taken from the entry and its employee. */
  method WriteRow(entry: Entry, lastWorkingDate: string) returns (row: EsiRow)
    requires entry.employee.Some?
    ensures row == EsiRowOf(entry, lastWorkingDate)
  {
    var employee := entry.employee.value;
    var days := entry.daysWorked.GetOr(0);
    var wages: int;
    if employee.category == Some(CL) {
      wages := days * PayrollCalculator.CASUAL_DAILY_WAGE;
    } else {
      wages := entry.wagesEarned.GetOr(0);
    }
    var reasonCode := if wages == 0 then "1" else "0";
    row := EsiRow(employee.ipNumber, employee.fullName, days, wages, reasonCode, lastWorkingDate);
  }

  lemma EsiSheetStep(template: map<nat, EsiRow>, entries: seq<Entry>, i: nat, lastWorkingDay: string)
    requires AllHaveEmployees(entries) && i < |entries|
    ensures AllHaveEmployees(entries[..i]) && AllHaveEmployees(entries[..i + 1])
    ensures template + EsiRows(entries[..i + 1], lastWorkingDay)
         == (template + EsiRows(entries[..i], lastWorkingDay))[i + 1 := EsiRowOf(entries[i], lastWorkingDay)]
  {
    assert entries[..i + 1][..i] == entries[..i];
    assert entries[..i + 1][i] == entries[i];
  }

  // ---------------------------------------------------------------------------
  // Properties of the sheet
  // ---------------------------------------------------------------------------

  /** The sheet's wages are the wages the ESI shares were calculated on: the member's and the
      contractor's shares of the stored calculation are 0.75 % and 3.25 % of the row's wages. */
  lemma EsiRowMatchesCalculation(e: Entry, lastWorkingDay: string)
    requires e.employee.Some?
    ensures var r := EsiRowOf(e, lastWorkingDay);
      PayrollCalculator.Calculated(e).esiMemberShare == PayrollCalculator.EsiMember(r.wages)
      && PayrollCalculator.Calculated(e).esiContractorShare == PayrollCalculator.EsiContractor(r.wages)
  {
  }

  lemma {:induction false} EsiRowsContents(entries: seq<Entry>, lastWorkingDay: string)
    requires AllHaveEmployees(entries)
    ensures forall k :: k in EsiRows(entries, lastWorkingDay) <==> 1 <= k <= |entries|
    ensures forall k :: k in EsiRows(entries, lastWorkingDay) ==>
              EsiRows(entries, lastWorkingDay)[k] == EsiRowOf(entries[k - 1], lastWorkingDay)
  {
    if entries != [] {
      var n := |entries|;
      var front := entries[..n - 1];
      EsiRowsContents(front, lastWorkingDay);
      var rows := EsiRows(entries, lastWorkingDay);
      assert rows == EsiRows(front, lastWorkingDay)[n := EsiRowOf(entries[n - 1], lastWorkingDay)];
      forall k | k in rows ensures rows[k] == EsiRowOf(entries[k - 1], lastWorkingDay) {
        if k < n {
          assert front[k - 1] == entries[k - 1];
        }
      }
    }
  }

  /** Every entry of the period has its row, and the template rows past the last entry are kept. */
  lemma EsiSheetLayout(template: map<nat, EsiRow>, entries: seq<Entry>, period: Period, k: nat)
    requires AllHaveEmployees(entries)
    ensures var sheet := EsiSheet(template, entries, period);
      && (1 <= k <= |entries| ==> k in sheet && sheet[k] == EsiRowOf(entries[k - 1], LastWorkingDayText(period)))
      && (k == 0 || k > |entries| ==> (k in sheet <==> k in template) && (k in template ==> sheet[k] == template[k]))
  {
    var lwd := LastWorkingDayText(period);
    EsiRowsContents(entries, lwd);
    var rows := EsiRows(entries, lwd);
    if 1 <= k <= |entries| {
      assert k in rows;
    } else {
      assert k !in rows;
    }
  }

  /** A casual labourer's 10 days give 5410 rupees whatever wage was entered, a head-load worker's
      5000 rupees are taken as entered, and a zero wage gets reason code 1; all rows carry the last
      working day 30/11/2025. */
  lemma EsiWorkedExample(cl: Employee, hl: Employee, period: Period)
    requires cl.category == Some(CL) && hl.category == Some(HL)
    requires period.lastWorkingDay == Some(Date(2025, 11, 30))
    ensures var lwd := LastWorkingDayText(period);
      var a := EsiRowOf(NewEntry(0, 0, cl).(daysWorked := Some(10), wagesEarned := Some(999_900)), lwd);
      var b := EsiRowOf(NewEntry(1, 0, hl).(daysWorked := Some(20), wagesEarned := Some(500_000)), lwd);
      var c := EsiRowOf(NewEntry(2, 0, hl), lwd);
      && a.days == 10 && a.wages == 541_000 && a.reasonCode == "0"
      && b.wages == 500_000 && b.reasonCode == "0"
      && c.wages == 0 && c.reasonCode == "1"
      && lwd == "30/11/2025"
  {
    LastDayOfNovember(period);
  }

  lemma LastDayOfNovember(period: Period)
    requires period.lastWorkingDay == Some(Date(2025, 11, 30))
    ensures LastWorkingDayText(period) == "30/11/2025"
  {
    var lwd := LastWorkingDayText(period);
    assert lwd[..2] == "30" && lwd[3..5] == "11" && lwd[6..] == "2025" by {
      Text.DigitsDetermine(lwd[..2], "30");
      Text.DigitsDetermine(lwd[3..5], "11");
      assert "2025"[..3] == "202" && "202"[..2] == "20" && "20"[..1] == "2";
      assert Text.DigitsValue("2025") == 2025;
      Text.DigitsDetermine(lwd[6..], "2025");
    }
    assert lwd == lwd[..2] + "/" + lwd[3..5] + "/" + lwd[6..];
  }
}
