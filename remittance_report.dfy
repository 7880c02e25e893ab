/** The wages and EPF/ESI remittance report (`generatePdfReport`): one page per category, head-load
    workers first and casual labourers second, each page listing its entries by member id with a
    total row. */
module RemittanceReport {
  import opened Wrappers
  import opened Money
  import opened Entities
  import Store
  import Text
  import MemberOrder
  import opened PeriodEntries
  import PayrollCalculator
  import ReportText

  /** The amounts of one data row, in paise before rounding; the serial number is the row's
      position on the page. */
  datatype RemittanceRow = RemittanceRow(
    name: string,
    uan: string,
    ipNumber: string,
    bankAccount: string,
    ifsc: string,
    days: int,
    wages: int,
    epfContractor: int,
    epfMember: int,
    esiContractor: int,
    esiMember: int,
    advance: int)

  function EpfTotal(r: RemittanceRow): int { r.epfContractor + r.epfMember }

  function EsiTotal(r: RemittanceRow): int { r.esiContractor + r.esiMember }

  /** The in-hand salary: the wage shown less the member's EPF and ESI shares and the advance. */
  function InHand(r: RemittanceRow): int { r.wages - r.epfMember - r.esiMember - r.advance }

  /** The row of one entry. Casual labour is shown at the standard wage for its days; a head-load
      entry shows the wage entered and cannot be printed without one (`None`). */
  function RowOf(e: Entry): (r: Option<RemittanceRow>)
    requires e.employee.Some?
    ensures r.None? <==> !IsCasual(e) && e.wagesEarned.None?
    ensures r.Some? ==> r.value.wages == PayrollCalculator.WageBasis(e)
  {
    var employee := e.employee.value;
    var days := e.daysWorked.GetOr(0);
    if !IsCasual(e) && e.wagesEarned.None? then None
    else
      var wages := if IsCasual(e) then PayrollCalculator.StandardWage(days) else e.wagesEarned.value;
      Some(RemittanceRow(
        ReportText.CellText(employee.fullName), ReportText.CellText(employee.uanNumber),
        ReportText.CellText(employee.ipNumber), ReportText.CellText(employee.bankAccountNo),
        ReportText.CellText(employee.ifscCode), days, wages,
        e.epfContractorShare, e.epfMemberShare, e.esiContractorShare, e.esiMemberShare,
        e.advanceDeduction.GetOr(0)))
  }

  /** `setScale(0, HALF_UP)` printed: whole rupees. */
  function Rounded(amount: int): string { Text.IntToString(RoundToRupees(amount)) }

  /** The sixteen cells of a data row. */
  function RowCells(serial: int, r: RemittanceRow): (cells: seq<string>)
    ensures |cells| == 16
  {
    [Text.IntToString(serial), r.name, r.uan, r.ipNumber, r.bankAccount, r.ifsc, Text.IntToString(r.days),
     Rounded(r.wages), Rounded(r.epfContractor), Rounded(r.epfMember), Rounded(EpfTotal(r)),
     Rounded(r.esiContractor), Rounded(r.esiMember), Rounded(EsiTotal(r)), Rounded(r.advance),
     Rounded(InHand(r))]
  }

  /** The ten accumulators of the total row: exact sums, rounded only when printed. */
  datatype Totals = Totals(
    days: int,
    wages: int,
    epfContractor: int,
    epfMember: int,
    epfTotal: int,
    esiContractor: int,
    esiMember: int,
    esiTotal: int,
    advance: int,
    inHand: int)

  const NoTotals := Totals(0, 0, 0, 0, 0, 0, 0, 0, 0, 0)

  /** One row added to each accumulator. */
  function AddRow(t: Totals, r: RemittanceRow): Totals {
    Totals(t.days + r.days, t.wages + r.wages, t.epfContractor + r.epfContractor, t.epfMember + r.epfMember,
           t.epfTotal + EpfTotal(r), t.esiContractor + r.esiContractor, t.esiMember + r.esiMember,
           t.esiTotal + EsiTotal(r), t.advance + r.advance, t.inHand + InHand(r))
  }

  function TotalsOf(rows: seq<RemittanceRow>): Totals {
    if rows == [] then NoTotals else AddRow(TotalsOf(rows[..|rows| - 1]), rows[|rows| - 1])
  }

  /** The total row: the label spanning the first six columns, then ten amounts. */
  function TotalCells(t: Totals): (cells: seq<string>)
    ensures |cells| == 11
  {
    ["TOTAL", Text.IntToString(t.days), Rounded(t.wages), Rounded(t.epfContractor), Rounded(t.epfMember),
     Rounded(t.epfTotal), Rounded(t.esiContractor), Rounded(t.esiMember), Rounded(t.esiTotal),
     Rounded(t.advance), Rounded(t.inHand)]
  }

  /** One page: its category, the month and year its title names, the data rows and the totals. */
  datatype RemittancePage = RemittancePage(category: Category, month: int, year: int, rows: seq<RemittanceRow>, totals: Totals)

  function CategoryTitle(category: Category): string {
    if category == HL then "HEAD LOAD LABOURERS" else "CASUAL LABOURERS"
  }

  /** The title spanning the top of a page. */
  function PageTitle(page: RemittancePage): string
    requires 1 <= page.month <= 12
  {
    "WAGES PAID & EPF/ESI REMITTANCE PARTICULARS FOR THE MONTH OF " + ReportText.MonthName(page.month)
    + " " + Text.IntToString(page.year) + " IN RESPECT OF " + CategoryTitle(page.category) + " ENGAGED IN FSD ARRAKULAM"
  }

  function RowsOf(entries: seq<Entry>): (r: Option<seq<RemittanceRow>>)
    requires AllHaveEmployees(entries)
    ensures r.Some? ==> |r.value| == |entries|
  {
    if entries == [] then Some([])
    else
      var front := RowsOf(entries[..|entries| - 1]);
      var last := RowOf(entries[|entries| - 1]);
      if front.None? || last.None? then None else Some(front.value + [last.value])
  }

  /** The page of one category's entries, or `None` when one of its rows cannot be printed. */
  function PageOf(category: Category, period: Period, sorted: seq<Entry>): Option<RemittancePage>
    requires AllHaveEmployees(sorted)
  {
    var rows := RowsOf(sorted);
    if rows.None? then None else Some(RemittancePage(category, period.month, period.year, rows.value, TotalsOf(rows.value)))
  }

  /** Head-load workers first, casual labourers second. */
  const PAGE_ORDER: seq<Category> := [HL, CL]

  /** The whole report, or `None` where the report fails: an employee without a category (which
      cannot be grouped), a month outside 1..12 once there is a page to title, or a head-load
      entry without a wage. */
  function Report(entries: seq<Entry>, period: Period): Option<seq<RemittancePage>>
    requires AllHaveEmployees(entries)
  {
    if exists i :: 0 <= i < |entries| && CategoryOf(entries[i]).None? then None
    else ReportFrom(PAGE_ORDER, entries, period)
  }

  function ReportFrom(categories: seq<Category>, entries: seq<Entry>, period: Period): Option<seq<RemittancePage>>
    requires AllHaveEmployees(entries)
  {
    if categories == [] then Some([])
    else
      var first := CategoryPages(categories[0], entries, period);
      var rest := ReportFrom(categories[1..], entries, period);
      if first.None? || rest.None? then None else Some(first.value + rest.value)
  }

  /** The pages of one category: none when it has no entries, otherwise its one page, or `None`
      when the month cannot be titled or a row cannot be printed. */
  function CategoryPages(category: Category, entries: seq<Entry>, period: Period): (r: Option<seq<RemittancePage>>)
    requires AllHaveEmployees(entries)
    ensures r.Some? ==> |r.value| <= 1
  {
    var group := OfCategory(entries, category);
    if group == [] then Some([])
    else if !(1 <= period.month <= 12) then None
    else
      AllHaveEmployeesOfSorted(group);
      var page := PageOf(category, period, SortedByMemberId(group));
      if page.None? then None else Some([page.value])
  }

  lemma AllHaveEmployeesOfSorted(group: seq<Entry>)
    requires forall i :: 0 <= i < |group| ==> CategoryOf(group[i]).Some?
    ensures AllHaveEmployees(SortedByMemberId(group))
  {
    var sorted := SortedByMemberId(group);
    forall i | 0 <= i < |sorted| ensures sorted[i].employee.Some? {
      MemberOrder.InMultiset(sorted, group, i);
    }
  }

  /** One page: a row per entry and the running totals, as the report's loop builds them. */
  method BuildPage(category: Category, period: Period, sorted: seq<Entry>) returns (page: Option<RemittancePage>)
    requires AllHaveEmployees(sorted)
    ensures page == PageOf(category, period, sorted)
  {
    var rows: seq<RemittanceRow> := [];
    var totals := NoTotals;
    var i := 0;
    while i < |sorted|
      invariant 0 <= i <= |sorted|
      invariant RowsOf(sorted[..i]) == Some(rows)
      invariant totals == TotalsOf(rows)
    {
      RowsOfStep(sorted, i);
      var row := RowOf(sorted[i]);
      if row.None? {
        RowsOfNoneExtends(sorted, i + 1);
        return None;
      }
      TotalsOfSnoc(rows, row.value);
      rows := rows + [row.value];
      totals := AddRow(totals, row.value);
      i := i + 1;
    }
    assert sorted[..i] == sorted;
    page := Some(RemittancePage(category, period.month, period.year, rows, totals));
  }

  /** `generatePdfReport`: groups the entries by category, then builds the head-load page and the
      casual page in that order, skipping a category with no entries. */
  method GenerateReport(entries: seq<Entry>, period: Period) returns (pages: Option<seq<RemittancePage>>)
    requires AllHaveEmployees(entries)
    ensures pages == Report(entries, period)
  {
    if exists i :: 0 <= i < |entries| && CategoryOf(entries[i]).None? {
      assert Report(entries, period) == None;
      return None;
    }
    var categories := PAGE_ORDER;
    var built: seq<RemittancePage> := [];
    var k := 0;
    assert categories[k..] == categories;
    ghost var all := ReportFrom(categories, entries, period);
    assert all.Some? ==> built + all.value == all.value;
    while k < |categories|
      invariant 0 <= k <= |categories|
      invariant Report(entries, period) == Prefixed(built, ReportFrom(categories[k..], entries, period))
    {
      assert categories[k..][0] == categories[k] && categories[k..][1..] == categories[k + 1..];
      var part := BuildCategory(categories[k], entries, period);
      if part.None? {
        return None;
      }
      PrefixedStep(built, part.value, ReportFrom(categories[k + 1..], entries, period));
      built := built + part.value;
      k := k + 1;
    }
    assert categories[k..] == [];
    assert built + [] == built;
    pages := Some(built);
  }

  /** The message every exception inside `generatePdfReport` is rethrown with. */
  const REPORT_ERROR: string := "Error generating PDF"

  /** `generatePdfReport` as called: the period is looked up by id and its entries fetched in
      repository order; every exception inside, an unknown id's included, is rethrown as `REPORT_ERROR`. */
  method GenerateReportById(s: Store.State, periodId: nat) returns (r: Result<seq<RemittancePage>, string>)
    requires AllHaveEmployees(EntriesOfPeriod(s.entries, periodId))
    ensures Store.PeriodWithId(s.periods, periodId).None? ==> r == Failure(REPORT_ERROR)
    ensures Store.PeriodWithId(s.periods, periodId).Some? ==>
      var pages := Report(EntriesOfPeriod(s.entries, periodId), Store.PeriodWithId(s.periods, periodId).value);
      r == if pages.Some? then Success(pages.value) else Failure(REPORT_ERROR)
  {
    var period := Store.PeriodWithId(s.periods, periodId);
    if period.None? {
      return Failure(REPORT_ERROR);
    }
    var pages := GenerateReport(EntriesOfPeriod(s.entries, periodId), period.value);
    r := if pages.Some? then Success(pages.value) else Failure(REPORT_ERROR);
  }

  /** The body of the report's loop for one category: its entries, sorted by member id, as one
      page, skipping a category with no entries. */
  method BuildCategory(category: Category, entries: seq<Entry>, period: Period) returns (part: Option<seq<RemittancePage>>)
    requires AllHaveEmployees(entries)
    ensures part == CategoryPages(category, entries, period)
  {
    var group := OfCategory(entries, category);
    if group == [] {
      return Some([]);
    }
    if !(1 <= period.month <= 12) {
      return None;
    }
    AllHaveEmployeesOfSorted(group);
    var page := BuildPage(category, period, SortedByMemberId(group));
    if page.None? {
      return None;
    }
    part := Some([page.value]);
  }

  function Prefixed(built: seq<RemittancePage>, rest: Option<seq<RemittancePage>>): Option<seq<RemittancePage>> {
    if rest.None? then None else Some(built + rest.value)
  }

  lemma PrefixedStep(built: seq<RemittancePage>, part: seq<RemittancePage>, rest: Option<seq<RemittancePage>>)
    ensures Prefixed(built, if rest.None? then None else Some(part + rest.value)) == Prefixed(built + part, rest)
  {
    if rest.Some? {
      assert built + (part + rest.value) == (built + part) + rest.value;
    }
  }

  lemma RowsOfStep(entries: seq<Entry>, i: nat)
    requires AllHaveEmployees(entries) && i < |entries|
    ensures AllHaveEmployees(entries[..i]) && AllHaveEmployees(entries[..i + 1])
    ensures RowsOf(entries[..i + 1]) ==
      if RowsOf(entries[..i]).None? || RowOf(entries[i]).None? then None
      else Some(RowsOf(entries[..i]).value + [RowOf(entries[i]).value])
  {
    assert entries[..i + 1][..i] == entries[..i];
    assert entries[..i + 1][i] == entries[i];
  }

  lemma TotalsOfSnoc(rows: seq<RemittanceRow>, r: RemittanceRow)
    ensures TotalsOf(rows + [r]) == AddRow(TotalsOf(rows), r)
  {
    assert (rows + [r])[..|rows|] == rows;
  }

  /** A row that cannot be printed fails every longer prefix too. */
  lemma {:induction false} RowsOfNoneExtends(entries: seq<Entry>, n: nat)
    requires AllHaveEmployees(entries) && 0 < n <= |entries| && RowsOf(entries[..n]).None?
    ensures RowsOf(entries).None?
    decreases |entries| - n
  {
    if n < |entries| {
      assert entries[..n + 1][..n] == entries[..n];
      RowsOfNoneExtends(entries, n + 1);
    } else {
      assert entries[..n] == entries;
    }
  }

  // ---------------------------------------------------------------------------
  // Properties of the report
  // ---------------------------------------------------------------------------

  /** The total row is consistent with itself: the EPF and ESI totals are the sums of their two
      shares and the in-hand total is the wage total less the member shares and advances. */
  lemma {:induction false} TotalsConsistent(rows: seq<RemittanceRow>)
    ensures var t := TotalsOf(rows);
      && t.epfTotal == t.epfContractor + t.epfMember
      && t.esiTotal == t.esiContractor + t.esiMember
      && t.inHand == t.wages - t.epfMember - t.esiMember - t.advance
  {
    if rows != [] {
      TotalsConsistent(rows[..|rows| - 1]);
    }
  }

  /** For a calculated head-load entry the in-hand salary printed is exactly the net payable. */
  lemma HeadLoadInHandIsNetPay(e: Entry)
    requires e.employee.Some? && !IsCasual(e) && e.wagesEarned.Some?
    ensures var c := PayrollCalculator.Calculated(e);
      RowOf(c).Some? && InHand(RowOf(c).value) == c.netPayable
  {
  }

  /** For calculated casual labour the report deducts the member's EPF and ESI shares and the
      advance from the standard wage, while the net payable (what the bank file pays) is the wage
      itself: when the entered wage is the standard one, the two differ by exactly those amounts. */
  lemma CasualInHandDeductsContributions(e: Entry)
    requires IsCasual(e) && e.wagesEarned == Some(PayrollCalculator.StandardWage(e.daysWorked.GetOr(0)))
    ensures var c := PayrollCalculator.Calculated(e);
      RowOf(c).Some?
      && InHand(RowOf(c).value) == c.netPayable - c.epfMemberShare - c.esiMemberShare - e.advanceDeduction.GetOr(0)
  {
  }

  /** Every row's EPF and ESI amounts are those of the stored calculation, taken on the wage the
      row shows. */
  lemma RowMatchesCalculation(e: Entry)
    requires e.employee.Some? && (IsCasual(e) || e.wagesEarned.Some?)
    ensures var c := PayrollCalculator.Calculated(e);
      var r := RowOf(c).value;
      && r.epfMember == PayrollCalculator.EpfMember(r.wages)
      && r.epfContractor == PayrollCalculator.EpfContractor(r.wages)
      && r.esiMember == PayrollCalculator.EsiMember(r.wages)
      && r.esiContractor == PayrollCalculator.EsiContractor(r.wages)
  {
    var c := PayrollCalculator.Calculated(e);
    assert CategoryOf(c) == CategoryOf(e);
    assert c.daysWorked == e.daysWorked;
  }

  /** One category's part of the report: no page when it has no entries, otherwise one page of
      that category with a row per entry. */
  predicate PartShape(pages: seq<RemittancePage>, category: Category, count: nat) {
    && (count == 0 <==> pages == [])
    && (count != 0 ==> |pages| == 1 && pages[0].category == category && |pages[0].rows| == count)
  }

  lemma CategoryPagesShape(category: Category, entries: seq<Entry>, period: Period)
    requires AllHaveEmployees(entries) && CategoryPages(category, entries, period).Some?
    ensures PartShape(CategoryPages(category, entries, period).value, category, |OfCategory(entries, category)|)
  {
    var group := OfCategory(entries, category);
    var pages := CategoryPages(category, entries, period).value;
    if group == [] {
      assert pages == [];
    } else {
      AllHaveEmployeesOfSorted(group);
      var sorted := SortedByMemberId(group);
      PageOfShape(category, period, sorted);
      assert pages == [PageOf(category, period, sorted).value];
    }
  }

  lemma PageOfShape(category: Category, period: Period, sorted: seq<Entry>)
    requires AllHaveEmployees(sorted) && PageOf(category, period, sorted).Some?
    ensures PageOf(category, period, sorted).value.category == category
    ensures |PageOf(category, period, sorted).value.rows| == |sorted|
  {
  }

  lemma {:induction false} RowCountAppend(a: seq<RemittancePage>, b: seq<RemittancePage>)
    ensures RowCount(a + b) == RowCount(a) + RowCount(b)
  {
    if a != [] {
      assert (a + b)[1..] == a[1..] + b;
      RowCountAppend(a[1..], b);
    } else {
      assert a + b == b;
    }
  }

  /** The report's pages are the head-load part followed by the casual part. */
  lemma ReportParts(entries: seq<Entry>, period: Period)
    requires AllHaveEmployees(entries) && ReportFrom(PAGE_ORDER, entries, period).Some?
    ensures CategoryPages(HL, entries, period).Some? && CategoryPages(CL, entries, period).Some?
    ensures ReportFrom(PAGE_ORDER, entries, period).value
         == CategoryPages(HL, entries, period).value + CategoryPages(CL, entries, period).value
  {
    assert PAGE_ORDER[0] == HL && PAGE_ORDER[1..] == [CL] && [CL][1..] == [];
    var cl := CategoryPages(CL, entries, period);
    assert ReportFrom([CL], entries, period) == Some(cl.value + []);
    assert cl.value + [] == cl.value;
  }

  /** At most two pages, head-load before casual, every page as long as its category's group
      and never empty, and one row per entry of the two groups. */
  predicate CoversEntries(pages: seq<RemittancePage>, hlCount: nat, clCount: nat) {
    && |pages| <= 2
    && (|pages| == 2 ==> pages[0].category == HL && pages[1].category == CL)
    && (forall i :: 0 <= i < |pages| ==> |pages[i].rows| == (if pages[i].category == HL then hlCount else clCount) > 0)
    && RowCount(pages) == hlCount + clCount
  }

  lemma PartsCover(hl: seq<RemittancePage>, cl: seq<RemittancePage>, hlCount: nat, clCount: nat)
    requires PartShape(hl, HL, hlCount) && PartShape(cl, CL, clCount)
    ensures CoversEntries(hl + cl, hlCount, clCount)
  {
    RowCountAppend(hl, cl);
    if hl != [] {
      assert hl[1..] == [] && RowCount(hl) == hlCount;
    }
    if cl != [] {
      assert cl[1..] == [] && RowCount(cl) == clCount;
    }
  }

  /** A successful report covers the period: the head-load page (if any) comes first and the
      casual page (if any) second, each lists its category's entries, and every entry of the
      period is listed exactly once. */
  lemma ReportCoversEntries(entries: seq<Entry>, period: Period)
    requires AllHaveEmployees(entries) && Report(entries, period).Some?
    ensures CoversEntries(Report(entries, period).value, |OfCategory(entries, HL)|, |OfCategory(entries, CL)|)
    ensures |OfCategory(entries, HL)| + |OfCategory(entries, CL)| == |entries|
  {
    CategoriesPartition(entries);
    ReportParts(entries, period);
    CategoryPagesShape(HL, entries, period);
    CategoryPagesShape(CL, entries, period);
    PartsCover(CategoryPages(HL, entries, period).value, CategoryPages(CL, entries, period).value,
               |OfCategory(entries, HL)|, |OfCategory(entries, CL)|);
  }

  function RowCount(pages: seq<RemittancePage>): nat {
    if pages == [] then 0 else |pages[0].rows| + RowCount(pages[1..])
  }
}
