/** The payment details report (`generatePaymentDetailsPdf`): every entry of the period by member id,
    with the net amount paid and the bank's UTR reference, and the total paid. */
module PaymentDetails {
  import opened Wrappers
  import opened Entities
  import Store
  import Text
  import ReportText
  import opened PeriodEntries

  datatype PaymentRow = PaymentRow(name: string, bankAccount: string, ifsc: string, amount: int, utr: string)

  /** A row; the UTR column shows "-" until a UTR has been imported. */
  function PaymentRowOf(e: Entry): (r: PaymentRow)
    requires e.employee.Some?
    ensures r.amount == e.netPayable
    ensures r.utr == "-" <==> (e.utrNumber.None? || e.utrNumber == Some("-"))
  {
    var employee := e.employee.value;
    PaymentRow(ReportText.CellText(employee.fullName), ReportText.CellText(employee.bankAccountNo),
               ReportText.CellText(employee.ifscCode), e.netPayable,
               if e.utrNumber.Some? then ReportText.CellText(e.utrNumber) else "-")
  }

  /** The six cells of a data row; the amount prints at the stored scale of two decimals. */
  function PaymentCells(serial: int, r: PaymentRow): seq<string> {
    [Text.IntToString(serial), r.name, r.bankAccount, r.ifsc, ReportText.AmountText(r.amount), r.utr]
  }

  datatype PaymentReport = PaymentReport(title: string, rows: seq<PaymentRow>, total: int)

  function RowsOf(entries: seq<Entry>): (r: seq<PaymentRow>)
    requires AllHaveEmployees(entries)
    ensures |r| == |entries|
    ensures forall i :: 0 <= i < |r| ==> r[i] == PaymentRowOf(entries[i])
  {
    if entries == [] then [] else RowsOf(entries[..|entries| - 1]) + [PaymentRowOf(entries[|entries| - 1])]
  }

  function Title(period: Period): string
    requires 1 <= period.month <= 12
  {
    "WAGES PAID FOR THE MONTH OF " + ReportText.MonthName(period.month) + " " + Text.IntToString(period.year)
  }

  /** The report, or `None` when the period's month is not 1..12. */
  function Report(entries: seq<Entry>, period: Period): Option<PaymentReport>
    requires AllHaveEmployees(entries)
  {
    if !(1 <= period.month <= 12) then None
    else
      var sorted := SortedByMemberId(entries);
      SortedKeepsEmployees(entries);
      Some(PaymentReport(Title(period), RowsOf(sorted), NetTotal(sorted)))
  }

  /** The total cell: the running sum starts as `BigDecimal.ZERO`, which prints "0" when there is
      no entry; otherwise the sum has the stored scale and prints with two decimals. */
  function TotalText(report: PaymentReport): string {
    if report.rows == [] then "0" else ReportText.AmountText(report.total)
  }

  lemma SortedKeepsEmployees(entries: seq<Entry>)
    requires AllHaveEmployees(entries)
    ensures AllHaveEmployees(SortedByMemberId(entries))
  {
    var sorted := SortedByMemberId(entries);
    forall i | 0 <= i < |sorted| ensures sorted[i].employee.Some? {
      assert sorted[i] in multiset(entries);
    }
  }

  /** One more entry adds its row and its net pay. */
  lemma RowsStep(entries: seq<Entry>, i: nat)
    requires AllHaveEmployees(entries) && i < |entries|
    ensures RowsOf(entries[..i + 1]) == RowsOf(entries[..i]) + [PaymentRowOf(entries[i])]
    ensures NetTotal(entries[..i + 1]) == NetTotal(entries[..i]) + entries[i].netPayable
  {
    assert entries[..i + 1][..i] == entries[..i];
  }

  /** `generatePaymentDetailsPdf`: sorts, then writes each row and adds its amount to the total. */
  method GeneratePaymentDetails(entries: seq<Entry>, period: Period) returns (report: Option<PaymentReport>)
    requires AllHaveEmployees(entries)
    ensures report == Report(entries, period)
  {
    var sorted := SortedByMemberId(entries);
    SortedKeepsEmployees(entries);
    if !(1 <= period.month <= 12) {
      return None;
    }
    var rows: seq<PaymentRow> := [];
    var totalAmount := 0;
    var i := 0;
    while i < |sorted|
      invariant 0 <= i <= |sorted|
      invariant rows == RowsOf(sorted[..i]) && totalAmount == NetTotal(sorted[..i])
    {
      RowsStep(sorted, i);
      rows := rows + [PaymentRowOf(sorted[i])];
      totalAmount := totalAmount + sorted[i].netPayable;
      i := i + 1;
    }
    assert sorted[..i] == sorted;
    report := Some(PaymentReport(Title(period), rows, totalAmount));
  }

  /** The message every exception inside `generatePaymentDetailsPdf` is rethrown with. */
  const REPORT_ERROR: string := "Error generating Payment Details PDF"

  /** `generatePaymentDetailsPdf` as called: the period is looked up by id and its entries
      fetched in repository order; every exception inside, an unknown id's included, is rethrown
      as `REPORT_ERROR`. */
  method GeneratePaymentDetailsById(s: Store.State, periodId: nat) returns (r: Result<PaymentReport, string>)
    requires AllHaveEmployees(EntriesOfPeriod(s.entries, periodId))
    ensures Store.PeriodWithId(s.periods, periodId).None? ==> r == Failure(REPORT_ERROR)
    ensures Store.PeriodWithId(s.periods, periodId).Some? ==>
      var report := Report(EntriesOfPeriod(s.entries, periodId), Store.PeriodWithId(s.periods, periodId).value);
      r == if report.Some? then Success(report.value) else Failure(REPORT_ERROR)
  {
    var period := Store.PeriodWithId(s.periods, periodId);
    if period.None? {
      return Failure(REPORT_ERROR);
    }
    var report := GeneratePaymentDetails(EntriesOfPeriod(s.entries, periodId), period.value);
    r := if report.Some? then Success(report.value) else Failure(REPORT_ERROR);
  }

  // ---------------------------------------------------------------------------
  // Properties of the report
  // ---------------------------------------------------------------------------

  /** The report lists every entry (unlike the bank file, which skips entries without an account
      or without pay), and its total is the sum of the period's net pay, whatever the order. */
  lemma ReportListsEveryEntry(entries: seq<Entry>, period: Period)
    requires AllHaveEmployees(entries) && 1 <= period.month <= 12
    ensures var r := Report(entries, period).value;
      && |r.rows| == |entries|
      && multiset(r.rows) == multiset(RowsOf(entries))
      && r.total == NetTotal(entries)
  {
    var sorted := SortedByMemberId(entries);
    SortedKeepsEmployees(entries);
    NetTotalOfSorted(entries);
    RowsPermute(sorted, entries);
  }

  lemma {:induction false} RowsPermute(a: seq<Entry>, b: seq<Entry>)
    requires AllHaveEmployees(a) && AllHaveEmployees(b) && multiset(a) == multiset(b)
    ensures multiset(RowsOf(a)) == multiset(RowsOf(b))
    decreases |a|
  {
    if a != [] {
      var x := a[|a| - 1];
      var front := a[..|a| - 1];
      assert a == front + [x];
      assert x in multiset(b);
      var k :| 0 <= k < |b| && b[k] == x;
      var rest := b[..k] + b[k + 1..];
      RowsRemove(b, k);
      RemoveOne(a, b, k);
      RowsPermute(front, rest);
      assert RowsOf(a) == RowsOf(front) + [PaymentRowOf(x)];
    } else {
      assert |multiset(b)| == 0;
    }
  }

  /** Taking one entry out of a sequence takes its row out of the rows. */
  lemma RowsRemove(b: seq<Entry>, k: int)
    requires AllHaveEmployees(b) && 0 <= k < |b|
    ensures AllHaveEmployees(b[..k] + b[k + 1..])
    ensures multiset(RowsOf(b)) == multiset(RowsOf(b[..k] + b[k + 1..])) + multiset{PaymentRowOf(b[k])}
  {
    var x, left, right := b[k], b[..k], b[k + 1..];
    SplitAt(b, k);
    RowsOfAppend(left, right);
    RowsOfAppend(left, [x]);
    RowsOfAppend(left + [x], right);
  }

  lemma RowsOfAppend(a: seq<Entry>, b: seq<Entry>)
    requires AllHaveEmployees(a) && AllHaveEmployees(b)
    ensures AllHaveEmployees(a + b)
    ensures RowsOf(a + b) == RowsOf(a) + RowsOf(b)
  {
    assert forall i :: 0 <= i < |a + b| ==> (a + b)[i] == (if i < |a| then a[i] else b[i - |a|]);
  }
}
