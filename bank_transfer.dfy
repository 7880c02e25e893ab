/** The bank's bulk NEFT upload file: a header carrying the total debit, then one credit row per
    employee to be paid, in member-id order. */
module BankTransfer {
  import opened Wrappers
  import opened Money
  import opened Entities
  import Store
  import Text
  import MemberOrder
  import opened PeriodEntries

  const HEADER_PREFIX: string := "44145351821#17242#"
  const TRAILER: string := "NASAR PK#NEFT\n"
  /** Used when the employee has no IFSC code or a blank one. */
  const DEFAULT_IFSC: string := "CBIN0280965"

  /** An entry gets a credit row when its employee's account number is not empty after trimming
      (`TrimEmptyIff`) and its net payable is not zero. */
  predicate Payable(e: Entry) {
    HasAccount(e) && e.netPayable != 0
  }

  predicate HasAccount(e: Entry) {
    && e.employee.Some?
    && e.employee.value.bankAccountNo.Some?
    && !Text.TrimsToEmpty(e.employee.value.bankAccountNo.value)
  }

  function IfscOf(employee: Employee): (r: string)
    ensures r == DEFAULT_IFSC || (employee.ifscCode == Some(r) && !Text.IsBlank(r))
  {
    if employee.ifscCode.None? || Text.IsBlank(employee.ifscCode.value) then DEFAULT_IFSC
    else employee.ifscCode.value
  }

  function Header(entries: seq<Entry>, dateText: string): string {
    HEADER_PREFIX + dateText + "#" + Text.IntToString(TruncateToRupees(NetTotal(entries))) + "###" + TRAILER
  }

  /** The account number is written as stored, untrimmed; the amount is whole rupees. */
  function CreditRow(e: Entry, dateText: string): (row: string)
    requires Payable(e)
    ensures Text.StartsWith(row, e.employee.value.bankAccountNo.value + "#" + IfscOf(e.employee.value) + "#" + dateText + "##")
    ensures Text.EndsWith(row, "##" + TRAILER)
    ensures !Text.TrimsToEmpty(row[..|e.employee.value.bankAccountNo.value|])
  {
    var account := e.employee.value.bankAccountNo.value + "#" + IfscOf(e.employee.value) + "#" + dateText + "##";
    var amount := Text.IntToString(TruncateToRupees(e.netPayable));
    var trailer := "##" + TRAILER;
    assert (account + amount + trailer)[..|account|] == account;
    assert (account + amount + trailer)[..|e.employee.value.bankAccountNo.value|] == e.employee.value.bankAccountNo.value;
    assert (account + amount + trailer)[|account + amount|..] == trailer;
    account + amount + trailer
  }

  /** Reading a row back: split on '#', it gives the account, the IFSC code, the date, an empty
      field, the amount in whole rupees, an empty field and the two trailer fields. */
  lemma CreditRowReadsBack(e: Entry, dateText: string)
    requires Payable(e)
    requires '#' !in e.employee.value.bankAccountNo.value && '#' !in IfscOf(e.employee.value) && '#' !in dateText
    ensures Text.JavaSplit(CreditRow(e, dateText), '#') == [e.employee.value.bankAccountNo.value,
      IfscOf(e.employee.value), dateText, "", Text.IntToString(TruncateToRupees(e.netPayable)), "", "NASAR PK", "NEFT\n"]
  {
    var amount := Text.IntToString(TruncateToRupees(e.netPayable));
    var parts := [e.employee.value.bankAccountNo.value, IfscOf(e.employee.value), dateText, "", amount, "", "NASAR PK", "NEFT\n"];
    RowJoined(parts);
    var account := parts[0] + "#" + parts[1] + "#" + dateText + "##";
    assert CreditRow(e, dateText) == account + amount + ("##" + TRAILER);
    assert account + amount + ("##" + TRAILER) == account + amount + "##" + TRAILER;
    Text.IntToStringPlain(TruncateToRupees(e.netPayable), '#');
    assert forall i :: 0 <= i < |"NASAR PK"| ==> "NASAR PK"[i] != '#';
    assert forall i :: 0 <= i < |"NEFT\n"| ==> "NEFT\n"[i] != '#';
    Text.JavaSplitJoin(parts, '#');
  }

  /** The eight fields of a row joined with '#'. */
  lemma RowJoined(parts: seq<string>)
    requires |parts| == 8 && parts[3] == "" && parts[5] == "" && parts[6] == "NASAR PK" && parts[7] == "NEFT\n"
    ensures Text.Join(parts, ['#']) == parts[0] + "#" + parts[1] + "#" + parts[2] + "##" + parts[4] + "##" + TRAILER
  {
    var sep := ['#'];
    forall k | 0 <= k < 7
      ensures Text.Join(parts[k..], sep) == parts[k] + sep + Text.Join(parts[k + 1..], sep)
    {
      assert parts[k..] == [parts[k]] + parts[k + 1..];
      Text.JoinCons(parts[k], parts[k + 1..], sep);
    }
    assert parts[7..] == [parts[7]] && parts[0..] == parts;
    assert sep == "#";
  }

  function CreditRows(entries: seq<Entry>, dateText: string): string {
    if entries == [] then ""
    else
      var last := entries[|entries| - 1];
      CreditRows(entries[..|entries| - 1], dateText) + (if Payable(last) then CreditRow(last, dateText) else "")
  }

  /** The whole file: the header totals every entry of the period, the rows follow member-id order. */
  function BulkText(entries: seq<Entry>, paymentDate: CalendarDate): string {
    var dateText := FormatDate(paymentDate);
    Header(entries, dateText) + CreditRows(SortedByMemberId(entries), dateText)
  }

  /** `generateBulkTxt`: the header from the total, then a pass over the sorted entries that skips
      the ones without an account or without pay. */
  method GenerateBulkTxt(entries: seq<Entry>, paymentDate: CalendarDate) returns (txt: string)
    requires AllHaveEmployees(entries)
    ensures txt == BulkText(entries, paymentDate)
  {
    var dateText := FormatDate(paymentDate);
    txt := AppendCreditRows(Header(entries, dateText), SortedByMemberId(entries), dateText);
  }

  /** `generateBulkTxt` as called: the period is looked up by id, failing with
      `NoSuchElementException` when there is none, then its entries are fetched in repository
      order; the period itself is not used further. */
  method GenerateBulkTxtById(s: Store.State, periodId: nat, paymentDate: CalendarDate) returns (r: Result<string, string>)
    requires AllHaveEmployees(EntriesOfPeriod(s.entries, periodId))
    ensures Store.PeriodWithId(s.periods, periodId).None? ==> r == Failure(Store.NO_SUCH_ELEMENT)
    ensures Store.PeriodWithId(s.periods, periodId).Some? ==>
              r == Success(BulkText(EntriesOfPeriod(s.entries, periodId), paymentDate))
  {
    if Store.PeriodWithId(s.periods, periodId).None? {
      return Failure(Store.NO_SUCH_ELEMENT);
    }
    var txt := GenerateBulkTxt(EntriesOfPeriod(s.entries, periodId), paymentDate);
    r := Success(txt);
  }

  /** The pass over the sorted entries, appending to the text built so far. */
  method AppendCreditRows(header: string, sorted: seq<Entry>, dateText: string) returns (txt: string)
    ensures txt == header + CreditRows(sorted, dateText)
  {
    txt := header;
    var i := 0;
    assert sorted[..0] == [] && header + "" == header;
    while i < |sorted|
      invariant 0 <= i <= |sorted|
      invariant txt == header + CreditRows(sorted[..i], dateText)
    {
      var e := sorted[i];
      assert sorted[..i + 1][..i] == sorted[..i] && sorted[..i + 1][i] == e;
      ghost var row := if Payable(e) then CreditRow(e, dateText) else "";
      ghost var before := CreditRows(sorted[..i], dateText);
      assert CreditRows(sorted[..i + 1], dateText) == before + row;
      if Payable(e) {
        txt := txt + CreditRow(e, dateText);
      } else {
        assert before + row == before;
      }
      Text.ConcatAssociative(header, before, row);
      i := i + 1;
    }
    assert sorted[..i] == sorted;
  }

  // ---------------------------------------------------------------------------
  // Properties of the file
  // ---------------------------------------------------------------------------

  function PayableEntries(entries: seq<Entry>): (r: seq<Entry>)
    ensures forall i :: 0 <= i < |r| ==> Payable(r[i])
  {
    if entries == [] then []
    else
      var last := entries[|entries| - 1];
      PayableEntries(entries[..|entries| - 1]) + (if Payable(last) then [last] else [])
  }

  function AllRows(entries: seq<Entry>, dateText: string): string
    requires forall i :: 0 <= i < |entries| ==> Payable(entries[i])
  {
    if entries == [] then "" else AllRows(entries[..|entries| - 1], dateText) + CreditRow(entries[|entries| - 1], dateText)
  }

  /** The rows are exactly one credit row for each payable entry, in order. */
  lemma {:induction false} CreditRowsArePayableRows(entries: seq<Entry>, dateText: string)
    ensures CreditRows(entries, dateText) == AllRows(PayableEntries(entries), dateText)
  {
    if entries != [] {
      var front := entries[..|entries| - 1];
      var last := entries[|entries| - 1];
      CreditRowsArePayableRows(front, dateText);
      var p := PayableEntries(front);
      if Payable(last) {
        assert PayableEntries(entries) == p + [last];
        assert (p + [last])[..|p|] == p;
      } else {
        assert PayableEntries(entries) == p;
      }
    }
  }

  /** When every employee has an account number, the header's debit equals the total of the
      payable entries' net pay (entries left out only for a zero net add nothing). */
  lemma {:induction false} HeaderMatchesRows(entries: seq<Entry>)
    requires forall i :: 0 <= i < |entries| ==> HasAccount(entries[i])
    ensures NetTotal(PayableEntries(entries)) == NetTotal(entries)
  {
    if entries != [] {
      var front := entries[..|entries| - 1];
      var last := entries[|entries| - 1];
      assert HasAccount(last);
      HeaderMatchesRows(front);
      assert entries == front + [last];
      NetTotalAppend(front, [last]);
      if Payable(last) {
        NetTotalAppend(PayableEntries(front), [last]);
      } else {
        assert PayableEntries(entries) == PayableEntries(front);
        assert NetTotal(entries) == NetTotal(front) + last.netPayable;
        assert last.netPayable == 0;
      }
    }
  }
}
