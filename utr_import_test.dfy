/** The statement of the UTR import's unit test (`PayrollImportServiceTest`): a header row
    "Account Number" / "UTR Number" and one data row whose account belongs to an employee with an
    entry in the period. */
module UtrImportTest {
  import opened Wrappers
  import opened Entities
  import Text
  import opened Store
  import opened Cells
  import TextTables
  import opened UtrImport

  /** A part longer than the text is not in it. */
  lemma {:induction false} TooLongNotContained(s: string, part: string)
    requires |part| > |s|
    ensures !Text.Contains(s, part)
    decreases |s|
  {
    if s != [] {
      TooLongNotContained(s[1..], part);
    }
  }

  /** A cell that starts with `part` up to case contains it once lowercased. */
  lemma PrefixLowered(cell: string, part: string)
    requires |part| <= |cell| && forall k :: 0 <= k < |part| ==> Text.LowerChar(cell[k]) == part[k]
    ensures Text.Contains(Text.ToLower(cell), part)
  {
    var val := Text.ToLower(cell);
    assert val[0..|part|] == part;
    Text.ContainsAt(val, part, 0);
  }

  /** A lowercase letter absent from a cell in both cases is absent once it is lowercased. */
  lemma LetterNotLowered(cell: string, c: char)
    requires 'a' <= c <= 'z'
    requires forall k :: 0 <= k < |cell| ==> cell[k] != c && cell[k] as int != c as int - 32
    ensures c !in Text.ToLower(cell)
  {
    var val := Text.ToLower(cell);
    forall k | 0 <= k < |val| ensures val[k] != c {
      assert val[k] == Text.LowerChar(cell[k]);
    }
  }

  /** The headers of the test's statement: "Account Number" names the account column, and
      "UTR Number" is the explicit UTR header and does not name an account. */
  predicate TestHeaders(accountHeader: string, utrHeader: string) {
    && MentionsAccount(accountHeader) && NamesUtrNumber(utrHeader) && !MentionsAccount(utrHeader)
    && TextTables.PlainCell(accountHeader) && TextTables.PlainCell(utrHeader)
    && '<' !in accountHeader && '<' !in utrHeader
  }

  /** The test's headers meet the conditions of `StatementUpdatesEntry`. */
  lemma TestHeadersHold()
    ensures TestHeaders("Account Number", "UTR Number")
  {
    AccountNumberHeader();
    UtrNumberHeader();
    UtrNumberNotAccount();
    AccountNumberPlain();
    UtrNumberPlain();
  }

  /** So do the test's account and UTR. */
  lemma TestValuesMarkable()
    ensures MarkableValue("123456") && MarkableValue("UTR001")
  {
  }

  lemma AccountNumberPlain()
    ensures TextTables.PlainCell("Account Number") && '<' !in "Account Number"
  {
  }

  lemma UtrNumberPlain()
    ensures TextTables.PlainCell("UTR Number") && '<' !in "UTR Number"
  {
  }

  lemma AccountNumberHeader()
    ensures MentionsAccount("Account Number")
  {
    PrefixLowered("Account Number", "account");
  }

  lemma UtrNumberHeader()
    ensures NamesUtrNumber("UTR Number")
  {
    PrefixLowered("UTR Number", "utr number");
  }

  lemma UtrNumberNotAccount()
    ensures !MentionsAccount("UTR Number")
  {
    var cell := "UTR Number";
    assert forall k :: 0 <= k < |cell| ==> cell[k] != 'a' && cell[k] as int != 'a' as int - 32;
    LetterNotLowered(cell, 'a');
    TextTables.MissingFirstUnit(Text.ToLower(cell), "account");
    TooLongNotContained(Text.ToLower(cell), "beneficiary");
  }

  /** A header row of an account header followed by the explicit UTR header gives the account
      column 0 and the UTR column 1, with the data from the next row. */
  lemma HeaderRow(rows: seq<seq<string>>, accountHeader: string, utrHeader: string)
    requires TestHeaders(accountHeader, utrHeader)
    requires |rows| >= 1 && rows[0] == [accountHeader, utrHeader]
    ensures FindHeader(HEADER, rows, 0, None, None) == Some(Header(0, 1, 1))
  {
    var row := rows[0];
    RowScanPicks(HEADER, None, None, row);
    assert LastWhere(row, HEADER.explicitUtr) == Some(1);
    assert LastWhere(row, HEADER.account) == Some(0);
  }

  /** A value the statement may carry after the text mark: not blank at its end, and free of
      tabs, line breaks and '<'. */
  predicate MarkableValue(v: string) {
    v != [] && !Text.IsTrimmed(v[|v| - 1]) && '\t' !in v && '\n' !in v && '<' !in v
  }

  /** A value marked as text loses the mark. */
  lemma UnmarkedMarked(v: string)
    requires MarkableValue(v)
    ensures Unmarked("'" + v) == v
    ensures TextTables.PlainCell("'" + v) && '<' !in "'" + v
  {
    var t := "'" + v;
    Text.TrimOfTrimmed(t);
    assert t[1..] == v;
  }

  lemma OneUpdated()
    ensures Completed(1) == "Import Complete: 1 Updated. "
  {
    assert Text.NatToString(1) == ['1'];
  }

  /** A tab-separated statement: a header line, then one data line of a marked account and a
      marked UTR ("Account Number\tUTR Number\n'123456\t'UTR001" in the test). */
  function StatementText(accountHeader: string, utrHeader: string, account: string, utr: string): string {
    accountHeader + "\t" + utrHeader + "\n'" + account + "\t'" + utr
  }

  /** The statement is its two rows, each joined by a tab, joined by a line break. */
  lemma StatementLines(accountHeader: string, utrHeader: string, account: string, utr: string, rows: seq<seq<string>>)
    requires rows == [[accountHeader, utrHeader], ["'" + account, "'" + utr]]
    ensures Text.Join(TextTables.TabLines(rows), "\n") == StatementText(accountHeader, utrHeader, account, utr)
  {
    TextTables.TabLineAt(rows, 0);
    TextTables.TabLineAt(rows, 1);
    assert Text.Join(rows[0], "\t") == accountHeader + "\t" + utrHeader;
    assert Text.Join(rows[1], "\t") == "'" + account + "\t'" + utr;
  }

  /** The two rows of the statement hold plain cells only. */
  lemma StatementCellsPlain(accountHeader: string, utrHeader: string, account: string, utr: string, rows: seq<seq<string>>)
    requires TextTables.PlainCell(accountHeader) && TextTables.PlainCell(utrHeader)
    requires MarkableValue(account) && MarkableValue(utr)
    requires rows == [[accountHeader, utrHeader], ["'" + account, "'" + utr]]
    ensures forall i :: 0 <= i < |rows| ==> |rows[i]| >= 2 && forall k :: 0 <= k < |rows[i]| ==> TextTables.PlainCell(rows[i][k])
  {
    UnmarkedMarked(account);
    UnmarkedMarked(utr);
    forall i, k | 0 <= i < |rows| && 0 <= k < |rows[i]| ensures TextTables.PlainCell(rows[i][k]) {
      if i == 0 {
        assert rows[0] == [accountHeader, utrHeader];
      } else {
        assert rows[1] == ["'" + account, "'" + utr];
      }
    }
  }

  /** The statement reads as its two rows. */
  lemma StatementRows(accountHeader: string, utrHeader: string, account: string, utr: string, scanners: TextTables.Scanners)
    requires TestHeaders(accountHeader, utrHeader) && MarkableValue(account) && MarkableValue(utr)
    ensures TextTables.NonStandardTable(StatementText(accountHeader, utrHeader, account, utr), scanners)
      == Success([[accountHeader, utrHeader], ["'" + account, "'" + utr]])
  {
    var rows := [[accountHeader, utrHeader], ["'" + account, "'" + utr]];
    var content := StatementText(accountHeader, utrHeader, account, utr);
    StatementLines(accountHeader, utrHeader, account, utr, rows);
    StatementCellsPlain(accountHeader, utrHeader, account, utr, rows);
    TextTables.DelimitedReadsBack(rows);
    assert '<' !in content;
    TextTables.PlainTextIsDelimited(content, scanners);
  }

  /** A text file that reads as a non-empty table is processed like a workbook's rows. */
  lemma TextUploadProcessed(s: State, periodId: nat, scanners: TextTables.Scanners, doubleText: int -> string,
                            error: string, content: string, rows: seq<seq<string>>)
    requires PeriodById(s.periods, periodId).Some?
    requires TextTables.NonStandardTable(content, scanners) == Success(rows) && rows != []
    ensures UtrImported(s, periodId, NotWorkbook(error, content), scanners, doubleText)
      == (Success(UtrProcessed(s, rows, periodId).0), UtrProcessed(s, rows, periodId).1)
  {
  }

  /** The two rows of the statement: one update, of the employee's entry. */
  lemma StatementProcessed(s: State, periodId: nat, accountHeader: string, utrHeader: string, account: string, utr: string)
    requires EntryIdsDistinct(s.entries)
    requires TestHeaders(accountHeader, utrHeader) && MarkableValue(account) && MarkableValue(utr)
    requires EmployeeByAccount(s.employees, account).Some?
    requires EntryOf(s.entries, periodId, s.employees[EmployeeByAccount(s.employees, account).value].id).Some?
    ensures var (message, after) := UtrProcessed(s, [[accountHeader, utrHeader], ["'" + account, "'" + utr]], periodId);
      var k := EntryOf(s.entries, periodId, s.employees[EmployeeByAccount(s.employees, account).value].id).value;
      && message == "Import Complete: 1 Updated. "
      && k < |after.entries| && after.entries[k].utrNumber == Some(utr)
  {
    var rows := [[accountHeader, utrHeader], ["'" + account, "'" + utr]];
    var h := Header(0, 1, 1);
    HeaderRow(rows, accountHeader, utrHeader);
    assert rows[1..] == [rows[1]];
    UnmarkedMarked(account);
    UnmarkedMarked(utr);
    UtrRowEffect(s, rows[1], h, periodId);
    var (counted, after) := UtrRowApplied(s, rows[1], h, periodId);
    assert counted;
    OneRow(s, rows[1], h, periodId);
    OneUpdated();
  }

  /** A single data row. */
  lemma OneRow(s: State, row: seq<string>, h: Header, periodId: nat)
    ensures var (counted, after) := UtrRowApplied(s, row, h, periodId);
      UtrApplied(s, [row], h, periodId) == (if counted then 1 else 0, after)
  {
    assert [row][0] == row && [row][1..] == [];
    var applied := UtrRowApplied(s, row, h, periodId);
    assert UtrApplied(s, [row], h, periodId) == UtrTallied(if applied.0 then 1 else 0, applied.1, [], h, periodId);
  }

  /** The service's test, for any account and UTR: a text statement with an account header,
      the explicit UTR header and one data row whose marked account belongs to an employee with
      an entry in the period sets that entry's UTR to the unmarked UTR and reports one update. */
  lemma StatementUpdatesEntry(s: State, periodId: nat, scanners: TextTables.Scanners, doubleText: int -> string,
                              error: string, accountHeader: string, utrHeader: string, account: string, utr: string)
    requires EntryIdsDistinct(s.entries)
    requires PeriodById(s.periods, periodId).Some?
    requires TestHeaders(accountHeader, utrHeader) && MarkableValue(account) && MarkableValue(utr)
    requires EmployeeByAccount(s.employees, account).Some?
    requires EntryOf(s.entries, periodId, s.employees[EmployeeByAccount(s.employees, account).value].id).Some?
    ensures var upload := NotWorkbook(error, StatementText(accountHeader, utrHeader, account, utr));
      var (response, after) := UtrImported(s, periodId, upload, scanners, doubleText);
      var k := EntryOf(s.entries, periodId, s.employees[EmployeeByAccount(s.employees, account).value].id).value;
      && response == Success("Import Complete: 1 Updated. ")
      && k < |after.entries| && after.entries[k].utrNumber == Some(utr)
  {
    var rows := [[accountHeader, utrHeader], ["'" + account, "'" + utr]];
    var content := StatementText(accountHeader, utrHeader, account, utr);
    StatementRows(accountHeader, utrHeader, account, utr, scanners);
    TextUploadProcessed(s, periodId, scanners, doubleText, error, content, rows);
    StatementProcessed(s, periodId, accountHeader, utrHeader, account, utr);
  }
}
