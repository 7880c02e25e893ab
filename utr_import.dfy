/** The UTR import (`PayrollImportService.importUtrData` and `processUtrRows`): a bank statement,
    as a workbook or as a text table, is searched for its account and UTR header columns; every
    later row whose account belongs to an employee with an entry in the period writes the row's
    UTR (the bank's transfer reference) into that entry. */
module UtrImport {
  import opened Wrappers
  import opened Entities
  import Text
  import opened Store
  import opened Cells
  import TextTables

  // ---------------------------------------------------------------------------
  // Header keywords
  // ---------------------------------------------------------------------------

  /** A header naming the account column: "account" or "beneficiary", in any case. */
  function MentionsAccount(cell: string): (r: bool)
    ensures Text.Contains(cell, "account") ==> r
    ensures Text.Contains(cell, "beneficiary") ==> r
  {
    var val := Text.ToLower(cell);
    Text.LowerKeepsLowerPart(cell, "account");
    Text.LowerKeepsLowerPart(cell, "beneficiary");
    Text.Contains(val, "account") || Text.Contains(val, "beneficiary")
  }

  /** The explicit UTR header "utr number", in any case. */
  predicate NamesUtrNumber(cell: string) {
    Text.Contains(Text.ToLower(cell), "utr number")
  }

  /** A header that may name the UTR column: "utr", "ref" or "transaction", in any case. */
  predicate MentionsUtr(cell: string) {
    var val := Text.ToLower(cell);
    Text.Contains(val, "utr") || Text.Contains(val, "ref") || Text.Contains(val, "transaction")
  }

  /** "utr number" mentions "utr". */
  lemma ExplicitMentionsUtr(cell: string)
    requires NamesUtrNumber(cell)
    ensures MentionsUtr(cell)
  {
    var val := Text.ToLower(cell);
    var i := Text.ContainsWithin(val, "utr number");
    assert val[i..i + 3] == val[i..i + 10][..3];
    Text.ContainsAt(val, "utr", i);
  }

  /** The index of the last cell satisfying `p`. */
  function LastWhere(row: seq<string>, p: string -> bool): (r: Option<nat>)
    ensures r.Some? ==> r.value < |row| && p(row[r.value]) && forall k :: r.value < k < |row| ==> !p(row[k])
    ensures r.None? <==> forall k :: 0 <= k < |row| ==> !p(row[k])
  {
    if row == [] then None
    else if p(row[|row| - 1]) then Some(|row| - 1)
    else LastWhere(row[..|row| - 1], p)
  }

  function OrElse(first: Option<nat>, second: Option<nat>): Option<nat> {
    if first.Some? then first else second
  }

  /** The three header tests of the scan. */
  datatype Keywords = Keywords(account: string -> bool, explicitUtr: string -> bool, utr: string -> bool)

  /** The tests the code applies to each lowercased header cell. */
  const HEADER: Keywords := Keywords(MentionsAccount, NamesUtrNumber, MentionsUtr)

  /** Every explicit UTR header is also a weaker one. */
  ghost predicate Nested(kw: Keywords) {
    forall cell :: kw.explicitUtr(cell) ==> kw.utr(cell)
  }

  lemma HeaderNested()
    ensures Nested(HEADER)
  {
    forall cell | HEADER.explicitUtr(cell) ensures HEADER.utr(cell) {
      ExplicitMentionsUtr(cell);
    }
  }

  // ---------------------------------------------------------------------------
  // The header scan
  // ---------------------------------------------------------------------------

  /** The scan's variables: the account and UTR columns found so far (-1 in the code is `None`),
      and whether this row has shown the explicit UTR header. */
  datatype HeaderScan = HeaderScan(acct: Option<nat>, utr: Option<nat>, explicitUtr: bool)

  /** Cell `j` of a row: an account header takes the account column; "utr number" takes the
      UTR column and locks it for the row; a weaker UTR keyword takes it unless locked. */
  function CellScanned(kw: Keywords, st: HeaderScan, j: nat, cell: string): HeaderScan {
    var acct := if kw.account(cell) then Some(j) else st.acct;
    if kw.explicitUtr(cell) then HeaderScan(acct, Some(j), true)
    else if !st.explicitUtr && kw.utr(cell) then HeaderScan(acct, Some(j), false)
    else HeaderScan(acct, st.utr, st.explicitUtr)
  }

  /** The cells of one row scanned left to right. */
  function RowScanned(kw: Keywords, st: HeaderScan, row: seq<string>): HeaderScan {
    if row == [] then st
    else CellScanned(kw, RowScanned(kw, st, row[..|row| - 1]), |row| - 1, row[|row| - 1])
  }

  /** Within a row, the account column is the last account header, and the UTR column is the
      last "utr number" header or, when the row has none, the last weaker UTR keyword; columns
      the row does not name are kept from the rows before. */
  lemma {:induction false} RowScanPicks(kw: Keywords, acct: Option<nat>, utr: Option<nat>, row: seq<string>)
    ensures var r := RowScanned(kw, HeaderScan(acct, utr, false), row);
      && r.acct == OrElse(LastWhere(row, kw.account), acct)
      && r.explicitUtr == LastWhere(row, kw.explicitUtr).Some?
      && r.utr == OrElse(LastWhere(row, kw.explicitUtr), OrElse(LastWhere(row, kw.utr), utr))
  {
    if row != [] {
      var n := |row| - 1;
      RowScanPicks(kw, acct, utr, row[..n]);
    }
  }

  /** Where the data starts, and the two columns. */
  datatype Header = Header(acct: nat, utr: nat, start: nat)

  /** The rows from `i` on, scanned until both columns are known; the data starts at the row
      after the one that completed them. */
  function FindHeader(kw: Keywords, rows: seq<seq<string>>, i: nat, acct: Option<nat>, utr: Option<nat>): (r: Option<Header>)
    requires i <= |rows|
    ensures r.Some? ==> i < r.value.start <= |rows|
    decreases |rows| - i
  {
    if i == |rows| then None
    else
      var st := RowScanned(kw, HeaderScan(acct, utr, false), rows[i]);
      if st.acct.Some? && st.utr.Some? then Some(Header(st.acct.value, st.utr.value, i + 1))
      else FindHeader(kw, rows, i + 1, st.acct, st.utr)
  }

  /** Some cell of the first `n` rows satisfies `p`. */
  predicate Seen(rows: seq<seq<string>>, n: nat, p: string -> bool)
    requires n <= |rows|
  {
    exists r, j :: 0 <= r < n && 0 <= j < |rows[r]| && p(rows[r][j])
  }

  /** Column `c` of some of the first `n` rows satisfies `p`. */
  predicate NamedBefore(rows: seq<seq<string>>, n: nat, c: nat, p: string -> bool)
    requires n <= |rows|
  {
    exists r :: 0 <= r < n && c < |rows[r]| && p(rows[r][c])
  }

  /** What the scan knows after the first `i` rows: a column is known exactly when a header for
      it has been seen, and it is the column of such a header. */
  predicate ScanKnows(kw: Keywords, rows: seq<seq<string>>, i: nat, acct: Option<nat>, utr: Option<nat>)
    requires i <= |rows|
  {
    && (acct.Some? <==> Seen(rows, i, kw.account))
    && (utr.Some? <==> Seen(rows, i, kw.utr))
    && (acct.Some? ==> NamedBefore(rows, i, acct.value, kw.account))
    && (utr.Some? ==> NamedBefore(rows, i, utr.value, kw.utr))
  }

  /** One more row: seen in it, or seen before. */
  lemma SeenStep(rows: seq<seq<string>>, i: nat, p: string -> bool)
    requires i < |rows|
    ensures Seen(rows, i + 1, p) <==> Seen(rows, i, p) || LastWhere(rows[i], p).Some?
  {
    if LastWhere(rows[i], p).Some? {
      var j := LastWhere(rows[i], p).value;
      assert p(rows[i][j]);
    }
    if Seen(rows, i + 1, p) && !Seen(rows, i, p) {
      var r, j :| 0 <= r < i + 1 && 0 <= j < |rows[r]| && p(rows[r][j]);
      assert r == i;
    }
  }

  /** A column named in row `i` is named before row `i + 1`. */
  lemma NamedIn(rows: seq<seq<string>>, i: nat, j: nat, p: string -> bool)
    requires i < |rows| && j < |rows[i]| && p(rows[i][j])
    ensures NamedBefore(rows, i + 1, j, p)
  {
  }

  /** Scanning row `i` keeps `ScanKnows`. */
  lemma RowKeepsKnowledge(kw: Keywords, rows: seq<seq<string>>, i: nat, acct: Option<nat>, utr: Option<nat>)
    requires Nested(kw) && i < |rows| && ScanKnows(kw, rows, i, acct, utr)
    ensures var st := RowScanned(kw, HeaderScan(acct, utr, false), rows[i]);
      ScanKnows(kw, rows, i + 1, st.acct, st.utr)
  {
    var row := rows[i];
    RowScanPicks(kw, acct, utr, row);
    SeenStep(rows, i, kw.account);
    SeenStep(rows, i, kw.utr);
    var explicit := LastWhere(row, kw.explicitUtr);
    var weak := LastWhere(row, kw.utr);
    var account := LastWhere(row, kw.account);
    if explicit.Some? {
      assert kw.utr(row[explicit.value]);
      NamedIn(rows, i, explicit.value, kw.utr);
    } else if weak.Some? {
      NamedIn(rows, i, weak.value, kw.utr);
    }
    if account.Some? {
      NamedIn(rows, i, account.value, kw.account);
    }
  }

  /** What the scan from row `i` finds. */
  predicate FoundFrom(kw: Keywords, rows: seq<seq<string>>, i: nat, found: Option<Header>)
    requires i <= |rows|
  {
    && (found.None? <==> !(Seen(rows, |rows|, kw.account) && Seen(rows, |rows|, kw.utr)))
    && (found.Some? ==>
          var h := found.value;
          && i < h.start <= |rows|
          && Seen(rows, h.start, kw.account) && Seen(rows, h.start, kw.utr)
          && !(Seen(rows, h.start - 1, kw.account) && Seen(rows, h.start - 1, kw.utr))
          && NamedBefore(rows, h.start, h.acct, kw.account)
          && NamedBefore(rows, h.start, h.utr, kw.utr))
  }

  /** Seeing is monotone in the number of rows. */
  lemma SeenGrows(rows: seq<seq<string>>, m: nat, n: nat, p: string -> bool)
    requires m <= n <= |rows| && Seen(rows, m, p)
    ensures Seen(rows, n, p)
  {
  }

  lemma {:induction false} FindHeaderFrom(kw: Keywords, rows: seq<seq<string>>, i: nat, acct: Option<nat>, utr: Option<nat>)
    requires Nested(kw) && i <= |rows| && ScanKnows(kw, rows, i, acct, utr) && !(acct.Some? && utr.Some?)
    ensures FoundFrom(kw, rows, i, FindHeader(kw, rows, i, acct, utr))
    decreases |rows| - i
  {
    if i < |rows| {
      var st := RowScanned(kw, HeaderScan(acct, utr, false), rows[i]);
      RowKeepsKnowledge(kw, rows, i, acct, utr);
      if st.acct.Some? && st.utr.Some? {
        FoundAt(kw, rows, i, acct, utr, st.acct.value, st.utr.value);
      } else {
        assert FindHeader(kw, rows, i, acct, utr) == FindHeader(kw, rows, i + 1, st.acct, st.utr);
        FindHeaderFrom(kw, rows, i + 1, st.acct, st.utr);
        FoundFromEarlier(kw, rows, i, FindHeader(kw, rows, i + 1, st.acct, st.utr));
      }
    }
  }

  /** What the scan finds from the next row, it finds from this one. */
  lemma FoundFromEarlier(kw: Keywords, rows: seq<seq<string>>, i: nat, found: Option<Header>)
    requires i < |rows| && FoundFrom(kw, rows, i + 1, found)
    ensures FoundFrom(kw, rows, i, found)
  {
  }

  /** The row that completes both columns ends the scan. */
  lemma FoundAt(kw: Keywords, rows: seq<seq<string>>, i: nat, acct: Option<nat>, utr: Option<nat>, a: nat, u: nat)
    requires i < |rows| && ScanKnows(kw, rows, i, acct, utr) && !(acct.Some? && utr.Some?)
    requires ScanKnows(kw, rows, i + 1, Some(a), Some(u))
    ensures FoundFrom(kw, rows, i, Some(Header(a, u, i + 1)))
  {
    SeenGrows(rows, i + 1, |rows|, kw.account);
    SeenGrows(rows, i + 1, |rows|, kw.utr);
  }

  /** The header scan from the first row: it fails exactly when the rows never name an account
      column or never name a UTR column; otherwise the data starts right after the first row by
      which both have been named, and each column found is one a header named. Within that last
      row, "utr number" and the last account header take precedence. */
  lemma HeaderScanMeaning(rows: seq<seq<string>>)
    ensures FoundFrom(HEADER, rows, 0, FindHeader(HEADER, rows, 0, None, None))
    ensures var found := FindHeader(HEADER, rows, 0, None, None);
      found.Some? ==>
        var last := rows[found.value.start - 1];
        && (LastWhere(last, NamesUtrNumber).Some? ==> found.value.utr == LastWhere(last, NamesUtrNumber).value)
        && (LastWhere(last, MentionsAccount).Some? ==> found.value.acct == LastWhere(last, MentionsAccount).value)
  {
    HeaderNested();
    FindHeaderFrom(HEADER, rows, 0, None, None);
    FoundRowPicks(HEADER, rows, 0, None, None);
  }

  lemma {:induction false} FoundRowPicks(kw: Keywords, rows: seq<seq<string>>, i: nat, acct: Option<nat>, utr: Option<nat>)
    requires Nested(kw) && i <= |rows|
    ensures var found := FindHeader(kw, rows, i, acct, utr);
      found.Some? ==>
        var last := rows[found.value.start - 1];
        && (LastWhere(last, kw.explicitUtr).Some? ==> found.value.utr == LastWhere(last, kw.explicitUtr).value)
        && (LastWhere(last, kw.account).Some? ==> found.value.acct == LastWhere(last, kw.account).value)
    decreases |rows| - i
  {
    if i < |rows| {
      var st := RowScanned(kw, HeaderScan(acct, utr, false), rows[i]);
      RowScanPicks(kw, acct, utr, rows[i]);
      if !(st.acct.Some? && st.utr.Some?) {
        FoundRowPicks(kw, rows, i + 1, st.acct, st.utr);
      }
    }
  }

  // ---------------------------------------------------------------------------
  // The data rows
  // ---------------------------------------------------------------------------

  /** A cell as the code reads an account or a UTR: trimmed, without one leading "'" (Excel's
      text marker). */
  function Unmarked(cell: string): (r: string)
    ensures var t := Text.Trim(cell);
      && |t| - 1 <= |r| <= |t| && r == t[|t| - |r|..]
      && (|r| < |t| <==> t != [] && t[0] == '\'')
    ensures r == [] || !Text.IsTrimmed(r[|r| - 1])
  {
    var t := Text.Trim(cell);
    if t != [] && t[0] == '\'' then t[1..] else t
  }

  /** `findByBankAccountNo`: the employee holding the account number. */
  function EmployeeByAccount(employees: seq<Employee>, account: string): Option<nat> {
    FirstIndex(employees, (e: Employee) => e.bankAccountNo == Some(account))
  }

  /** One data row: a row too short for either column, an empty account, an account no employee
      holds, or an employee without an entry in the period is passed over; otherwise the entry's
      UTR is set and saved, and the row counts. */
  function UtrRowApplied(s: State, row: seq<string>, h: Header, periodId: nat): (r: (bool, State))
    ensures r.1.employees == s.employees && r.1.periods == s.periods && r.1.nextId == s.nextId
    ensures !r.0 ==> r.1 == s
    ensures r.0 ==>
      && h.acct < |row| && h.utr < |row| && Unmarked(row[h.acct]) != ""
      && EmployeeByAccount(s.employees, Unmarked(row[h.acct])).Some?
  {
    if |row| <= h.acct || |row| <= h.utr then (false, s)
    else
      var account := Unmarked(row[h.acct]);
      var utr := Unmarked(row[h.utr]);
      if account == "" then (false, s)
      else
        var k := EmployeeByAccount(s.employees, account);
        if k.None? then (false, s)
        else
          var e := EntryOf(s.entries, periodId, s.employees[k.value].id);
          if e.None? then (false, s)
          else (true, s.(entries := SaveEntry(s.entries, s.entries[e.value].(utrNumber := Some(utr)))))
  }

  /** The data rows in order, with the number of entries updated. */
  function UtrApplied(s: State, rows: seq<seq<string>>, h: Header, periodId: nat): (nat, State) {
    UtrTallied(0, s, rows, h, periodId)
  }

  /** The rows in order, counted on from `count`. */
  function UtrTallied(count: nat, s: State, rows: seq<seq<string>>, h: Header, periodId: nat): (r: (nat, State))
    ensures count <= r.0 <= count + |rows|
    ensures r.1.employees == s.employees && r.1.periods == s.periods && r.1.nextId == s.nextId
    ensures rows != [] && UtrRowApplied(s, rows[0], h, periodId).0 ==> r.0 > count
    decreases |rows|
  {
    if rows == [] then (count, s)
    else
      var applied := UtrRowApplied(s, rows[0], h, periodId);
      UtrTallied(if applied.0 then count + 1 else count, applied.1, rows[1..], h, periodId)
  }

  /** The entries differ at most in their UTR numbers. */
  predicate SameButUtr(before: seq<Entry>, after: seq<Entry>) {
    |after| == |before| && forall i :: 0 <= i < |before| ==> after[i] == before[i].(utrNumber := after[i].utrNumber)
  }

  /** A data row counts exactly when its account, trimmed and unmarked, belongs to an employee
      with an entry in the period; that entry then holds the row's UTR, trimmed and unmarked,
      and nothing else changes: no other field of any entry, no employee, no period. */
  lemma UtrRowEffect(s: State, row: seq<string>, h: Header, periodId: nat)
    requires EntryIdsDistinct(s.entries)
    ensures var (counted, after) := UtrRowApplied(s, row, h, periodId);
      && after.employees == s.employees && after.periods == s.periods && after.nextId == s.nextId
      && SameButUtr(s.entries, after.entries)
      && EntryIdsDistinct(after.entries)
      && (counted <==>
            && h.acct < |row| && h.utr < |row| && Unmarked(row[h.acct]) != ""
            && EmployeeByAccount(s.employees, Unmarked(row[h.acct])).Some?
            && EntryOf(s.entries, periodId, s.employees[EmployeeByAccount(s.employees, Unmarked(row[h.acct])).value].id).Some?)
      && (counted ==>
            var employee := s.employees[EmployeeByAccount(s.employees, Unmarked(row[h.acct])).value];
            var k := EntryOf(s.entries, periodId, employee.id).value;
            after.entries[k].utrNumber == Some(Unmarked(row[h.utr])))
      && (!counted ==> after == s)
  {
    var (counted, after) := UtrRowApplied(s, row, h, periodId);
    if counted {
      var employee := s.employees[EmployeeByAccount(s.employees, Unmarked(row[h.acct])).value];
      var k := EntryOf(s.entries, periodId, employee.id).value;
      var saved := s.entries[k].(utrNumber := Some(Unmarked(row[h.utr])));
      assert EntryById(s.entries, saved.id) == Some(k) by {
        FirstIndexAt(s.entries, (x: Entry) => x.id == saved.id, k);
      }
      assert after.entries == s.entries[k := saved];
    }
  }

  /** Entries that differ only in UTR numbers, compared again after another such change. */
  lemma SameButUtrTransitive(a: seq<Entry>, b: seq<Entry>, c: seq<Entry>)
    requires SameButUtr(a, b) && SameButUtr(b, c)
    ensures SameButUtr(a, c)
  {
  }

  /** The data pass counts at most one update per row, changes nothing but UTR numbers, and
      keeps entry ids distinct. */
  lemma {:induction false} UtrTalliedKeeps(count: nat, s: State, rows: seq<seq<string>>, h: Header, periodId: nat)
    requires EntryIdsDistinct(s.entries)
    ensures var (total, after) := UtrTallied(count, s, rows, h, periodId);
      && count <= total <= count + |rows|
      && after.employees == s.employees && after.periods == s.periods && after.nextId == s.nextId
      && SameButUtr(s.entries, after.entries)
      && EntryIdsDistinct(after.entries)
    decreases |rows|
  {
    if rows != [] {
      var applied := UtrRowApplied(s, rows[0], h, periodId);
      var next := if applied.0 then count + 1 else count;
      UtrRowEffect(s, rows[0], h, periodId);
      UtrTalliedKeeps(next, applied.1, rows[1..], h, periodId);
      SameButUtrTransitive(s.entries, applied.1.entries, UtrTallied(next, applied.1, rows[1..], h, periodId).1.entries);
    }
  }

  const COLUMNS_NOT_FOUND: string := "Failed: " + "Could not identify 'Account' or 'UTR' columns."

  /** "Import Complete: n Updated. " (the error list is always empty here). */
  function Completed(count: nat): string {
    "Import Complete: " + Text.IntToString(count) + " Updated. "
  }

  /** `processUtrRows`: the header scan, then the rows after the header. */
  function UtrProcessed(s: State, rows: seq<seq<string>>, periodId: nat): (r: (string, State))
    ensures r.1.employees == s.employees && r.1.periods == s.periods && r.1.nextId == s.nextId
    ensures r.0 == COLUMNS_NOT_FOUND || Text.StartsWith(r.0, "Import Complete: ")
    ensures r.0 == COLUMNS_NOT_FOUND ==> r.1 == s
  {
    var found := FindHeader(HEADER, rows, 0, None, None);
    if found.None? then (COLUMNS_NOT_FOUND, s)
    else
      var (count, after) := UtrApplied(s, rows[found.value.start..], found.value, periodId);
      assert Completed(count)[..17] == "Import Complete: ";
      assert COLUMNS_NOT_FOUND[0] == 'F';
      (Completed(count), after)
  }

  /** Without an account header and a UTR header, the statement changes nothing. */
  lemma NoHeaderNoChange(s: State, rows: seq<seq<string>>, periodId: nat)
    requires !(Seen(rows, |rows|, MentionsAccount) && Seen(rows, |rows|, MentionsUtr))
    ensures UtrProcessed(s, rows, periodId) == (COLUMNS_NOT_FOUND, s)
  {
    HeaderScanMeaning(rows);
  }

  // ---------------------------------------------------------------------------
  // Reading the statement
  // ---------------------------------------------------------------------------

  /** `getAnyCellValue`: text as is, a number as Java prints a `double` (`doubleText`, e.g.
      "123456.0"), a boolean spelled out; a blank cell, a formula and an error cell give "". */
  function AnyCellValue(c: Option<Cell>, doubleText: int -> string): (r: string)
    ensures c.Some? && c.value.StringCell? ==> r == c.value.text
    ensures c.Some? && c.value.NumericCell? ==> r == doubleText(c.value.paise)
    ensures c.Some? && c.value.BooleanCell? ==> r == BooleanText(c.value.flag)
    ensures c.None? || c == Some(BlankCell) || c == Some(ErrorCell) || (c.Some? && c.value.FormulaCell?) ==> r == ""
  {
    if c.None? then ""
    else match c.value
      case StringCell(text) => text
      case NumericCell(paise) => doubleText(paise)
      case BooleanCell(flag) => BooleanText(flag)
      case _ => ""
  }

  /** The cells of a workbook row up to its last cell, as text. */
  function RowValues(row: SheetRow, doubleText: int -> string): (r: seq<string>)
    ensures |r| == |row.cells|
    ensures forall k :: 0 <= k < |r| ==> r[k] == AnyCellValue(row.cells[k], doubleText)
  {
    CellValues(row.cells, doubleText)
  }

  function CellValues(cells: seq<Option<Cell>>, doubleText: int -> string): (r: seq<string>)
    ensures |r| == |cells|
    ensures forall k :: 0 <= k < |r| ==> r[k] == AnyCellValue(cells[k], doubleText)
  {
    if cells == [] then []
    else CellValues(cells[..|cells| - 1], doubleText) + [AnyCellValue(cells[|cells| - 1], doubleText)]
  }

  /** Every row of the first sheet, as text. */
  function SheetValues(sheet: seq<SheetRow>, doubleText: int -> string): (r: seq<seq<string>>)
    ensures |r| == |sheet|
    ensures forall i :: 0 <= i < |r| ==> r[i] == RowValues(sheet[i], doubleText)
  {
    if sheet == [] then []
    else SheetValues(sheet[..|sheet| - 1], doubleText) + [RowValues(sheet[|sheet| - 1], doubleText)]
  }

  /** The uploaded file: a workbook the library opens (its first sheet), or anything else, with
      the library's error message and the file's bytes read as text. */
  datatype UtrUpload = Workbook(sheet: seq<SheetRow>) | NotWorkbook(error: string, content: string)

  const PERIOD_NOT_FOUND: string := "Period not found"
  const IMPORT_FAILED: string := "Import Failed: "
  const NOT_A_TABLE: string := "Could not parse file. It does not appear to be a valid Excel, HTML Table, XML Spreadsheet, or CSV file. Original Error: "

  /** The message of the exception a failed text reading throws: `substring(1, 0)` of a
      one-character string. */
  function ReadFailureText(failure: TextTables.ReadFailure): string {
    "begin 1, end 0, length 1"
  }

  /** The data pass's messages are not the messages of a failed reading. */
  lemma ProcessedNotFailed(message: string)
    requires message == COLUMNS_NOT_FOUND || Text.StartsWith(message, "Import Complete: ")
    ensures !Text.StartsWith(message, IMPORT_FAILED)
  {
    if message == COLUMNS_NOT_FOUND {
      assert COLUMNS_NOT_FOUND[0] == 'F' && IMPORT_FAILED[0] == 'I';
    } else {
      assert message[..17] == "Import Complete: ";
      assert message[7] != IMPORT_FAILED[7];
    }
  }

  /** `importUtrData`: an unknown period fails the request. A workbook's rows are processed. Any
      other file is read as a text table; an empty reading or a reading that throws ends the
      import with a message and changes nothing. */
  function UtrImported(s: State, periodId: nat, upload: UtrUpload, scanners: TextTables.Scanners,
                       doubleText: int -> string): (r: (Result<string, string>, State))
    ensures PeriodById(s.periods, periodId).None? <==> r.0 == Failure(PERIOD_NOT_FOUND)
    ensures r.0.Failure? ==> r.1 == s
    ensures r.1.employees == s.employees && r.1.periods == s.periods && r.1.nextId == s.nextId
    ensures r.0.Success? && Text.StartsWith(r.0.value, IMPORT_FAILED) ==> r.1 == s
  {
    if PeriodById(s.periods, periodId).None? then (Failure(PERIOD_NOT_FOUND), s)
    else match upload
      case Workbook(sheet) =>
        var (message, after) := UtrProcessed(s, SheetValues(sheet, doubleText), periodId);
        ProcessedNotFailed(message);
        (Success(message), after)
      case NotWorkbook(error, content) =>
        var parsed := TextTables.NonStandardTable(content, scanners);
        if parsed.Failure? then (Success(IMPORT_FAILED + ReadFailureText(parsed.error)), s)
        else if parsed.value == [] then (Success(IMPORT_FAILED + NOT_A_TABLE + error), s)
        else
          var (message, after) := UtrProcessed(s, parsed.value, periodId);
          ProcessedNotFailed(message);
          (Success(message), after)
  }

  /** The import changes nothing but UTR numbers of existing entries, whatever the file. */
  lemma UtrImportKeeps(s: State, periodId: nat, upload: UtrUpload, scanners: TextTables.Scanners, doubleText: int -> string)
    requires EntryIdsDistinct(s.entries)
    ensures var after := UtrImported(s, periodId, upload, scanners, doubleText).1;
      && after.employees == s.employees && after.periods == s.periods && after.nextId == s.nextId
      && SameButUtr(s.entries, after.entries) && EntryIdsDistinct(after.entries)
  {
    var rows := if upload.Workbook? then SheetValues(upload.sheet, doubleText) else
      var parsed := TextTables.NonStandardTable(upload.content, scanners);
      if parsed.Success? then parsed.value else [];
    var found := FindHeader(HEADER, rows, 0, None, None);
    if found.Some? {
      UtrTalliedKeeps(0, s, rows[found.value.start..], found.value, periodId);
    }
  }

  // ---------------------------------------------------------------------------
  // The import, step by step
  // ---------------------------------------------------------------------------

  /** The inner loop of the header scan over the cells of one row. */
  method ScanRow(kw: Keywords, row: seq<string>, acct: Option<nat>, utr: Option<nat>) returns (st: HeaderScan)
    ensures st == RowScanned(kw, HeaderScan(acct, utr, false), row)
  {
    var acctColIdx, utrColIdx, foundExplicitUtr := acct, utr, false;
    var j := 0;
    while j < |row|
      invariant 0 <= j <= |row|
      invariant HeaderScan(acctColIdx, utrColIdx, foundExplicitUtr) == RowScanned(kw, HeaderScan(acct, utr, false), row[..j])
    {
      assert row[..j + 1][..j] == row[..j];
      var val := row[j];
      if kw.account(val) {
        acctColIdx := Some(j);
      }
      if kw.explicitUtr(val) {
        utrColIdx := Some(j);
        foundExplicitUtr := true;
      } else if !foundExplicitUtr && kw.utr(val) {
        utrColIdx := Some(j);
      }
      j := j + 1;
    }
    assert row[..j] == row;
    st := HeaderScan(acctColIdx, utrColIdx, foundExplicitUtr);
  }

  /** The outer loop of the header scan, which stops at the row that completes both columns. */
  method ScanHeader(kw: Keywords, rows: seq<seq<string>>) returns (found: Option<Header>)
    ensures found == FindHeader(kw, rows, 0, None, None)
  {
    var acctColIdx: Option<nat>, utrColIdx: Option<nat> := None, None;
    var i := 0;
    while i < |rows|
      invariant 0 <= i <= |rows|
      invariant FindHeader(kw, rows, 0, None, None) == FindHeader(kw, rows, i, acctColIdx, utrColIdx)
    {
      var st := ScanRow(kw, rows[i], acctColIdx, utrColIdx);
      acctColIdx, utrColIdx := st.acct, st.utr;
      if acctColIdx.Some? && utrColIdx.Some? {
        return Some(Header(acctColIdx.value, utrColIdx.value, i + 1));
      }
      i := i + 1;
    }
    found := None;
  }

  /** One data row of `processUtrRows`. */
  method ApplyUtrRow(store: Repositories, row: seq<string>, h: Header, periodId: nat) returns (counted: bool)
    modifies store
    ensures (counted, store.Snapshot()) == UtrRowApplied(old(store.Snapshot()), row, h, periodId)
  {
    var widest := if h.acct < h.utr then h.utr else h.acct;
    if |row| <= widest {
      return false;
    }
    var acctNo := Unmarked(row[h.acct]);
    var utrNo := Unmarked(row[h.utr]);
    if acctNo == "" {
      return false;
    }
    var employee := EmployeeByAccount(store.employees, acctNo);
    if employee.None? {
      return false;
    }
    var entry := EntryOf(store.entries, periodId, store.employees[employee.value].id);
    counted := entry.Some?;
    if counted {
      store.StoreEntry(store.entries[entry.value].(utrNumber := Some(utrNo)));
    }
  }

  /** Row `i` taken off the rows still to do. */
  lemma UtrTalliedNext(count: nat, before: State, rows: seq<seq<string>>, i: nat, h: Header, periodId: nat,
                       counted: bool, after: State)
    requires i < |rows|
    requires (counted, after) == UtrRowApplied(before, rows[i], h, periodId)
    ensures UtrTallied(count, before, rows[i..], h, periodId)
      == UtrTallied(if counted then count + 1 else count, after, rows[i + 1..], h, periodId)
  {
    assert rows[i..][0] == rows[i] && rows[i..][1..] == rows[i + 1..];
  }

  /** The data loop of `processUtrRows`, from the row after the header to the end. */
  method ApplyUtrRows(store: Repositories, rows: seq<seq<string>>, h: Header, periodId: nat) returns (successCount: nat)
    requires h.start <= |rows|
    modifies store
    ensures (successCount, store.Snapshot()) == UtrApplied(old(store.Snapshot()), rows[h.start..], h, periodId)
  {
    ghost var goal := UtrApplied(store.Snapshot(), rows[h.start..], h, periodId);
    successCount := 0;
    var i := h.start;
    while i < |rows|
      invariant h.start <= i <= |rows|
      invariant goal == UtrTallied(successCount, store.Snapshot(), rows[i..], h, periodId)
    {
      ghost var before := store.Snapshot();
      var counted := ApplyUtrRow(store, rows[i], h, periodId);
      UtrTalliedNext(successCount, before, rows, i, h, periodId, counted, store.Snapshot());
      successCount := if counted then successCount + 1 else successCount;
      i := i + 1;
    }
    assert rows[i..] == [];
  }

  /** `processUtrRows`. */
  method ProcessUtrRows(store: Repositories, rows: seq<seq<string>>, periodId: nat) returns (message: string)
    modifies store
    ensures (message, store.Snapshot()) == UtrProcessed(old(store.Snapshot()), rows, periodId)
  {
    var found := ScanHeader(HEADER, rows);
    if found.None? {
      return COLUMNS_NOT_FOUND;
    }
    var successCount := ApplyUtrRows(store, rows, found.value, periodId);
    message := Completed(successCount);
  }

  /** The cells of one workbook row, up to its last cell, as text. */
  method ReadRow(row: SheetRow, doubleText: int -> string) returns (rowData: seq<string>)
    ensures rowData == RowValues(row, doubleText)
  {
    rowData := [];
    var cn := 0;
    while cn < |row.cells|
      invariant 0 <= cn <= |row.cells|
      invariant rowData == CellValues(row.cells[..cn], doubleText)
    {
      assert row.cells[..cn + 1][..cn] == row.cells[..cn];
      rowData := rowData + [AnyCellValue(row.cells[cn], doubleText)];
      cn := cn + 1;
    }
    assert row.cells[..cn] == row.cells;
  }

  /** The rows of the workbook's first sheet, as text. */
  method ReadSheet(sheet: seq<SheetRow>, doubleText: int -> string) returns (rows: seq<seq<string>>)
    ensures rows == SheetValues(sheet, doubleText)
  {
    rows := [];
    var i := 0;
    while i < |sheet|
      invariant 0 <= i <= |sheet|
      invariant rows == SheetValues(sheet[..i], doubleText)
    {
      assert sheet[..i + 1][..i] == sheet[..i];
      var rowData := ReadRow(sheet[i], doubleText);
      rows := rows + [rowData];
      i := i + 1;
    }
    assert sheet[..i] == sheet;
  }

  /** `importUtrData`. */
  method ImportUtrData(store: Repositories, periodId: nat, upload: UtrUpload, scanners: TextTables.Scanners,
                       doubleText: int -> string) returns (response: Result<string, string>)
    modifies store
    ensures (response, store.Snapshot()) == UtrImported(old(store.Snapshot()), periodId, upload, scanners, doubleText)
  {
    if PeriodById(store.periods, periodId).None? {
      return Failure(PERIOD_NOT_FOUND);
    }
    var rows: seq<seq<string>>;
    match upload {
      case Workbook(sheet) =>
        rows := ReadSheet(sheet, doubleText);
      case NotWorkbook(error, content) =>
        var parsed := TextTables.ParseNonStandardExcel(content, scanners);
        if parsed.Failure? {
          return Success(IMPORT_FAILED + ReadFailureText(parsed.error));
        }
        if parsed.value == [] {
          return Success(IMPORT_FAILED + NOT_A_TABLE + error);
        }
        rows := parsed.value;
    }
    var message := ProcessUtrRows(store, rows, periodId);
    response := Success(message);
  }
}
