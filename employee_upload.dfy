/** The employee master's API (`EmployeeController`): the listing ordered by member id, the bulk
    upload from a spreadsheet (header keywords, upsert by member id, identifier conflict checks
    against the stored employees, category defaulting, one `saveAll` at the end) and the answer
    given when a unique constraint is broken. A `Failure` is the exception that ends the request,
    carrying its message. */
module EmployeeUpload {
  import opened Wrappers
  import opened Entities
  import Text
  import opened Store
  import opened Cells
  import MemberOrder
  import PayrollRecords

  // ---------------------------------------------------------------------------
  // Listing
  // ---------------------------------------------------------------------------

  function MemberIdOfEmployee(e: Employee): string {
    e.memberId
  }

  /** `getAllEmployees`: every stored employee, ordered by member id; the sort is stable. */
  function EmployeesListed(employees: seq<Employee>): (r: seq<Employee>)
    ensures multiset(r) == multiset(employees) && |r| == |employees|
  {
    MemberOrder.SortBy(employees, MemberIdOfEmployee, MemberOrder.ByMemberId)
  }

  /** With member ids that are all numbers, or none of which is, the listing is in order. */
  lemma EmployeesListedSorted(employees: seq<Employee>)
    requires MemberOrder.Uniform(employees, MemberIdOfEmployee, MemberOrder.ByMemberId)
    ensures MemberOrder.Sorted(EmployeesListed(employees), MemberIdOfEmployee, MemberOrder.ByMemberId)
  {
    MemberOrder.SortBySorted(employees, MemberIdOfEmployee, MemberOrder.ByMemberId);
  }

  // ---------------------------------------------------------------------------
  // A broken unique constraint
  // ---------------------------------------------------------------------------

  /** The four unique columns, in the order the handler tests their constraint names. */
  datatype Constraint = MemberIdColumn | UanColumn | IpColumn | BankAccountColumn

  const CONSTRAINT_CHECKS: seq<Constraint> := [MemberIdColumn, UanColumn, IpColumn, BankAccountColumn]

  const DUPLICATE_ENTRY: string := "Duplicate entry detected."
  const VALUE_USED: string := " (Value already used)"

  function ConstraintName(c: Constraint): string {
    match c
    case MemberIdColumn => "MEMBER_ID"
    case UanColumn => "UAN_NUMBER"
    case IpColumn => "IP_NUMBER"
    case BankAccountColumn => "BANK_ACCOUNT_NO"
  }

  function TakenText(c: Constraint): string {
    match c
    case MemberIdColumn => "Member ID already exists."
    case UanColumn => "UAN Number already exists."
    case IpColumn => "IP Number already exists."
    case BankAccountColumn => "Bank Account Number already exists."
  }

  predicate Mentions(dbMessage: string, c: Constraint) {
    Text.Contains(dbMessage, ConstraintName(c))
  }

  /** The message after each test in `checks`: a test that fires replaces it with its text. */
  function Reworded(message: string, fired: Constraint -> bool, checks: seq<Constraint>): string
    decreases |checks|
  {
    if checks == [] then message
    else Reworded(if fired(checks[0]) then TakenText(checks[0]) else message, fired, checks[1..])
  }

  /** The last test of `checks` that fires. */
  function LastFired(fired: Constraint -> bool, checks: seq<Constraint>): Option<Constraint> {
    if checks == [] then None
    else if fired(checks[|checks| - 1]) then Some(checks[|checks| - 1])
    else LastFired(fired, checks[..|checks| - 1])
  }

  /** What "the last one that fires" means, position by position. */
  lemma {:induction false} LastFiredMeaning(fired: Constraint -> bool, checks: seq<Constraint>)
    ensures LastFired(fired, checks).Some? ==>
              exists k :: 0 <= k < |checks| && checks[k] == LastFired(fired, checks).value && fired(checks[k])
                          && forall j :: k < j < |checks| ==> !fired(checks[j])
    ensures LastFired(fired, checks).None? <==> forall k :: 0 <= k < |checks| ==> !fired(checks[k])
  {
    if checks != [] {
      var n := |checks| - 1;
      if !fired(checks[n]) {
        var front := checks[..n];
        LastFiredMeaning(fired, front);
        assert forall k :: 0 <= k < n ==> front[k] == checks[k];
        if LastFired(fired, front).Some? {
          var k :| 0 <= k < |front| && front[k] == LastFired(fired, front).value
                   && fired(front[k]) && forall j :: k < j < |front| ==> !fired(front[j]);
          assert checks[k] == front[k];
        }
      }
    }
  }

  /** Running the tests front to back leaves the text of the last one that fired. */
  lemma {:induction false} RewordedByLast(message: string, fired: Constraint -> bool, checks: seq<Constraint>)
    ensures Reworded(message, fired, checks)
         == (if LastFired(fired, checks).Some? then TakenText(LastFired(fired, checks).value) else message)
    decreases |checks|
  {
    if checks != [] {
      var next := if fired(checks[0]) then TakenText(checks[0]) else message;
      var rest := checks[1..];
      RewordedByLast(next, fired, rest);
      if rest != [] {
        LastFiredDropFirst(fired, checks);
      }
    }
  }

  /** Dropping the first test changes the last one that fires only when it was that first test. */
  lemma {:induction false} LastFiredDropFirst(fired: Constraint -> bool, checks: seq<Constraint>)
    requires |checks| >= 2
    ensures LastFired(fired, checks)
         == (if LastFired(fired, checks[1..]).Some? then LastFired(fired, checks[1..])
             else if fired(checks[0]) then Some(checks[0]) else None)
    decreases |checks|
  {
    var last := checks[|checks| - 1];
    assert checks[1..][|checks| - 2] == last;
    if !fired(last) {
      var front := checks[..|checks| - 1];
      assert checks[1..][..|checks| - 2] == front[1..];
      if |front| >= 2 {
        LastFiredDropFirst(fired, front);
      } else {
        assert front == [checks[0]] && front[..0] == [];
      }
    }
  }

  /** The constraints whose names the database message mentions. */
  function MentionedIn(dbMessage: string): Constraint -> bool {
    (c: Constraint) => Mentions(dbMessage, c)
  }

  /** `handleConflict`: the text of the last matching constraint name (or the generic text when
      none matches), always followed by " (Value already used)". */
  function ConflictMessage(dbMessage: string): (r: string)
    ensures Text.EndsWith(r, VALUE_USED)
    ensures LastFired(MentionedIn(dbMessage), CONSTRAINT_CHECKS).None? ==> r == DUPLICATE_ENTRY + VALUE_USED
    ensures LastFired(MentionedIn(dbMessage), CONSTRAINT_CHECKS).Some? ==>
              r == TakenText(LastFired(MentionedIn(dbMessage), CONSTRAINT_CHECKS).value) + VALUE_USED
  {
    RewordedByLast(DUPLICATE_ENTRY, MentionedIn(dbMessage), CONSTRAINT_CHECKS);
    var r := Reworded(DUPLICATE_ENTRY, MentionedIn(dbMessage), CONSTRAINT_CHECKS) + VALUE_USED;
    assert r[|r| - |VALUE_USED|..] == VALUE_USED;
    r
  }

  /** A message naming the bank-account constraint is answered as such, whatever else it names. */
  lemma BankAccountNameWins(dbMessage: string)
    requires Mentions(dbMessage, BankAccountColumn)
    ensures ConflictMessage(dbMessage) == TakenText(BankAccountColumn) + VALUE_USED
  {
    assert CONSTRAINT_CHECKS[|CONSTRAINT_CHECKS| - 1] == BankAccountColumn;
  }

  // ---------------------------------------------------------------------------
  // Cell values
  // ---------------------------------------------------------------------------

  /** `getCellValue`: a text cell trimmed, a number as the digits of its `(long)` truncation,
      anything else (or no cell) empty. */
  function CellValue(cell: Option<Cell>): (r: string)
    ensures Text.Trim(r) == r
  {
    match cell
    case Some(StringCell(text)) =>
      Text.TrimIdempotent(text);
      Text.Trim(text)
    case Some(NumericCell(paise)) =>
      Text.IntToStringUntrimmed(LongCast(paise));
      Text.IntToString(LongCast(paise))
    case _ => ""
  }

  /** A number typed into a cell reads back as its whole part. */
  lemma NumberCellReadsBack(paise: int)
    requires Text.INT_MIN <= LongCast(paise) <= Text.INT_MAX
    ensures Text.ParseInt(CellValue(Some(NumericCell(paise)))) == Some(LongCast(paise))
  {
    Text.ParseIntOfIntToString(LongCast(paise));
  }

  // ---------------------------------------------------------------------------
  // The header row
  // ---------------------------------------------------------------------------

  /** A header as it is looked up: the cell's value lower-cased and trimmed. */
  function HeaderText(cell: Option<Cell>): string {
    Text.Trim(Text.ToLower(CellValue(cell)))
  }

  /** The header row's present cells, left to right: each cell's header, read by `read`, and
      its column. */
  function Headers<C>(cells: seq<Option<C>>, read: Option<C> -> string): seq<(string, nat)> {
    if cells == [] then []
    else
      var n := |cells| - 1;
      Headers(cells[..n], read) + if cells[n].Some? then [(read(cells[n]), n)] else []
  }

  /** Every header comes from a present cell, and the columns increase. */
  lemma {:induction false} HeadersOfCells<C>(cells: seq<Option<C>>, read: Option<C> -> string)
    ensures forall k :: 0 <= k < |Headers(cells, read)| ==>
              Headers(cells, read)[k].1 < |cells| && cells[Headers(cells, read)[k].1].Some?
              && Headers(cells, read)[k].0 == read(cells[Headers(cells, read)[k].1])
    ensures forall k, j :: 0 <= k < j < |Headers(cells, read)| ==> Headers(cells, read)[k].1 < Headers(cells, read)[j].1
  {
    if cells != [] {
      var n := |cells| - 1;
      var front := Headers(cells[..n], read);
      HeadersOfCells(cells[..n], read);
      forall k | 0 <= k < |front| ensures front[k].1 < n && cells[front[k].1] == cells[..n][front[k].1] {}
    }
  }

  /** Every present cell gives a header. */
  lemma {:induction false} CellsHaveHeaders<C>(cells: seq<Option<C>>, read: Option<C> -> string)
    ensures forall c :: 0 <= c < |cells| && cells[c].Some? ==> (read(cells[c]), c) in Headers(cells, read)
  {
    if cells != [] {
      var n := |cells| - 1;
      var front := Headers(cells[..n], read);
      CellsHaveHeaders(cells[..n], read);
      HeadersOfCells(cells[..n], read);
      forall c | 0 <= c < n && cells[c].Some? ensures (read(cells[c]), c) in Headers(cells, read) {
        assert cells[..n][c] == cells[c];
        var k :| 0 <= k < |front| && front[k] == (read(cells[c]), c);
        assert Headers(cells, read)[k] == front[k];
      }
    }
  }

  /** The headers in the order they were found. */
  function HeaderNames(headers: seq<(string, nat)>): (r: seq<string>)
    ensures |r| == |headers| && forall k :: 0 <= k < |r| ==> r[k] == headers[k].0
  {
    if headers == [] then [] else HeaderNames(headers[..|headers| - 1]) + [headers[|headers| - 1].0]
  }

  /** The header map filled left to right. */
  function ColumnMap(headers: seq<(string, nat)>): map<string, nat> {
    if headers == [] then map[]
    else ColumnMap(headers[..|headers| - 1])[headers[|headers| - 1].0 := headers[|headers| - 1].1]
  }

  /** The map holds exactly the headers found, and a header seen twice keeps its right-most
      column. */
  lemma {:induction false} ColumnMapKeepsLast(headers: seq<(string, nat)>)
    ensures forall h :: h in ColumnMap(headers) <==> exists k :: 0 <= k < |headers| && headers[k].0 == h
    ensures forall k :: 0 <= k < |headers| && (forall j :: k < j < |headers| ==> headers[j].0 != headers[k].0) ==>
              ColumnMap(headers)[headers[k].0] == headers[k].1
  {
    if headers != [] {
      var n := |headers| - 1;
      var front := headers[..n];
      ColumnMapKeepsLast(front);
      assert forall k :: 0 <= k < n ==> front[k] == headers[k];
      forall h | h in ColumnMap(headers) ensures exists k :: 0 <= k < |headers| && headers[k].0 == h {
        if h != headers[n].0 {
          var k :| 0 <= k < n && front[k].0 == h;
          assert headers[k].0 == h;
        }
      }
    }
  }

  /** Java's `List.toString`: the items between brackets, separated by ", ". */
  function ListText(items: seq<string>): string {
    "[" + Text.Join(items, ", ") + "]"
  }

  // ---------------------------------------------------------------------------
  // Finding a column
  // ---------------------------------------------------------------------------

  /** The map has `header` and it contains `key`. */
  predicate Matches(columns: map<string, nat>, header: string, key: string) {
    header in columns && Text.Contains(header, key)
  }

  /** The first header of `order` that contains `key`. */
  function HeaderWith(columns: map<string, nat>, order: seq<string>, key: string): (r: Option<nat>)
    ensures r.Some? ==> r.value < |order| && Matches(columns, order[r.value], key)
                        && forall j :: 0 <= j < r.value ==> !Matches(columns, order[j], key)
    ensures r.None? <==> forall j :: 0 <= j < |order| ==> !Matches(columns, order[j], key)
  {
    FirstIndex(order, (h: string) => Matches(columns, h, key))
  }

  /** The search from key `i` on: the key index and header position of the first match, keys
      in priority order and headers in map order. */
  function MatchFrom(columns: map<string, nat>, order: seq<string>, keys: seq<string>, i: nat): (r: Option<(nat, nat)>)
    requires i <= |keys|
    ensures r.Some? ==>
      && i <= r.value.0 < |keys| && r.value.1 < |order| && Matches(columns, order[r.value.1], keys[r.value.0])
      && (forall k, j :: i <= k < r.value.0 && 0 <= j < |order| ==> !Matches(columns, order[j], keys[k]))
      && (forall j :: 0 <= j < r.value.1 ==> !Matches(columns, order[j], keys[r.value.0]))
    ensures r.None? <==> forall k, j :: i <= k < |keys| && 0 <= j < |order| ==> !Matches(columns, order[j], keys[k])
    decreases |keys| - i
  {
    if i == |keys| then None
    else
      var hit := HeaderWith(columns, order, keys[i]);
      if hit.Some? then Some((i, hit.value)) else MatchFrom(columns, order, keys, i + 1)
  }

  /** `findColIndex`, with the map's iteration order given as `order`: the column of the header
      matched by the first key that any header contains; `None` for the source's -1. */
  function FindColumn(columns: map<string, nat>, order: seq<string>, keys: seq<string>): (r: Option<nat>)
    ensures r.None? <==> forall k, j :: 0 <= k < |keys| && 0 <= j < |order| ==> !Matches(columns, order[j], keys[k])
    ensures r.Some? ==> MatchFrom(columns, order, keys, 0).Some?
                        && r.value == columns[order[MatchFrom(columns, order, keys, 0).value.1]]
  {
    var m := MatchFrom(columns, order, keys, 0);
    if m.Some? then Some(columns[order[m.value.1]]) else None
  }

  /** When `order` lists exactly the map's headers, no header of `order` matching a key is no
      header of the map containing it. */
  lemma NoMatchAnywhere(columns: map<string, nat>, order: seq<string>, keys: seq<string>)
    requires SameElements(order, columns.Keys)
    ensures (forall k, j :: 0 <= k < |keys| && 0 <= j < |order| ==> !Matches(columns, order[j], keys[k]))
            <==> (forall k, h :: 0 <= k < |keys| && h in columns ==> !Text.Contains(h, keys[k]))
  {
    if forall k, j :: 0 <= k < |keys| && 0 <= j < |order| ==> !Matches(columns, order[j], keys[k]) {
      forall k, h | 0 <= k < |keys| && h in columns ensures !Text.Contains(h, keys[k]) {
        var j :| 0 <= j < |order| && order[j] == h;
      }
    }
  }

  /** The map's iteration order does not decide whether a column is found, nor by which key:
      only which of several headers containing that key is taken. */
  lemma MatchedKeyIgnoresOrder(columns: map<string, nat>, order1: seq<string>, order2: seq<string>, keys: seq<string>)
    requires forall h :: h in order1 <==> h in order2
    ensures MatchFrom(columns, order1, keys, 0).None? <==> MatchFrom(columns, order2, keys, 0).None?
    ensures MatchFrom(columns, order1, keys, 0).Some? ==>
              MatchFrom(columns, order1, keys, 0).value.0 == MatchFrom(columns, order2, keys, 0).value.0
  {
    var m1, m2 := MatchFrom(columns, order1, keys, 0), MatchFrom(columns, order2, keys, 0);
    if m1.Some? {
      MatchMoves(columns, order1, order2, keys, m1.value.0, m1.value.1);
    }
    if m2.Some? {
      MatchMoves(columns, order2, order1, keys, m2.value.0, m2.value.1);
    }
  }

  /** A match in one order is a match in any order of the same headers, so the search there
      stops at that key or before it. */
  lemma MatchMoves(columns: map<string, nat>, order1: seq<string>, order2: seq<string>, keys: seq<string>, k: nat, j: nat)
    requires forall h :: h in order1 <==> h in order2
    requires k < |keys| && j < |order1| && Matches(columns, order1[j], keys[k])
    ensures MatchFrom(columns, order2, keys, 0).Some? && MatchFrom(columns, order2, keys, 0).value.0 <= k
  {
    assert order1[j] in order2;
    var j2 :| 0 <= j2 < |order2| && order2[j2] == order1[j];
    assert Matches(columns, order2[j2], keys[k]);
  }

  // ---------------------------------------------------------------------------
  // The columns of an upload
  // ---------------------------------------------------------------------------

  const MEMBER_ID_KEYS: seq<string> := ["member id", "memberid", "member_id", "emp id", "employee id", "id"]
  const NAME_KEYS: seq<string> := ["name", "full name", "fullname", "employee name"]
  const UAN_KEYS: seq<string> := ["uan", "uan number", "uan_number"]
  const IP_KEYS: seq<string> := ["ip", "ip number", "ip_number"]
  const BANK_KEYS: seq<string> := ["bank", "bank account", "account no", "ac no"]
  const IFSC_KEYS: seq<string> := ["ifsc", "ifsc code"]
  const CATEGORY_KEYS: seq<string> := ["category", "cat"]

  /** The columns an upload reads; only the member id's is required. */
  datatype Columns = Columns(
    memberId: nat,
    name: Option<nat>,
    uan: Option<nat>,
    ip: Option<nat>,
    bankAccount: Option<nat>,
    ifsc: Option<nat>,
    category: Option<nat>)

  /** The seven lookups, or `None` when no member-id column is found. */
  function ColumnsFound(columns: map<string, nat>, order: seq<string>): Option<Columns> {
    var memberId := FindColumn(columns, order, MEMBER_ID_KEYS);
    if memberId.None? then None
    else
      Some(Columns(memberId.value, FindColumn(columns, order, NAME_KEYS), FindColumn(columns, order, UAN_KEYS),
                   FindColumn(columns, order, IP_KEYS), FindColumn(columns, order, BANK_KEYS),
                   FindColumn(columns, order, IFSC_KEYS), FindColumn(columns, order, CATEGORY_KEYS)))
  }

  /** No member-id column is found exactly when no header contains a member-id key. */
  lemma ColumnsFoundNone(columns: map<string, nat>, order: seq<string>)
    requires SameElements(order, columns.Keys)
    ensures ColumnsFound(columns, order).None? <==>
              forall k, h :: 0 <= k < |MEMBER_ID_KEYS| && h in columns ==> !Text.Contains(h, MEMBER_ID_KEYS[k])
  {
    NoMatchAnywhere(columns, order, MEMBER_ID_KEYS);
  }

  const NO_HEADERS: string := "Excel file is empty or missing headers."
  const MISSING_MEMBER_ID: string := "Missing required column: Member ID. Found headers: "

  /** A `HashMap`'s key-set iteration: every key of the map, and nothing else, in some order. */
  ghost predicate ListsKeys(hashOrder: set<string> -> seq<string>) {
    forall keys: set<string> :: SameElements(hashOrder(keys), keys)
  }

  /** `order` holds every key of `keys` and nothing else. */
  ghost predicate SameElements(order: seq<string>, keys: set<string>) {
    forall h :: h in order <==> h in keys
  }

  /** The header row read into columns; `hashOrder` is the order in which a `HashMap` with
      those keys lists them. Fails without a header row, or exactly when no header contains a
      member-id key. */
  function SheetColumns(rows: seq<Option<SheetRow>>, hashOrder: set<string> -> seq<string>): (r: Result<Columns, string>)
    requires ListsKeys(hashOrder)
    ensures rows == [] || rows[0].None? ==> r == Failure(NO_HEADERS)
    ensures rows != [] && rows[0].Some? ==>
      var columns := ColumnMap(Headers(rows[0].value.cells, HeaderText));
      r.Failure? <==> forall k, h :: 0 <= k < |MEMBER_ID_KEYS| && h in columns ==> !Text.Contains(h, MEMBER_ID_KEYS[k])
    ensures rows != [] && rows[0].Some? ==>
      var headers := Headers(rows[0].value.cells, HeaderText);
      var columns := ColumnMap(headers);
      var order := hashOrder(columns.Keys);
      && (r.Success? ==> exists k, j :: 0 <= k < |MEMBER_ID_KEYS| && 0 <= j < |order|
                            && Matches(columns, order[j], MEMBER_ID_KEYS[k]) && r.value.memberId == columns[order[j]])
      && (r.Failure? ==>
            && r.error == MISSING_MEMBER_ID + ListText(HeaderNames(headers))
            && forall k, j :: 0 <= k < |MEMBER_ID_KEYS| && 0 <= j < |order| ==> !Matches(columns, order[j], MEMBER_ID_KEYS[k]))
  {
    if rows == [] || rows[0].None? then Failure(NO_HEADERS)
    else
      var headers := Headers(rows[0].value.cells, HeaderText);
      var columns := ColumnMap(headers);
      var found := ColumnsFound(columns, hashOrder(columns.Keys));
      ColumnsFoundNone(columns, hashOrder(columns.Keys));
      if found.None? then Failure(MISSING_MEMBER_ID + ListText(HeaderNames(headers))) else Success(found.value)
  }

  // ---------------------------------------------------------------------------
  // One data row
  // ---------------------------------------------------------------------------

  /** The three identifiers checked against the stored employees. */
  datatype Identifier = Uan | Ip | BankAccount

  function IdentifierOf(e: Employee, f: Identifier): Option<string> {
    match f
    case Uan => e.uanNumber
    case Ip => e.ipNumber
    case BankAccount => e.bankAccountNo
  }

  function WithIdentifier(e: Employee, f: Identifier, value: string): (r: Employee)
    ensures IdentifierOf(r, f) == Some(value)
    ensures forall g :: g != f ==> IdentifierOf(r, g) == IdentifierOf(e, g)
    ensures r.id == e.id && r.memberId == e.memberId && r.fullName == e.fullName && r.ifscCode == e.ifscCode
    ensures r.status == e.status && r.inactiveDate == e.inactiveDate && r.category == e.category
  {
    match f
    case Uan => e.(uanNumber := Some(value))
    case Ip => e.(ipNumber := Some(value))
    case BankAccount => e.(bankAccountNo := Some(value))
  }

  function ColumnOf(cols: Columns, f: Identifier): Option<nat> {
    match f
    case Uan => cols.uan
    case Ip => cols.ip
    case BankAccount => cols.bankAccount
  }

  /** `findByUanNumber`, `findByIpNumber`, `findByBankAccountNo`. */
  function HolderOf(employees: seq<Employee>, f: Identifier, value: string): Option<nat> {
    FirstIndex(employees, (e: Employee) => IdentifierOf(e, f) == Some(value))
  }

  function IdentifierLabel(f: Identifier): string {
    match f
    case Uan => "UAN "
    case Ip => "IP "
    case BankAccount => "Bank Account "
  }

  const USED_BY: string := " is already used by Member ID "

  /** The error for a row (0-based `rowNum`) whose identifier another member holds. */
  function TakenError(rowNum: nat, f: Identifier, value: string, holder: string): string {
    "Row " + Text.IntToString(rowNum + 1) + ": " + IdentifierLabel(f) + value + USED_BY + holder
  }

  /** The value of a cell of the row, read as `getCellValue` does. */
  function ValueAt(row: SheetRow, column: nat): string {
    CellValue(CellAt(row, column))
  }

  /** What an identifier column leaves in its field: the cell's text when the column exists and
      the cell is not empty, otherwise the value `before`. */
  function IdentifierWritten(row: SheetRow, column: Option<nat>, before: Option<string>): Option<string> {
    if column.Some? && ValueAt(row, column.value) != [] then Some(ValueAt(row, column.value)) else before
  }

  /** One identifier column: a missing column or an empty value leaves the employee as it is; a
      value a stored employee with another member id holds fails the upload; otherwise the value
      is set. */
  function IdentifierSet(employees: seq<Employee>, emp: Employee, f: Identifier, column: Option<nat>, row: SheetRow): (r: Result<Employee, string>)
    ensures r.Failure? <==> column.Some? && ValueAt(row, column.value) != []
                            && HolderOf(employees, f, ValueAt(row, column.value)).Some?
                            && employees[HolderOf(employees, f, ValueAt(row, column.value)).value].memberId != emp.memberId
    ensures r.Success? ==> r.value.id == emp.id && r.value.memberId == emp.memberId && r.value.status == emp.status
                           && r.value.category == emp.category && r.value.inactiveDate == emp.inactiveDate
                           && r.value.fullName == emp.fullName && r.value.ifscCode == emp.ifscCode
    ensures r.Success? ==> IdentifierOf(r.value, f) == IdentifierWritten(row, column, IdentifierOf(emp, f))
                           && forall g :: g != f ==> IdentifierOf(r.value, g) == IdentifierOf(emp, g)
  {
    if column.None? then Success(emp)
    else
      var value := ValueAt(row, column.value);
      if value == [] then Success(emp)
      else
        var holder := HolderOf(employees, f, value);
        if holder.Some? && employees[holder.value].memberId != emp.memberId then
          Failure(TakenError(row.rowNum, f, value, employees[holder.value].memberId))
        else Success(WithIdentifier(emp, f, value))
  }

  /** `Category.valueOf` of the upper-cased, trimmed text: the two names exactly. */
  function CategoryNamed(text: string): Option<Category> {
    var t := Text.Trim(Text.ToUpper(text));
    if |t| == 2 && t[0] == 'C' && t[1] == 'L' then Some(CL)
    else if |t| == 2 && t[0] == 'H' && t[1] == 'L' then Some(HL)
    else None
  }

  /** The names are read whatever the case of their letters. */
  lemma CategoryNamedIgnoresCase(text: string)
    ensures CategoryNamed(Text.ToLower(text)) == CategoryNamed(text)
  {
    var a, b := Text.ToUpper(Text.ToLower(text)), Text.ToUpper(text);
    assert forall k :: 0 <= k < |a| ==> a[k] == b[k];
    assert a == b;
  }

  /** The category column (`None` when the sheet has none): a category name sets it; a blank,
      an unknown name or a missing column sets CL where the employee has no category yet. */
  function Categorized(emp: Employee, text: Option<string>): (r: Employee)
    ensures r.category.Some?
    ensures r == emp.(category := r.category)
    ensures text.Some? && text.value != [] && CategoryNamed(text.value).Some? ==> r.category == CategoryNamed(text.value)
    ensures !(text.Some? && text.value != [] && CategoryNamed(text.value).Some?) ==>
              r.category == (if emp.category.Some? then emp.category else Some(CL))
  {
    var named := if text.Some? && text.value != [] then CategoryNamed(text.value) else None;
    if named.Some? then emp.(category := named)
    else if emp.category.None? then emp.(category := Some(CL))
    else emp
  }

  /** An employee to be saved: a stored one (keeping its id) or a new one. */
  datatype Draft = Draft(isNew: bool, employee: Employee)

  /** `new Employee()` given a member id and the ACTIVE status. */
  function NewEmployee(memberId: string): Employee {
    Employee(0, memberId, None, None, None, None, None, Active, None, None)
  }

  function MemberIdIn(row: SheetRow, cols: Columns): string {
    ValueAt(row, cols.memberId)
  }

  /** The employee a row with member id `memberId` starts from: the stored one, or a new one. */
  function RowBase(employees: seq<Employee>, memberId: string): (e: Employee)
    ensures e.memberId == memberId
  {
    var found := EmployeeByMemberId(employees, memberId);
    if found.Some? then employees[found.value] else NewEmployee(memberId)
  }

  /** The text of the row's category cell, `None` without a category column. */
  function CategoryText(row: SheetRow, cols: Columns): Option<string> {
    if cols.category.Some? then Some(ValueAt(row, cols.category.value)) else None
  }

  /** `e` is `base` with the row's columns written over it: the name and the IFSC code from their
      columns (an empty cell included), each identifier from a non-empty cell of its column, and
      the category as `Categorized` sets it; the id, member id, status and inactive date are kept. */
  predicate RowApplied(row: SheetRow, cols: Columns, base: Employee, e: Employee) {
    && e.id == base.id && e.memberId == base.memberId && e.status == base.status && e.inactiveDate == base.inactiveDate
    && e.fullName == (if cols.name.Some? then Some(ValueAt(row, cols.name.value)) else base.fullName)
    && e.ifscCode == (if cols.ifsc.Some? then Some(ValueAt(row, cols.ifsc.value)) else base.ifscCode)
    && e.uanNumber == IdentifierWritten(row, cols.uan, base.uanNumber)
    && e.ipNumber == IdentifierWritten(row, cols.ip, base.ipNumber)
    && e.bankAccountNo == IdentifierWritten(row, cols.bankAccount, base.bankAccountNo)
    && e.category == Categorized(base, CategoryText(row, cols)).category
  }

  /** The three identifier columns applied in turn: UAN, IP number, bank account. */
  function IdentifiersSet(employees: seq<Employee>, emp: Employee, cols: Columns, row: SheetRow): (r: Result<Employee, string>)
    ensures r.Success? ==> r.value == emp.(uanNumber := r.value.uanNumber, ipNumber := r.value.ipNumber, bankAccountNo := r.value.bankAccountNo)
    ensures r.Success? ==> r.value.uanNumber == IdentifierWritten(row, cols.uan, emp.uanNumber)
                           && r.value.ipNumber == IdentifierWritten(row, cols.ip, emp.ipNumber)
                           && r.value.bankAccountNo == IdentifierWritten(row, cols.bankAccount, emp.bankAccountNo)
  {
    var withUan := IdentifierSet(employees, emp, Uan, cols.uan, row);
    if withUan.Failure? then withUan
    else
      var withIp := IdentifierSet(employees, withUan.value, Ip, cols.ip, row);
      if withIp.Failure? then withIp
      else
        var r := IdentifierSet(employees, withIp.value, BankAccount, cols.bankAccount, row);
        assert IdentifierOf(withUan.value, Uan) == IdentifierWritten(row, cols.uan, emp.uanNumber);
        assert IdentifierOf(withIp.value, Uan) == IdentifierOf(withUan.value, Uan);
        assert IdentifierOf(withIp.value, Ip) == IdentifierWritten(row, cols.ip, emp.ipNumber);
        assert r.Success? ==> IdentifierOf(r.value, Uan) == IdentifierOf(withIp.value, Uan)
                              && IdentifierOf(r.value, Ip) == IdentifierOf(withIp.value, Ip);
        r
  }

  /** The row's columns applied to `base`, or the error of a taken identifier. */
  function RowApplication(employees: seq<Employee>, row: SheetRow, cols: Columns, base: Employee): (r: Result<Employee, string>)
    ensures r.Success? ==> RowApplied(row, cols, base, r.value)
  {
    var named := if cols.name.Some? then base.(fullName := Some(ValueAt(row, cols.name.value))) else base;
    var identified := IdentifiersSet(employees, named, cols, row);
    if identified.Failure? then identified
    else
      var withIfsc := if cols.ifsc.Some? then identified.value.(ifscCode := Some(ValueAt(row, cols.ifsc.value)))
                      else identified.value;
      Success(Categorized(withIfsc, CategoryText(row, cols)))
  }

  /** One data row: nothing for a blank member id; otherwise the stored employee with that
      member id (or a new ACTIVE one) with the row's columns applied, or the conflict error. */
  function RowDraft(employees: seq<Employee>, row: SheetRow, cols: Columns): (r: Result<Option<Draft>, string>)
    ensures r == Success(None) <==> MemberIdIn(row, cols) == []
    ensures r.Success? && r.value.Some? ==>
      var d := r.value.value;
      var found := EmployeeByMemberId(employees, MemberIdIn(row, cols));
      && RowApplied(row, cols, RowBase(employees, MemberIdIn(row, cols)), d.employee)
      && d.employee.memberId == MemberIdIn(row, cols)
      && d.employee.category.Some?
      && (d.isNew <==> found.None?)
      && (d.isNew ==> d.employee.status == Active)
      && (!d.isNew ==> d.employee.id == employees[found.value].id && d.employee.status == employees[found.value].status
                       && d.employee.inactiveDate == employees[found.value].inactiveDate)
  {
    // the member id is already trimmed, so `trim().isEmpty()` is emptiness
    var memberId := MemberIdIn(row, cols);
    if memberId == [] then Success(None)
    else
      var found := EmployeeByMemberId(employees, memberId);
      var applied := RowApplication(employees, row, cols, RowBase(employees, memberId));
      if applied.Failure? then Failure(applied.error)
      else Success(Some(Draft(found.None?, applied.value)))
  }

  /** A row whose identifier another member holds fails, whichever of its identifiers that is. */
  lemma RowDraftRefuses(employees: seq<Employee>, row: SheetRow, cols: Columns, f: Identifier)
    requires MemberIdIn(row, cols) != [] && ColumnOf(cols, f).Some?
    requires ValueAt(row, ColumnOf(cols, f).value) != []
    requires HolderOf(employees, f, ValueAt(row, ColumnOf(cols, f).value)).Some?
    requires employees[HolderOf(employees, f, ValueAt(row, ColumnOf(cols, f).value)).value].memberId != MemberIdIn(row, cols)
    ensures RowDraft(employees, row, cols).Failure?
  {
    var memberId := MemberIdIn(row, cols);
    var found := EmployeeByMemberId(employees, memberId);
    var base := if found.Some? then employees[found.value] else NewEmployee(memberId);
    assert base.memberId == memberId;
  }

  // ---------------------------------------------------------------------------
  // The data rows and the final save
  // ---------------------------------------------------------------------------

  /** The drafts of `rows` made by `step` appended to `acc`, top to bottom, skipping missing
      rows; the first failing row ends the upload with its error. */
  function Drafted(acc: seq<Draft>, step: SheetRow -> Result<Option<Draft>, string>, rows: seq<Option<SheetRow>>): Result<seq<Draft>, string>
    decreases |rows|
  {
    if rows == [] then Success(acc)
    else if rows[0].None? then Drafted(acc, step, rows[1..])
    else
      var d := step(rows[0].value);
      if d.Failure? then Failure(d.error)
      else Drafted(acc + (if d.value.Some? then [d.value.value] else []), step, rows[1..])
  }

  /** The step applied to the first remaining row, when it is present and succeeds. */
  function NextAcc(acc: seq<Draft>, step: SheetRow -> Result<Option<Draft>, string>, rows: seq<Option<SheetRow>>): seq<Draft>
    requires rows != []
  {
    if rows[0].None? || step(rows[0].value).Failure? then acc
    else acc + (if step(rows[0].value).value.Some? then [step(rows[0].value).value.value] else [])
  }

  /** A drafting that ends well starts with the drafts so far. */
  lemma {:induction false} DraftedPrefix(acc: seq<Draft>, step: SheetRow -> Result<Option<Draft>, string>, rows: seq<Option<SheetRow>>)
    requires Drafted(acc, step, rows).Success?
    ensures |acc| <= |Drafted(acc, step, rows).value| && Drafted(acc, step, rows).value[..|acc|] == acc
    decreases |rows|
  {
    if rows != [] {
      var next := NextAcc(acc, step, rows);
      DraftedPrefix(next, step, rows[1..]);
      assert next[..|acc|] == acc;
    }
  }

  /** A drafting ends well only when each present row does. */
  lemma {:induction false} DraftedRowOk(acc: seq<Draft>, step: SheetRow -> Result<Option<Draft>, string>, rows: seq<Option<SheetRow>>, k: nat)
    requires Drafted(acc, step, rows).Success?
    requires k < |rows| && rows[k].Some?
    ensures step(rows[k].value).Success?
    decreases |rows|
  {
    if k > 0 {
      assert rows[1..][k - 1] == rows[k];
      DraftedRowOk(NextAcc(acc, step, rows), step, rows[1..], k - 1);
    }
  }

  /** A failing row fails the drafting. */
  lemma DraftedRowFails(acc: seq<Draft>, step: SheetRow -> Result<Option<Draft>, string>, rows: seq<Option<SheetRow>>, k: nat)
    requires k < |rows| && rows[k].Some? && step(rows[k].value).Failure?
    ensures Drafted(acc, step, rows).Failure?
  {
    if Drafted(acc, step, rows).Success? {
      DraftedRowOk(acc, step, rows, k);
    }
  }

  /** A failing data row (below the header row) fails the drafting of the data rows. */
  lemma DataRowFails(step: SheetRow -> Result<Option<Draft>, string>, rows: seq<Option<SheetRow>>, k: nat)
    requires 1 <= k < |rows| && rows[k].Some? && step(rows[k].value).Failure?
    ensures Drafted([], step, rows[1..]).Failure?
  {
    assert rows[1..][k - 1] == rows[k];
    DraftedRowFails([], step, rows[1..], k - 1);
  }

  /** A data row of a drafting that ends well succeeds, and its draft is kept. */
  lemma DataRowKept(step: SheetRow -> Result<Option<Draft>, string>, rows: seq<Option<SheetRow>>, k: nat)
    requires 1 <= k < |rows| && rows[k].Some? && Drafted([], step, rows[1..]).Success?
    ensures step(rows[k].value).Success?
    ensures step(rows[k].value).value.Some? ==> step(rows[k].value).value.value in Drafted([], step, rows[1..]).value
  {
    assert rows[1..][k - 1] == rows[k];
    DraftedRowOk([], step, rows[1..], k - 1);
    if step(rows[k].value).value.Some? {
      DraftedHas([], step, rows[1..], k - 1);
    }
  }

  /** The draft of each row is kept. */
  lemma {:induction false} DraftedHas(acc: seq<Draft>, step: SheetRow -> Result<Option<Draft>, string>, rows: seq<Option<SheetRow>>, k: nat)
    requires Drafted(acc, step, rows).Success?
    requires k < |rows| && rows[k].Some? && step(rows[k].value).Success? && step(rows[k].value).value.Some?
    ensures step(rows[k].value).value.value in Drafted(acc, step, rows).value
    decreases |rows|
  {
    var next := NextAcc(acc, step, rows);
    if k > 0 {
      assert rows[1..][k - 1] == rows[k];
      DraftedHas(next, step, rows[1..], k - 1);
    } else {
      DraftedPrefix(next, step, rows[1..]);
      assert next[|acc|] == step(rows[0].value).value.value;
      assert Drafted(acc, step, rows).value[|acc|] == next[|acc|];
    }
  }

  /** Each draft past the ones so far is the draft of a row. */
  lemma {:induction false} DraftedFrom(acc: seq<Draft>, step: SheetRow -> Result<Option<Draft>, string>, rows: seq<Option<SheetRow>>, i: nat)
    returns (k: nat)
    requires Drafted(acc, step, rows).Success?
    requires |acc| <= i < |Drafted(acc, step, rows).value|
    ensures k < |rows| && rows[k].Some? && step(rows[k].value) == Success(Some(Drafted(acc, step, rows).value[i]))
    decreases |rows|
  {
    var next := NextAcc(acc, step, rows);
    var ds := Drafted(acc, step, rows).value;
    DraftedPrefix(next, step, rows[1..]);
    if i < |next| {
      assert ds[i] == next[i];
      k := 0;
    } else {
      var j := DraftedFrom(next, step, rows[1..], i);
      assert rows[j + 1] == rows[1..][j];
      k := j + 1;
    }
  }

  /** `save` of one draft: a new employee gets the next id and is added; a stored one replaces
      the employee with its id, and the entries joined to it see the new version. */
  function DraftSaved(s: State, d: Draft): (r: (Employee, State))
    ensures r.0 == d.employee.(id := r.0.id) && r.0 in r.1.employees
    ensures r.1.periods == s.periods && SameEntriesRejoined(s.entries, r.1.entries)
    ensures d.isNew ==> r.0.id == s.nextId && r.1.employees == s.employees + [r.0] && r.1.nextId == s.nextId + 1
    ensures !d.isNew ==> r.0 == d.employee && r.1.nextId == s.nextId && r.1.employees == SaveEmployee(s.employees, d.employee)
    ensures |r.1.employees| >= |s.employees| && forall i :: 0 <= i < |s.employees| ==> r.1.employees[i].id == s.employees[i].id
  {
    if d.isNew then
      var e := d.employee.(id := s.nextId);
      (e, s.(employees := s.employees + [e], entries := Rejoined(s.entries, e), nextId := s.nextId + 1))
    else
      var employees := SaveEmployee(s.employees, d.employee);
      var k := EmployeeById(s.employees, d.employee.id);
      assert employees[if k.Some? then k.value else |s.employees|] == d.employee;
      (d.employee, s.(employees := employees, entries := Rejoined(s.entries, d.employee)))
  }

  /** The entries after a save are the entries before, each still joined to an employee with the
      same id. */
  predicate SameEntriesRejoined(before: seq<Entry>, after: seq<Entry>) {
    && |after| == |before|
    && forall i :: 0 <= i < |before| ==>
         && after[i] == before[i].(employee := after[i].employee)
         && (after[i].employee.Some? <==> before[i].employee.Some?)
         && (before[i].employee.Some? ==> after[i].employee.value.id == before[i].employee.value.id)
  }

  /** `saveAll`: the drafts saved in turn, their saved forms appended to `saved`. */
  function SavedFrom(saved: seq<Employee>, s: State, drafts: seq<Draft>): (r: (seq<Employee>, State))
    ensures |r.0| == |saved| + |drafts| && r.0[..|saved|] == saved
    ensures forall i :: 0 <= i < |drafts| ==>
              r.0[|saved| + i] == drafts[i].employee.(id := r.0[|saved| + i].id)
              && (!drafts[i].isNew ==> r.0[|saved| + i] == drafts[i].employee)
    ensures r.1.periods == s.periods && SameEntriesRejoined(s.entries, r.1.entries)
    ensures |r.1.employees| >= |s.employees| && forall i :: 0 <= i < |s.employees| ==> r.1.employees[i].id == s.employees[i].id
    decreases |drafts|
  {
    if drafts == [] then (saved, s)
    else
      var step := DraftSaved(s, drafts[0]);
      var r := SavedFrom(saved + [step.0], step.1, drafts[1..]);
      assert r.0[..|saved|] == (saved + [step.0])[..|saved|];
      assert r.0[|saved|] == (saved + [step.0])[|saved|];
      assert forall i :: 1 <= i < |drafts| ==> drafts[1..][i - 1] == drafts[i] && |saved + [step.0]| + (i - 1) == |saved| + i;
      r
  }

  /** The table `saveAll` leaves: `EmployeesSaved`, with the next id moved past the new employees. */
  lemma {:induction false} SavedFromTable(saved: seq<Employee>, s: State, drafts: seq<Draft>)
    ensures SavedFrom(saved, s, drafts).1.employees == EmployeesSaved(s.employees, drafts, s.nextId)
    ensures SavedFrom(saved, s, drafts).1.nextId == s.nextId + |NewlySaved(drafts, s.nextId)|
    decreases |drafts|
  {
    if drafts != [] {
      var step := DraftSaved(s, drafts[0]);
      SavedNext(saved, s, drafts, 0);
      assert drafts[0..] == drafts;
      SavedFromTable(saved + [step.0], step.1, drafts[1..]);
      OneMoreSaved(s, drafts, step.1, SavedFrom(saved, s, drafts).1);
    }
  }

  /** One draft saved, then the rest: the table and the next id of `EmployeesSaved`. */
  lemma OneMoreSaved(s: State, drafts: seq<Draft>, after: State, r: State)
    requires drafts != []
    requires after.employees == if drafts[0].isNew then s.employees + [drafts[0].employee.(id := s.nextId)]
                                else SaveEmployee(s.employees, drafts[0].employee)
    requires after.nextId == if drafts[0].isNew then s.nextId + 1 else s.nextId
    requires r.employees == EmployeesSaved(after.employees, drafts[1..], after.nextId)
    requires r.nextId == after.nextId + |NewlySaved(drafts[1..], after.nextId)|
    ensures r.employees == EmployeesSaved(s.employees, drafts, s.nextId)
    ensures r.nextId == s.nextId + |NewlySaved(drafts, s.nextId)|
  {
  }

  /** The employee table once the drafts are saved in turn: a new draft is added with the next
      id, a stored one is saved over the employee with its id. */
  function EmployeesSaved(employees: seq<Employee>, drafts: seq<Draft>, nextId: nat): seq<Employee>
    decreases |drafts|
  {
    if drafts == [] then employees
    else if drafts[0].isNew then EmployeesSaved(employees + [drafts[0].employee.(id := nextId)], drafts[1..], nextId + 1)
    else EmployeesSaved(SaveEmployee(employees, drafts[0].employee), drafts[1..], nextId)
  }

  /** The new drafts, in their order, with the ids they are given. */
  function NewlySaved(drafts: seq<Draft>, nextId: nat): seq<Employee>
    decreases |drafts|
  {
    if drafts == [] then []
    else if drafts[0].isNew then [drafts[0].employee.(id := nextId)] + NewlySaved(drafts[1..], nextId + 1)
    else NewlySaved(drafts[1..], nextId)
  }

  /** No stored draft is saved over the employee with this id. */
  predicate Untouched(drafts: seq<Draft>, id: nat) {
    forall j :: 0 <= j < |drafts| && !drafts[j].isNew ==> drafts[j].employee.id != id
  }

  /** Saving drafts whose stored ids are known: every stored employee keeps its place and id, one
      that no draft is saved over is unchanged, and the new employees follow in draft order. */
  lemma {:induction false} EmployeesSavedLayout(employees: seq<Employee>, drafts: seq<Draft>, nextId: nat)
    requires StoredIdsKnown(employees, drafts)
    requires forall k :: 0 <= k < |employees| ==> employees[k].id < nextId
    ensures var r := EmployeesSaved(employees, drafts, nextId);
      && |r| == |employees| + |NewlySaved(drafts, nextId)|
      && r[|employees|..] == NewlySaved(drafts, nextId)
      && (forall i :: 0 <= i < |employees| ==> r[i].id == employees[i].id)
      && (forall i :: 0 <= i < |employees| && Untouched(drafts, employees[i].id) ==> r[i] == employees[i])
  {
    SavedKeeps(employees, drafts, nextId);
    SavedTail(employees, drafts, nextId);
  }

  /** Every stored employee keeps its place and id, and one no draft is saved over is unchanged. */
  lemma {:induction false} SavedKeeps(employees: seq<Employee>, drafts: seq<Draft>, nextId: nat)
    requires StoredIdsKnown(employees, drafts)
    requires forall k :: 0 <= k < |employees| ==> employees[k].id < nextId
    ensures var r := EmployeesSaved(employees, drafts, nextId);
      && |r| >= |employees|
      && (forall i :: 0 <= i < |employees| ==> r[i].id == employees[i].id)
      && (forall i :: 0 <= i < |employees| && Untouched(drafts, employees[i].id) ==> r[i] == employees[i])
    decreases |drafts|
  {
    if drafts != [] {
      var d := drafts[0];
      var rest := drafts[1..];
      var next := if d.isNew then employees + [d.employee.(id := nextId)] else SaveEmployee(employees, d.employee);
      var nextId' := if d.isNew then nextId + 1 else nextId;
      FirstDraftSaved(employees, drafts, nextId);
      SavedKeeps(next, rest, nextId');
      var r := EmployeesSaved(next, rest, nextId');
      forall i | 0 <= i < |employees| && Untouched(drafts, employees[i].id) ensures r[i] == employees[i] {
        assert Untouched(rest, next[i].id) by {
          forall j | 0 <= j < |rest| && !rest[j].isNew ensures rest[j].employee.id != next[i].id {
            assert rest[j] == drafts[j + 1];
          }
        }
        assert !d.isNew ==> drafts[0].employee.id != employees[i].id;
      }
    }
  }

  /** The new employees follow the stored ones, in draft order. */
  lemma {:induction false} SavedTail(employees: seq<Employee>, drafts: seq<Draft>, nextId: nat)
    requires StoredIdsKnown(employees, drafts)
    requires forall k :: 0 <= k < |employees| ==> employees[k].id < nextId
    ensures var r := EmployeesSaved(employees, drafts, nextId);
      && |r| == |employees| + |NewlySaved(drafts, nextId)|
      && r[|employees|..] == NewlySaved(drafts, nextId)
    decreases |drafts|
  {
    if drafts != [] {
      var d := drafts[0];
      var rest := drafts[1..];
      var next := if d.isNew then employees + [d.employee.(id := nextId)] else SaveEmployee(employees, d.employee);
      var nextId' := if d.isNew then nextId + 1 else nextId;
      FirstDraftSaved(employees, drafts, nextId);
      SavedTail(next, rest, nextId');
      var r := EmployeesSaved(next, rest, nextId');
      if d.isNew {
        SavedKeeps(next, rest, nextId');
        assert NewlySaved(drafts, nextId) == [next[|employees|]] + NewlySaved(rest, nextId');
        assert Untouched(rest, next[|employees|].id);
        assert r[|employees|] == next[|employees|];
        TailFrom(r, |employees|);
      } else {
        assert NewlySaved(drafts, nextId) == NewlySaved(rest, nextId');
      }
    }
  }

  /** A tail of the table is its first employee followed by the rest. */
  lemma TailFrom(employees: seq<Employee>, k: nat)
    requires k < |employees|
    ensures employees[k..] == [employees[k]] + employees[k + 1..]
  {
  }

  /** The first draft saved: the table it leaves keeps every stored employee's place and id,
      changes only the one the draft is saved over, and still knows the later drafts' ids. */
  lemma FirstDraftSaved(employees: seq<Employee>, drafts: seq<Draft>, nextId: nat)
    requires drafts != [] && StoredIdsKnown(employees, drafts)
    requires forall k :: 0 <= k < |employees| ==> employees[k].id < nextId
    ensures var d := drafts[0];
      var next := if d.isNew then employees + [d.employee.(id := nextId)] else SaveEmployee(employees, d.employee);
      var nextId' := if d.isNew then nextId + 1 else nextId;
      && EmployeesSaved(employees, drafts, nextId) == EmployeesSaved(next, drafts[1..], nextId')
      && |next| >= |employees| && (forall k :: 0 <= k < |employees| ==> next[k].id == employees[k].id)
      && (forall k :: 0 <= k < |employees| && next[k] != employees[k] ==> !d.isNew && d.employee.id == employees[k].id)
      && (d.isNew ==> |next| == |employees| + 1 && next[|employees|] == d.employee.(id := nextId))
      && (!d.isNew ==> |next| == |employees|)
      && StoredIdsKnown(next, drafts[1..])
      && (forall k :: 0 <= k < |next| ==> next[k].id < nextId')
      && (forall j :: 0 <= j < |drafts| - 1 && !drafts[1..][j].isNew ==> drafts[1..][j].employee.id < nextId)
  {
    var d := drafts[0];
    var rest := drafts[1..];
    assert forall j :: 0 <= j < |rest| ==> rest[j] == drafts[j + 1];
    var next := if d.isNew then employees + [d.employee.(id := nextId)] else SaveEmployee(employees, d.employee);
    forall j | 0 <= j < |rest| && !rest[j].isNew
      ensures EmployeeById(next, rest[j].employee.id).Some? && rest[j].employee.id < nextId
    {
      var k := EmployeeById(employees, drafts[j + 1].employee.id).value;
      assert next[k].id == rest[j].employee.id;
    }
  }

  /** What the table's constraints demand: every employee named; a member id, UAN, IP number
      or bank account held by at most one employee. */
  function Persistable(employees: seq<Employee>): (r: bool)
    ensures r ==> forall i :: 0 <= i < |employees| ==> employees[i].fullName.Some?
    ensures r ==> forall i :: 0 <= i < |employees| ==> EmployeeByMemberId(employees, employees[i].memberId) == Some(i)
    ensures r ==> forall i, f :: 0 <= i < |employees| && IdentifierOf(employees[i], f).Some? ==>
                   HolderOf(employees, f, IdentifierOf(employees[i], f).value) == Some(i)
  {
    if && (forall i :: 0 <= i < |employees| ==> employees[i].fullName.Some?)
       && (forall i, j :: 0 <= i < j < |employees| ==> employees[i].memberId != employees[j].memberId)
       && (forall i, j, f :: 0 <= i < j < |employees| && IdentifierOf(employees[i], f).Some? ==>
             IdentifierOf(employees[i], f) != IdentifierOf(employees[j], f))
    then
      DistinctMemberIdsFound(employees);
      DistinctIdentifiersFound(employees);
      true
    else false
  }

  /** Distinct member ids: each employee is the one found by its own member id. */
  lemma DistinctMemberIdsFound(employees: seq<Employee>)
    requires forall i, j :: 0 <= i < j < |employees| ==> employees[i].memberId != employees[j].memberId
    ensures forall i :: 0 <= i < |employees| ==> EmployeeByMemberId(employees, employees[i].memberId) == Some(i)
  {
    forall i | 0 <= i < |employees|
      ensures EmployeeByMemberId(employees, employees[i].memberId) == Some(i)
    {
      FirstIndexAt(employees, (e: Employee) => e.memberId == employees[i].memberId, i);
    }
  }

  /** Distinct identifiers: each employee is the holder found by each identifier it has. */
  lemma DistinctIdentifiersFound(employees: seq<Employee>)
    requires forall i, j, f :: 0 <= i < j < |employees| && IdentifierOf(employees[i], f).Some? ==>
               IdentifierOf(employees[i], f) != IdentifierOf(employees[j], f)
    ensures forall i, f :: 0 <= i < |employees| && IdentifierOf(employees[i], f).Some? ==>
              HolderOf(employees, f, IdentifierOf(employees[i], f).value) == Some(i)
  {
    forall i, f | 0 <= i < |employees| && IdentifierOf(employees[i], f).Some?
      ensures HolderOf(employees, f, IdentifierOf(employees[i], f).value) == Some(i)
    {
      var v := IdentifierOf(employees[i], f).value;
      FirstIndexAt(employees, (e: Employee) => IdentifierOf(e, f) == Some(v), i);
    }
  }

  // ---------------------------------------------------------------------------
  // The upload
  // ---------------------------------------------------------------------------

  /** The uploaded file: unreadable as a workbook (the exception's class name and message), or
      the rows of its first sheet by row number, `None` for a missing row. */
  datatype Workbook = Unreadable(exception: string, message: string) | FirstSheet(rows: seq<Option<SheetRow>>)

  const RUNTIME_EXCEPTION: string := "RuntimeException"
  const INTEGRITY_VIOLATION: string := "DataIntegrityViolationException"

  /** The message of the exception the upload ends with. */
  function UploadFailed(exception: string, message: string): string {
    "Upload Failed (" + exception + "): " + message
  }

  /** The drafting of an upload: each row drafted against the stored employees. */
  function RowDrafter(employees: seq<Employee>, cols: Columns): SheetRow -> Result<Option<Draft>, string> {
    (row: SheetRow) => RowDraft(employees, row, cols)
  }

  /** The upload once its columns are known: the data rows drafted against the stored
      employees and saved, or the error with the contents unchanged. `dbMessage` is the
      database's message when the save breaks a constraint of the table. */
  function RowsUploaded(s: State, rows: seq<Option<SheetRow>>, cols: Columns, dbMessage: string): (r: (Result<seq<Employee>, string>, State))
    requires |rows| >= 1
    ensures r.0.Failure? ==> r.1 == s
    ensures r.0.Success? ==> Persistable(r.1.employees) && r.1.periods == s.periods && SameEntriesRejoined(s.entries, r.1.entries)
  {
    var drafts := Drafted([], RowDrafter(s.employees, cols), rows[1..]);
    if drafts.Failure? then (Failure(UploadFailed(RUNTIME_EXCEPTION, drafts.error)), s)
    else
      var saved := SavedFrom([], s, drafts.value);
      if Persistable(saved.1.employees) then (Success(saved.0), saved.1)
      else (Failure(UploadFailed(INTEGRITY_VIOLATION, dbMessage)), s)
  }

  /** `uploadEmployees` on the repositories: the saved employees and the new contents, or the
      error with the contents unchanged. */
  function Uploaded(s: State, book: Workbook, hashOrder: set<string> -> seq<string>, dbMessage: string): (r: (Result<seq<Employee>, string>, State))
    requires ListsKeys(hashOrder)
    ensures r.0.Failure? ==> r.1 == s
    ensures r.0.Success? ==> Persistable(r.1.employees) && r.1.periods == s.periods && SameEntriesRejoined(s.entries, r.1.entries)
  {
    if book.Unreadable? then (Failure(UploadFailed(book.exception, book.message)), s)
    else
      var cols := SheetColumns(book.rows, hashOrder);
      if cols.Failure? then (Failure(UploadFailed(RUNTIME_EXCEPTION, cols.error)), s)
      else RowsUploaded(s, book.rows, cols.value, dbMessage)
  }

  /** The drafts of an upload's rows each have a category. */
  lemma DraftsCategorized(employees: seq<Employee>, cols: Columns, rows: seq<Option<SheetRow>>, i: nat)
    requires Drafted([], RowDrafter(employees, cols), rows).Success?
    requires i < |Drafted([], RowDrafter(employees, cols), rows).value|
    ensures Drafted([], RowDrafter(employees, cols), rows).value[i].employee.category.Some?
  {
    var k := DraftedFrom([], RowDrafter(employees, cols), rows, i);
    RowDrafterApplies(employees, cols, rows[k].value);
  }

  /** Every data row of an upload with a member id has its draft among the drafts. */
  lemma DraftsCoverRows(employees: seq<Employee>, cols: Columns, rows: seq<Option<SheetRow>>, k: nat)
    requires 1 <= k < |rows| && rows[k].Some? && MemberIdIn(rows[k].value, cols) != []
    requires Drafted([], RowDrafter(employees, cols), rows[1..]).Success?
    ensures RowDraft(employees, rows[k].value, cols).Success? && RowDraft(employees, rows[k].value, cols).value.Some?
    ensures RowDraft(employees, rows[k].value, cols).value.value in Drafted([], RowDrafter(employees, cols), rows[1..]).value
  {
    DataRowKept(RowDrafter(employees, cols), rows, k);
    RowDrafterApplies(employees, cols, rows[k].value);
  }

  /** Saving keeps each draft but for its id. */
  lemma SavedAnswers(s: State, drafts: seq<Draft>, e: Employee) returns (i: nat)
    requires e in SavedFrom([], s, drafts).0
    ensures i < |drafts| && e == drafts[i].employee.(id := e.id)
  {
    var saved := SavedFrom([], s, drafts).0;
    i :| 0 <= i < |saved| && saved[i] == e;
    assert saved[0 + i] == drafts[i].employee.(id := saved[0 + i].id);
  }

  /** A successful upload answers every data row that has a member id with the employee of that
      member id (the stored one, keeping its id, or a new one) with the row's columns written over
      it, and every employee it answers has a category. */
  lemma UploadAnswersEveryRow(s: State, rows: seq<Option<SheetRow>>, cols: Columns, dbMessage: string)
    requires |rows| >= 1 && RowsUploaded(s, rows, cols, dbMessage).0.Success?
    ensures var saved := RowsUploaded(s, rows, cols, dbMessage).0.value;
      && (forall e :: e in saved ==> e.category.Some?)
      && forall k :: 1 <= k < |rows| && rows[k].Some? && MemberIdIn(rows[k].value, cols) != [] ==>
           var base := RowBase(s.employees, MemberIdIn(rows[k].value, cols));
           exists e :: e in saved && RowApplied(rows[k].value, cols, base.(id := e.id), e)
                       && (EmployeeByMemberId(s.employees, MemberIdIn(rows[k].value, cols)).Some? ==> e.id == base.id)
  {
    var drafts := Drafted([], RowDrafter(s.employees, cols), rows[1..]).value;
    var saved := SavedFrom([], s, drafts).0;
    assert RowsUploaded(s, rows, cols, dbMessage).0.value == saved;
    forall e | e in saved ensures e.category.Some? {
      var i := SavedAnswers(s, drafts, e);
      DraftsCategorized(s.employees, cols, rows[1..], i);
    }
    forall k | 1 <= k < |rows| && rows[k].Some? && MemberIdIn(rows[k].value, cols) != []
      ensures var base := RowBase(s.employees, MemberIdIn(rows[k].value, cols));
        exists e :: e in saved && RowApplied(rows[k].value, cols, base.(id := e.id), e)
                    && (EmployeeByMemberId(s.employees, MemberIdIn(rows[k].value, cols)).Some? ==> e.id == base.id)
    {
      RowAnswered(s, rows, cols, k);
    }
  }

  /** One data row with a member id is answered by the saved form of its draft. */
  lemma RowAnswered(s: State, rows: seq<Option<SheetRow>>, cols: Columns, k: nat)
    requires 1 <= k < |rows| && rows[k].Some? && MemberIdIn(rows[k].value, cols) != []
    requires Drafted([], RowDrafter(s.employees, cols), rows[1..]).Success?
    ensures var saved := SavedFrom([], s, Drafted([], RowDrafter(s.employees, cols), rows[1..]).value).0;
      var base := RowBase(s.employees, MemberIdIn(rows[k].value, cols));
      exists e :: e in saved && RowApplied(rows[k].value, cols, base.(id := e.id), e)
                  && (EmployeeByMemberId(s.employees, MemberIdIn(rows[k].value, cols)).Some? ==> e.id == base.id)
  {
    var drafts := Drafted([], RowDrafter(s.employees, cols), rows[1..]).value;
    var saved := SavedFrom([], s, drafts).0;
    var base := RowBase(s.employees, MemberIdIn(rows[k].value, cols));
    DraftsCoverRows(s.employees, cols, rows, k);
    var d := RowDraft(s.employees, rows[k].value, cols).value.value;
    var i :| 0 <= i < |drafts| && drafts[i] == d;
    var e := saved[0 + i];
    assert e == d.employee.(id := e.id);
    assert RowApplied(rows[k].value, cols, base.(id := e.id), e);
  }

  /** A data row with an identifier that a stored employee of another member id holds fails the
      whole upload, and nothing is saved. */
  lemma UploadRefusesTakenIdentifier(s: State, rows: seq<Option<SheetRow>>, cols: Columns, dbMessage: string, k: nat, f: Identifier)
    requires 1 <= k < |rows| && rows[k].Some?
    requires var row := rows[k].value;
      && MemberIdIn(row, cols) != [] && ColumnOf(cols, f).Some? && ValueAt(row, ColumnOf(cols, f).value) != []
      && HolderOf(s.employees, f, ValueAt(row, ColumnOf(cols, f).value)).Some?
      && s.employees[HolderOf(s.employees, f, ValueAt(row, ColumnOf(cols, f).value)).value].memberId != MemberIdIn(row, cols)
    ensures RowsUploaded(s, rows, cols, dbMessage).0.Failure?
    ensures RowsUploaded(s, rows, cols, dbMessage).1 == s
  {
    RowDraftRefuses(s.employees, rows[k].value, cols, f);
    RowDrafterApplies(s.employees, cols, rows[k].value);
    DataRowFails(RowDrafter(s.employees, cols), rows, k);
  }

  /** Saving drafts keeps every entry seeing a stored employee. */
  lemma {:induction false} SavedFromKeepsCurrent(saved: seq<Employee>, s: State, drafts: seq<Draft>)
    requires EntriesCurrent(s.employees, s.entries)
    ensures var after := SavedFrom(saved, s, drafts).1; EntriesCurrent(after.employees, after.entries)
    decreases |drafts|
  {
    if drafts != [] {
      var d := drafts[0];
      if d.isNew {
        AppendEmployeeKeepsCurrent(s.employees, s.entries, d.employee.(id := s.nextId));
      } else {
        SaveEmployeeKeepsCurrent(s.employees, s.entries, d.employee);
      }
      var step := DraftSaved(s, d);
      SavedFromKeepsCurrent(saved + [step.0], step.1, drafts[1..]);
    }
  }

  /** After an upload every entry still sees a stored employee: an entry of an employee the
      upload changed sees the changed version. */
  lemma UploadKeepsEntriesCurrent(s: State, book: Workbook, hashOrder: set<string> -> seq<string>, dbMessage: string)
    requires ListsKeys(hashOrder)
    requires EntriesCurrent(s.employees, s.entries)
    ensures var after := Uploaded(s, book, hashOrder, dbMessage).1; EntriesCurrent(after.employees, after.entries)
  {
    if book.FirstSheet? && SheetColumns(book.rows, hashOrder).Success? {
      var cols := SheetColumns(book.rows, hashOrder).value;
      var drafts := Drafted([], RowDrafter(s.employees, cols), book.rows[1..]);
      if drafts.Success? {
        var saved := SavedFrom([], s, drafts.value);
        SavedFromKeepsCurrent([], s, drafts.value);
        assert Uploaded(s, book, hashOrder, dbMessage).1 == if Persistable(saved.1.employees) then saved.1 else s;
      }
    }
  }

  /** Rejoining entries to a saved employee keeps each entry's id, period and employee id. */
  lemma RejoinedKeepsKeys(entries: seq<Entry>, e: Employee)
    ensures SameEntriesRejoined(entries, Rejoined(entries, e))
    ensures EntryIdsDistinct(entries) ==> EntryIdsDistinct(Rejoined(entries, e))
    ensures OneEntryPerEmployee(entries) ==> OneEntryPerEmployee(Rejoined(entries, e))
  {
  }

  /** A stored draft carries the id of a stored employee. */
  predicate StoredIdsKnown(employees: seq<Employee>, drafts: seq<Draft>) {
    forall i :: 0 <= i < |drafts| && !drafts[i].isNew ==> EmployeeById(employees, drafts[i].employee.id).Some?
  }

  /** Saving one draft keeps the repositories well formed, when a stored draft carries a stored id;
      every stored employee keeps its place and id. */
  lemma DraftSavedKeepsWellFormed(s: State, d: Draft)
    requires PayrollRecords.StateWellFormed(s)
    requires !d.isNew ==> EmployeeById(s.employees, d.employee.id).Some?
    ensures var after := DraftSaved(s, d).1;
      && PayrollRecords.StateWellFormed(after) && after.nextId >= s.nextId && |after.employees| >= |s.employees|
      && forall i :: 0 <= i < |s.employees| ==> after.employees[i].id == s.employees[i].id
  {
    var (e, after) := DraftSaved(s, d);
    RejoinedKeepsKeys(s.entries, e);
    if d.isNew {
      AppendEmployeeKeepsCurrent(s.employees, s.entries, e);
      assert after.employees == s.employees + [e];
    } else {
      var k := EmployeeById(s.employees, e.id).value;
      SaveEmployeeKeepsCurrent(s.employees, s.entries, e);
      assert after.employees == s.employees[k := e];
    }
  }

  /** Saving drafts keeps the repositories well formed, when every stored draft carries a stored id. */
  lemma {:induction false} SavedFromKeepsWellFormed(saved: seq<Employee>, s: State, drafts: seq<Draft>)
    requires PayrollRecords.StateWellFormed(s) && StoredIdsKnown(s.employees, drafts)
    ensures PayrollRecords.StateWellFormed(SavedFrom(saved, s, drafts).1)
    decreases |drafts|
  {
    if drafts != [] {
      var after := DraftSaved(s, drafts[0]).1;
      DraftSavedKeepsWellFormed(s, drafts[0]);
      forall i | 0 <= i < |drafts[1..]| && !drafts[1..][i].isNew
        ensures EmployeeById(after.employees, drafts[1..][i].employee.id).Some?
      {
        var x := drafts[1..][i].employee.id;
        assert drafts[1..][i] == drafts[i + 1];
        var k := EmployeeById(s.employees, x).value;
        assert after.employees[k].id == x;
      }
      SavedFromKeepsWellFormed(saved + [DraftSaved(s, drafts[0]).0], after, drafts[1..]);
    }
  }

  /** Every stored draft of an upload carries the id of a stored employee. */
  lemma DraftsKnowStoredIds(employees: seq<Employee>, cols: Columns, rows: seq<Option<SheetRow>>)
    requires Drafted([], RowDrafter(employees, cols), rows).Success?
    ensures StoredIdsKnown(employees, Drafted([], RowDrafter(employees, cols), rows).value)
  {
    var drafts := Drafted([], RowDrafter(employees, cols), rows).value;
    forall i | 0 <= i < |drafts| && !drafts[i].isNew ensures EmployeeById(employees, drafts[i].employee.id).Some? {
      var k := DraftedFrom([], RowDrafter(employees, cols), rows, i);
      RowDrafterApplies(employees, cols, rows[k].value);
      var found := EmployeeByMemberId(employees, MemberIdIn(rows[k].value, cols)).value;
      assert employees[found].id == drafts[i].employee.id;
    }
  }

  /** An upload keeps the repositories well formed: new employees take fresh ids, a stored one
      keeps its id, and every entry is joined to the employee as saved. */
  lemma UploadKeepsWellFormed(s: State, book: Workbook, hashOrder: set<string> -> seq<string>, dbMessage: string)
    requires ListsKeys(hashOrder)
    requires PayrollRecords.StateWellFormed(s)
    ensures PayrollRecords.StateWellFormed(Uploaded(s, book, hashOrder, dbMessage).1)
  {
    if book.FirstSheet? && SheetColumns(book.rows, hashOrder).Success? {
      RowsUploadedKeepsWellFormed(s, book.rows, SheetColumns(book.rows, hashOrder).value, dbMessage);
    }
  }

  /** A successful upload's employee table: the stored employees in their places, unchanged
      unless a stored draft is saved over them, then the new employees in row order. */
  lemma RowsUploadedLayout(s: State, rows: seq<Option<SheetRow>>, cols: Columns, dbMessage: string)
    requires |rows| >= 1 && PayrollRecords.StateWellFormed(s)
    requires RowsUploaded(s, rows, cols, dbMessage).0.Success?
    ensures var drafts := Drafted([], RowDrafter(s.employees, cols), rows[1..]).value;
      var after := RowsUploaded(s, rows, cols, dbMessage).1;
      && |after.employees| == |s.employees| + |NewlySaved(drafts, s.nextId)|
      && after.employees[|s.employees|..] == NewlySaved(drafts, s.nextId)
      && forall i :: 0 <= i < |s.employees| && Untouched(drafts, s.employees[i].id) ==> after.employees[i] == s.employees[i]
  {
    var drafts := Drafted([], RowDrafter(s.employees, cols), rows[1..]).value;
    DraftsKnowStoredIds(s.employees, cols, rows[1..]);
    SavedFromTable([], s, drafts);
    EmployeesSavedLayout(s.employees, drafts, s.nextId);
  }

  /** A successful upload leaves every stored employee whose member id no data row carries as it
      was. */
  lemma UploadKeepsUnnamed(s: State, book: Workbook, hashOrder: set<string> -> seq<string>, dbMessage: string, i: nat)
    requires ListsKeys(hashOrder) && PayrollRecords.StateWellFormed(s)
    requires Uploaded(s, book, hashOrder, dbMessage).0.Success?
    requires book.FirstSheet? && SheetColumns(book.rows, hashOrder).Success? && i < |s.employees|
    requires forall k :: 1 <= k < |book.rows| && book.rows[k].Some? ==>
               MemberIdIn(book.rows[k].value, SheetColumns(book.rows, hashOrder).value) != s.employees[i].memberId
    ensures var after := Uploaded(s, book, hashOrder, dbMessage).1;
      i < |after.employees| && after.employees[i] == s.employees[i]
  {
    var rows := book.rows;
    var cols := SheetColumns(rows, hashOrder).value;
    assert Uploaded(s, book, hashOrder, dbMessage) == RowsUploaded(s, rows, cols, dbMessage);
    UnnamedUntouched(s, rows, cols, i);
    RowsUploadedLayout(s, rows, cols, dbMessage);
  }

  /** No stored draft of the rows is saved over an employee whose member id no row carries. */
  lemma UnnamedUntouched(s: State, rows: seq<Option<SheetRow>>, cols: Columns, i: nat)
    requires |rows| >= 1 && i < |s.employees| && EmployeeIdsDistinct(s.employees)
    requires Drafted([], RowDrafter(s.employees, cols), rows[1..]).Success?
    requires forall k :: 1 <= k < |rows| && rows[k].Some? ==> MemberIdIn(rows[k].value, cols) != s.employees[i].memberId
    ensures Untouched(Drafted([], RowDrafter(s.employees, cols), rows[1..]).value, s.employees[i].id)
  {
    var step := RowDrafter(s.employees, cols);
    var drafts := Drafted([], step, rows[1..]).value;
    forall j | 0 <= j < |drafts| && !drafts[j].isNew ensures drafts[j].employee.id != s.employees[i].id {
      var k := DraftedFrom([], step, rows[1..], j);
      var row := rows[1..][k].value;
      assert rows[k + 1] == rows[1..][k];
      RowDrafterApplies(s.employees, cols, row);
      var found := EmployeeByMemberId(s.employees, MemberIdIn(row, cols)).value;
      assert s.employees[found].memberId == MemberIdIn(row, cols) != s.employees[i].memberId;
      assert found != i;
      assert s.employees[found].id != s.employees[i].id;
    }
  }

  /** The rows of an upload keep the repositories well formed, whether they are saved or not. */
  lemma RowsUploadedKeepsWellFormed(s: State, rows: seq<Option<SheetRow>>, cols: Columns, dbMessage: string)
    requires |rows| >= 1 && PayrollRecords.StateWellFormed(s)
    ensures PayrollRecords.StateWellFormed(RowsUploaded(s, rows, cols, dbMessage).1)
  {
    var drafts := Drafted([], RowDrafter(s.employees, cols), rows[1..]);
    if drafts.Success? {
      DraftsKnowStoredIds(s.employees, cols, rows[1..]);
      SavedFromKeepsWellFormed([], s, drafts.value);
    }
  }

  /** A successful upload removes no stored employee. */
  lemma UploadKeepsStored(s: State, rows: seq<Option<SheetRow>>, cols: Columns, dbMessage: string)
    requires |rows| >= 1 && RowsUploaded(s, rows, cols, dbMessage).0.Success?
    ensures var after := RowsUploaded(s, rows, cols, dbMessage).1;
      |after.employees| >= |s.employees| && forall i :: 0 <= i < |s.employees| ==> after.employees[i].id == s.employees[i].id
  {
    var drafts := Drafted([], RowDrafter(s.employees, cols), rows[1..]).value;
    var saved := SavedFrom([], s, drafts);
  }

  // ---------------------------------------------------------------------------
  // The upload, step by step
  // ---------------------------------------------------------------------------

  /** The header loop: each present cell's header, read by `read`, put in the map and added to
      the list. */
  method ReadHeaders<C>(cells: seq<Option<C>>, read: Option<C> -> string) returns (columns: map<string, nat>, found: seq<string>)
    ensures columns == ColumnMap(Headers(cells, read))
    ensures found == HeaderNames(Headers(cells, read))
  {
    columns, found := map[], [];
    var c := 0;
    while c < |cells|
      invariant c <= |cells|
      invariant columns == ColumnMap(Headers(cells[..c], read))
      invariant found == HeaderNames(Headers(cells[..c], read))
    {
      ghost var hs := Headers(cells[..c], read);
      assert cells[..c + 1][..c] == cells[..c];
      if cells[c].Some? {
        var header := read(cells[c]);
        assert (hs + [(header, c)])[..|hs|] == hs;
        columns := columns[header := c];
        found := found + [header];
      } else {
        assert hs + [] == hs;
      }
      c := c + 1;
    }
    assert cells[..c] == cells;
  }

  /** The body of the row loop: the employee found or created, then updated column by column. */
  method DraftRow(employees: seq<Employee>, row: SheetRow, cols: Columns) returns (r: Result<Option<Draft>, string>)
    ensures r == RowDraft(employees, row, cols)
  {
    var memberId := ValueAt(row, cols.memberId);
    if memberId == [] {
      return Success(None);
    }
    var found := EmployeeByMemberId(employees, memberId);
    var emp := if found.Some? then employees[found.value] else NewEmployee(memberId);
    if cols.name.Some? {
      emp := emp.(fullName := Some(ValueAt(row, cols.name.value)));
    }
    var checked := IdentifierSet(employees, emp, Uan, cols.uan, row);
    if checked.Failure? {
      return Failure(checked.error);
    }
    checked := IdentifierSet(employees, checked.value, Ip, cols.ip, row);
    if checked.Failure? {
      return Failure(checked.error);
    }
    checked := IdentifierSet(employees, checked.value, BankAccount, cols.bankAccount, row);
    if checked.Failure? {
      return Failure(checked.error);
    }
    emp := checked.value;
    if cols.ifsc.Some? {
      emp := emp.(ifscCode := Some(ValueAt(row, cols.ifsc.value)));
    }
    var categoryText := if cols.category.Some? then Some(ValueAt(row, cols.category.value)) else None;
    r := Success(Some(Draft(found.None?, Categorized(emp, categoryText))));
  }

  lemma RowDrafterApplies(employees: seq<Employee>, cols: Columns, row: SheetRow)
    ensures RowDrafter(employees, cols)(row) == RowDraft(employees, row, cols)
  {
  }

  /** Row `i` taken off the rows still to draft. */
  lemma DraftedNext(acc: seq<Draft>, step: SheetRow -> Result<Option<Draft>, string>, rows: seq<Option<SheetRow>>, i: nat)
    requires i < |rows|
    ensures Drafted(acc, step, rows[i..])
         == if rows[i].None? then Drafted(acc, step, rows[i + 1..])
            else if step(rows[i].value).Failure? then Failure(step(rows[i].value).error)
            else Drafted(acc + (if step(rows[i].value).value.Some? then [step(rows[i].value).value.value] else []), step, rows[i + 1..])
  {
    assert rows[i..][0] == rows[i] && rows[i..][1..] == rows[i + 1..];
  }

  /** The row loop: rows 1 to the last, skipping missing ones, stopping at the first error. */
  method DraftRows(employees: seq<Employee>, rows: seq<Option<SheetRow>>, cols: Columns) returns (r: Result<seq<Draft>, string>)
    requires |rows| >= 1
    ensures r == Drafted([], RowDrafter(employees, cols), rows[1..])
  {
    ghost var step := RowDrafter(employees, cols);
    var drafts: seq<Draft> := [];
    var i := 1;
    while i < |rows|
      invariant 1 <= i <= |rows|
      invariant Drafted([], step, rows[1..]) == Drafted(drafts, step, rows[i..])
    {
      DraftedNext(drafts, step, rows, i);
      if rows[i].Some? {
        var d := DraftRow(employees, rows[i].value, cols);
        RowDrafterApplies(employees, cols, rows[i].value);
        if d.Failure? {
          return Failure(d.error);
        }
        if d.value.Some? {
          drafts := drafts + [d.value.value];
        } else {
          assert drafts + [] == drafts;
        }
      }
      i := i + 1;
    }
    r := Success(drafts);
  }

  /** Draft `i` taken off the drafts still to save. */
  lemma SavedNext(saved: seq<Employee>, s: State, drafts: seq<Draft>, i: nat)
    requires i < |drafts|
    ensures SavedFrom(saved, s, drafts[i..])
         == SavedFrom(saved + [DraftSaved(s, drafts[i]).0], DraftSaved(s, drafts[i]).1, drafts[i + 1..])
  {
    assert drafts[i..][0] == drafts[i] && drafts[i..][1..] == drafts[i + 1..];
  }

  /** `save` of one draft. */
  method SaveDraft(store: Repositories, d: Draft) returns (e: Employee)
    modifies store
    ensures (e, store.Snapshot()) == DraftSaved(old(store.Snapshot()), d)
  {
    e := d.employee;
    if d.isNew {
      var id := store.FreshId();
      e := e.(id := id);
      store.employees := store.employees + [e];
      store.entries := Rejoined(store.entries, e);
    } else {
      store.StoreEmployee(e);
    }
  }

  /** `saveAll`, one draft at a time. */
  method SaveDrafts(store: Repositories, drafts: seq<Draft>) returns (saved: seq<Employee>)
    modifies store
    ensures (saved, store.Snapshot()) == SavedFrom([], old(store.Snapshot()), drafts)
  {
    ghost var goal := SavedFrom([], store.Snapshot(), drafts);
    saved := [];
    var i := 0;
    while i < |drafts|
      invariant i <= |drafts|
      invariant goal == SavedFrom(saved, store.Snapshot(), drafts[i..])
    {
      SavedNext(saved, store.Snapshot(), drafts, i);
      var e := SaveDraft(store, drafts[i]);
      saved := saved + [e];
      i := i + 1;
    }
  }

  /** `uploadEmployees`: the header row, the column lookups, the row loop and the final save,
      undone when the table refuses it. */
  method UploadEmployees(store: Repositories, book: Workbook, hashOrder: set<string> -> seq<string>, dbMessage: string)
    returns (response: Result<seq<Employee>, string>)
    requires ListsKeys(hashOrder)
    modifies store
    ensures (response, store.Snapshot()) == Uploaded(old(store.Snapshot()), book, hashOrder, dbMessage)
  {
    if book.Unreadable? {
      return Failure(UploadFailed(book.exception, book.message));
    }
    var rows := book.rows;
    if |rows| == 0 || rows[0].None? {
      return Failure(UploadFailed(RUNTIME_EXCEPTION, NO_HEADERS));
    }
    var columns, found := ReadHeaders(rows[0].value.cells, HeaderText);
    var order := hashOrder(columns.Keys);
    var memberIdIdx := FindColumn(columns, order, MEMBER_ID_KEYS);
    var nameIdx := FindColumn(columns, order, NAME_KEYS);
    var uanIdx := FindColumn(columns, order, UAN_KEYS);
    var ipIdx := FindColumn(columns, order, IP_KEYS);
    var bankIdx := FindColumn(columns, order, BANK_KEYS);
    var ifscIdx := FindColumn(columns, order, IFSC_KEYS);
    var catIdx := FindColumn(columns, order, CATEGORY_KEYS);
    if memberIdIdx.None? {
      return Failure(UploadFailed(RUNTIME_EXCEPTION, MISSING_MEMBER_ID + ListText(found)));
    }
    var cols := Columns(memberIdIdx.value, nameIdx, uanIdx, ipIdx, bankIdx, ifscIdx, catIdx);
    response := UploadRows(store, rows, cols, dbMessage);
  }

  /** The row loop and the final save, undone when the table refuses it. */
  method UploadRows(store: Repositories, rows: seq<Option<SheetRow>>, cols: Columns, dbMessage: string)
    returns (response: Result<seq<Employee>, string>)
    requires |rows| >= 1
    modifies store
    ensures (response, store.Snapshot()) == RowsUploaded(old(store.Snapshot()), rows, cols, dbMessage)
  {
    var drafts := DraftRows(store.employees, rows, cols);
    if drafts.Failure? {
      return Failure(UploadFailed(RUNTIME_EXCEPTION, drafts.error));
    }
    var employeesBefore, entriesBefore, nextIdBefore := store.employees, store.entries, store.nextId;
    var saved := SaveDrafts(store, drafts.value);
    if Persistable(store.employees) {
      response := Success(saved);
    } else {
      store.employees, store.entries, store.nextId := employeesBefore, entriesBefore, nextIdBefore;
      response := Failure(UploadFailed(INTEGRITY_VIOLATION, dbMessage));
    }
  }
}
