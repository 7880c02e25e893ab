/** The three repositories the payroll code reads and writes (employees, periods, entries), held
    as sequences in the database's listing order, with the lookups the code uses. Identifiers are
    drawn from a counter in place of random UUIDs. */
module Store {
  import opened Wrappers
  import opened Entities

  /** The position of the first element satisfying `p`. */
  function FirstIndex<T>(s: seq<T>, p: T -> bool): (r: Option<nat>)
    ensures r.Some? ==> r.value < |s| && p(s[r.value]) && forall k :: 0 <= k < r.value ==> !p(s[k])
    ensures r.None? <==> forall k :: 0 <= k < |s| ==> !p(s[k])
  {
    if s == [] then None
    else if p(s[0]) then Some(0)
    else
      var rest := FirstIndex(s[1..], p);
      assert forall k :: 1 <= k < |s| ==> s[k] == s[1..][k - 1];
      if rest.None? then None else Some(rest.value + 1)
  }

  /** The first match is the one found. */
  lemma FirstIndexAt<T>(s: seq<T>, p: T -> bool, k: nat)
    requires k < |s| && p(s[k]) && forall j :: 0 <= j < k ==> !p(s[j])
    ensures FirstIndex(s, p) == Some(k)
  {
  }

  function PeriodById(periods: seq<Period>, id: nat): Option<nat> {
    FirstIndex(periods, (p: Period) => p.id == id)
  }

  /** `findById(periodId)` on the period repository: the stored period with that id, if any. */
  function PeriodWithId(periods: seq<Period>, id: nat): (r: Option<Period>)
    ensures r.Some? ==> r.value in periods && r.value.id == id
    ensures r.None? <==> forall k :: 0 <= k < |periods| ==> periods[k].id != id
  {
    var k := PeriodById(periods, id);
    if k.None? then None else Some(periods[k.value])
  }

  /** With distinct ids, the period stored under an id is the one `findById` answers. */
  lemma PeriodWithIdFinds(periods: seq<Period>, k: nat)
    requires PeriodIdsDistinct(periods) && k < |periods|
    ensures PeriodWithId(periods, periods[k].id) == Some(periods[k])
  {
    FirstIndexAt(periods, (p: Period) => p.id == periods[k].id, k);
  }

  /** In a store where every entry has an employee, so do the entries `findByPeriodId` answers. */
  lemma PeriodEntriesHaveEmployees(entries: seq<Entry>, periodId: nat)
    requires OneEntryPerEmployee(entries)
    ensures AllHaveEmployees(EntriesOfPeriod(entries, periodId))
  {
    EntriesOfPeriodMembers(entries, periodId);
    var r := EntriesOfPeriod(entries, periodId);
    forall i | 0 <= i < |r| ensures r[i].employee.Some? {
      assert r[i] in entries;
    }
  }

  /** The exceptions `orElseThrow()` and `YearMonth.of` throw, by class name. */
  const NO_SUCH_ELEMENT: string := "NoSuchElementException"
  const DATE_TIME_EXCEPTION: string := "DateTimeException"

  /** `findByMonthAndYear`. */
  function PeriodByMonth(periods: seq<Period>, month: int, year: int): Option<nat> {
    FirstIndex(periods, (p: Period) => p.month == month && p.year == year)
  }

  function EntryById(entries: seq<Entry>, id: nat): Option<nat> {
    FirstIndex(entries, (e: Entry) => e.id == id)
  }

  /** `findByPeriodIdAndEmployeeId`. */
  function EntryOf(entries: seq<Entry>, periodId: nat, employeeId: nat): Option<nat> {
    FirstIndex(entries, (e: Entry) => e.periodId == periodId && e.employee.Some? && e.employee.value.id == employeeId)
  }

  function EmployeeByMemberId(employees: seq<Employee>, memberId: string): Option<nat> {
    FirstIndex(employees, (e: Employee) => e.memberId == memberId)
  }

  /** `findById` of an employee. */
  function EmployeeById(employees: seq<Employee>, id: nat): Option<nat> {
    FirstIndex(employees, (e: Employee) => e.id == id)
  }

  /** `save` of an employee: replaces the stored employee with the same id, or adds a new one. */
  function SaveEmployee(employees: seq<Employee>, e: Employee): (r: seq<Employee>)
    ensures EmployeeById(employees, e.id).Some? ==> r == employees[EmployeeById(employees, e.id).value := e]
    ensures EmployeeById(employees, e.id).None? ==> r == employees + [e]
  {
    var k := EmployeeById(employees, e.id);
    if k.Some? then employees[k.value := e] else employees + [e]
  }

  /** The entries as they read once `e` is saved: an entry is joined to its employee by id, so an
      entry of the employee with e's id now sees `e`. */
  function Rejoined(entries: seq<Entry>, e: Employee): (r: seq<Entry>)
    ensures |r| == |entries|
    ensures forall i :: 0 <= i < |entries| ==>
      r[i] == (if entries[i].employee.Some? && entries[i].employee.value.id == e.id then entries[i].(employee := Some(e)) else entries[i])
  {
    seq(|entries|, i requires 0 <= i < |entries| =>
      if entries[i].employee.Some? && entries[i].employee.value.id == e.id then entries[i].(employee := Some(e)) else entries[i])
  }

  /** `save` of an entry: replaces the stored entry with the same id, or adds a new one. */
  function SaveEntry(entries: seq<Entry>, e: Entry): (r: seq<Entry>)
    ensures EntryById(entries, e.id).Some? ==> r == entries[EntryById(entries, e.id).value := e]
    ensures EntryById(entries, e.id).None? ==> r == entries + [e]
  {
    var k := EntryById(entries, e.id);
    if k.Some? then entries[k.value := e] else entries + [e]
  }

  /** `save` of a period. */
  function SavePeriod(periods: seq<Period>, p: Period): (r: seq<Period>)
    ensures PeriodById(periods, p.id).Some? ==> r == periods[PeriodById(periods, p.id).value := p]
    ensures PeriodById(periods, p.id).None? ==> r == periods + [p]
  {
    var k := PeriodById(periods, p.id);
    if k.Some? then periods[k.value := p] else periods + [p]
  }

  // ---------------------------------------------------------------------------
  // What the database guarantees
  // ---------------------------------------------------------------------------

  predicate PeriodIdsDistinct(periods: seq<Period>) {
    forall i, j :: 0 <= i < j < |periods| ==> periods[i].id != periods[j].id
  }

  /** The unique constraint on (period_month, period_year). */
  predicate MonthsDistinct(periods: seq<Period>) {
    forall i, j :: 0 <= i < j < |periods| ==> !(periods[i].month == periods[j].month && periods[i].year == periods[j].year)
  }

  predicate EntryIdsDistinct(entries: seq<Entry>) {
    forall i, j :: 0 <= i < j < |entries| ==> entries[i].id != entries[j].id
  }

  /** Every entry has an employee, and no employee has two entries in one period. */
  predicate OneEntryPerEmployee(entries: seq<Entry>) {
    && (forall i :: 0 <= i < |entries| ==> entries[i].employee.Some?)
    && (forall i, j :: 0 <= i < j < |entries| ==>
          !(entries[i].periodId == entries[j].periodId && entries[i].employee.value.id == entries[j].employee.value.id))
  }

  predicate EmployeeIdsDistinct(employees: seq<Employee>) {
    forall i, j :: 0 <= i < j < |employees| ==> employees[i].id != employees[j].id
  }

  /** Every entry sees a stored employee: the copy an entry holds is the stored employee with its id. */
  predicate EntriesCurrent(employees: seq<Employee>, entries: seq<Entry>) {
    forall i :: 0 <= i < |entries| && entries[i].employee.Some? ==> entries[i].employee.value in employees
  }

  /** Saving an employee, and rejoining the entries to it, keeps every entry seeing a stored employee. */
  lemma SaveEmployeeKeepsCurrent(employees: seq<Employee>, entries: seq<Entry>, e: Employee)
    requires EntriesCurrent(employees, entries)
    ensures EntriesCurrent(SaveEmployee(employees, e), Rejoined(entries, e))
  {
    var after := SaveEmployee(employees, e);
    var k := EmployeeById(employees, e.id);
    assert e in after by {
      if k.Some? { assert after[k.value] == e; } else { assert after[|employees|] == e; }
    }
    forall x | x in employees && x.id != e.id ensures x in after {
      var j :| 0 <= j < |employees| && employees[j] == x;
      assert after[j] == x;
    }
  }

  /** Appending a new employee, and rejoining the entries to it, keeps every entry seeing a stored employee. */
  lemma AppendEmployeeKeepsCurrent(employees: seq<Employee>, entries: seq<Entry>, e: Employee)
    requires EntriesCurrent(employees, entries)
    ensures EntriesCurrent(employees + [e], Rejoined(entries, e))
  {
    assert e == (employees + [e])[|employees|];
  }

  /** Saving an entry under its own id changes no other entry, and keeps ids distinct. */
  lemma SaveEntryKeepsIds(entries: seq<Entry>, e: Entry)
    requires EntryIdsDistinct(entries)
    ensures EntryIdsDistinct(SaveEntry(entries, e))
    ensures |SaveEntry(entries, e)| == |entries| + (if EntryById(entries, e.id).Some? then 0 else 1)
    ensures e in SaveEntry(entries, e)
    ensures forall x :: x in entries && x.id != e.id ==> x in SaveEntry(entries, e)
  {
    var k := EntryById(entries, e.id);
    var r := SaveEntry(entries, e);
    forall x | x in entries && x.id != e.id ensures x in r {
      var i :| 0 <= i < |entries| && entries[i] == x;
      assert r[i] == x;
    }
    if k.None? {
      assert r[|entries|] == e;
    } else {
      assert r[k.value] == e;
    }
  }

  /** The contents of the repositories at one moment. */
  datatype State = State(employees: seq<Employee>, periods: seq<Period>, entries: seq<Entry>, nextId: nat)

  /** The repositories. */
  class Repositories {
    var employees: seq<Employee>
    var periods: seq<Period>
    var entries: seq<Entry>
    var nextId: nat

    constructor (employees: seq<Employee>, periods: seq<Period>, entries: seq<Entry>, nextId: nat)
      ensures this.employees == employees && this.periods == periods && this.entries == entries
      ensures this.nextId == nextId
    {
      this.employees := employees;
      this.periods := periods;
      this.entries := entries;
      this.nextId := nextId;
    }

    function Snapshot(): State
      reads this
    {
      State(employees, periods, entries, nextId)
    }

    /** A fresh identifier, as `@GeneratedValue` draws one on the first save. */
    method FreshId() returns (id: nat)
      modifies this
      ensures id == old(nextId) && nextId == old(nextId) + 1
      ensures employees == old(employees) && periods == old(periods) && entries == old(entries)
    {
      id := nextId;
      nextId := nextId + 1;
    }

    method StoreEntry(e: Entry)
      modifies this
      ensures entries == SaveEntry(old(entries), e)
      ensures employees == old(employees) && periods == old(periods) && nextId == old(nextId)
    {
      entries := SaveEntry(entries, e);
    }

    /** `save` of an employee; the entries joined to it see the new version. */
    method StoreEmployee(e: Employee)
      modifies this
      ensures employees == SaveEmployee(old(employees), e) && entries == Rejoined(old(entries), e)
      ensures periods == old(periods) && nextId == old(nextId)
    {
      employees := SaveEmployee(employees, e);
      entries := Rejoined(entries, e);
    }

    method StorePeriod(p: Period)
      modifies this
      ensures periods == SavePeriod(old(periods), p)
      ensures employees == old(employees) && entries == old(entries) && nextId == old(nextId)
    {
      periods := SavePeriod(periods, p);
    }
  }
}
