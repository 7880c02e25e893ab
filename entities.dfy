/** The persistent records of the payroll system: employees, monthly payroll periods and the
    per-employee payroll entries of a period. Identifiers (UUIDs in the database) are numbers. */
module Entities {
  import opened Wrappers
  import Text

  // ---------------------------------------------------------------------------
  // Calendar
  // ---------------------------------------------------------------------------

  datatype Date = Date(year: int, month: int, day: int)

  predicate IsLeapYear(year: int) {
    (year % 4 == 0 && year % 100 != 0) || year % 400 == 0
  }

  /** `YearMonth.lengthOfMonth()` in the proleptic Gregorian calendar. */
  function DaysInMonth(year: int, month: int): (n: nat)
    requires 1 <= month <= 12
    ensures 28 <= n <= 31
    ensures month == 2 ==> (n == 29 <==> IsLeapYear(year))
    ensures month != 2 ==> (n == 30 <==> month in {4, 6, 9, 11})
  {
    if month == 2 then (if IsLeapYear(year) then 29 else 28)
    else if month in {4, 6, 9, 11} then 30
    else 31
  }

  /** A `LocalDate` whose year prints as four digits. */
  predicate ValidDate(d: Date) {
    1 <= d.year <= 9999 && 1 <= d.month <= 12 && 1 <= d.day <= DaysInMonth(d.year, d.month)
  }

  type CalendarDate = d: Date | ValidDate(d) witness Date(2000, 1, 1)

  /** `a.isBefore(b)`. */
  predicate Before(a: Date, b: Date) {
    a.year < b.year || (a.year == b.year && (a.month < b.month || (a.month == b.month && a.day < b.day)))
  }

  function PadDigits(n: nat, width: nat): (r: string)
    requires 1 <= width && n < Text.Pow10(width)
    ensures |r| == width
    ensures Text.AllDigits(r) && Text.DigitsValue(r) == n
  {
    var digits := Text.NatToString(n);
    Text.DigitsOfNatToString(n);
    Text.NatToStringLength(n, width);
    if |digits| < width then
      LeadingZeros(width - |digits|, digits);
      Zeros(width - |digits|) + digits
    else digits
  }

  function Zeros(k: nat): (r: string)
    ensures |r| == k && Text.AllDigits(r) && Text.DigitsValue(r) == 0
  {
    if k == 0 then [] else
      var z := Zeros(k - 1);
      assert (z + "0")[..k - 1] == z;
      z + "0"
  }

  lemma {:induction false} LeadingZeros(k: nat, digits: string)
    requires Text.AllDigits(digits)
    ensures Text.AllDigits(Zeros(k) + digits)
    ensures Text.DigitsValue(Zeros(k) + digits) == Text.DigitsValue(digits)
    decreases |digits|
  {
    var s := Zeros(k) + digits;
    if digits != [] {
      assert s[..|s| - 1] == Zeros(k) + digits[..|digits| - 1];
      LeadingZeros(k, digits[..|digits| - 1]);
    } else {
      assert s == Zeros(k);
    }
  }

  /** `DateTimeFormatter.ofPattern("dd/MM/yyyy")`: two-digit day and month, four-digit year. */
  function FormatDate(d: CalendarDate): (r: string)
    ensures |r| == 10 && r[2] == '/' && r[5] == '/'
    ensures Text.AllDigits(r[..2]) && Text.DigitsValue(r[..2]) == d.day
    ensures Text.AllDigits(r[3..5]) && Text.DigitsValue(r[3..5]) == d.month
    ensures Text.AllDigits(r[6..]) && Text.DigitsValue(r[6..]) == d.year
  {
    assert Text.Pow10(2) == 100 && Text.Pow10(4) == 10000;
    var dd, mm, yyyy := PadDigits(d.day, 2), PadDigits(d.month, 2), PadDigits(d.year, 4);
    var r := dd + "/" + mm + "/" + yyyy;
    assert r[..2] == dd && r[3..5] == mm && r[6..] == yyyy;
    r
  }

  // ---------------------------------------------------------------------------
  // Records
  // ---------------------------------------------------------------------------

  /** Casual labour (paid per day worked) and head-load workers (paid by the wage entered). */
  datatype Category = CL | HL

  datatype EmployeeStatus = Active | Inactive

  datatype PeriodStatus = Open | Closed

  /** An employee; the member id, UAN, IP number and bank account are unique across employees. */
  datatype Employee = Employee(
    id: nat,
    memberId: string,
    fullName: Option<string>,
    uanNumber: Option<string>,
    ipNumber: Option<string>,
    bankAccountNo: Option<string>,
    ifscCode: Option<string>,
    status: EmployeeStatus,
    inactiveDate: Option<CalendarDate>,
    category: Option<Category>)

  /** One payroll month; at most one period per (month, year). */
  datatype Period = Period(
    id: nat,
    month: int,
    year: int,
    lastWorkingDay: Option<CalendarDate>,
    status: PeriodStatus)

  /** One employee's payroll for one period. Amounts are paise; the three inputs may be null
      (`None`), the six derived amounts are always set. */
  datatype Entry = Entry(
    id: nat,
    periodId: nat,
    employee: Option<Employee>,
    activeDays: set<int>,
    daysWorked: Option<int>,
    wagesEarned: Option<int>,
    advanceDeduction: Option<int>,
    epfMemberShare: int,
    epfContractorShare: int,
    esiMemberShare: int,
    esiContractorShare: int,
    bonusShare: int,
    netPayable: int,
    utrNumber: Option<string>)

  /** `new PayrollEntry()` with its period and employee set: no active days, 0 days, zero amounts. */
  function NewEntry(id: nat, periodId: nat, employee: Employee): Entry {
    Entry(id, periodId, Some(employee), {}, Some(0), Some(0), Some(0), 0, 0, 0, 0, 0, 0, None)
  }

  /** The category of an entry's employee, null when there is no employee or no category. */
  function CategoryOf(e: Entry): Option<Category> {
    if e.employee.Some? then e.employee.value.category else None
  }

  /** `employee != null && employee.getCategory() == CL`. */
  predicate IsCasual(e: Entry) {
    CategoryOf(e) == Some(CL)
  }

  /** Every stored entry references an employee (the join column is not nullable). */
  predicate AllHaveEmployees(entries: seq<Entry>) {
    forall i :: 0 <= i < |entries| ==> entries[i].employee.Some?
  }

  /** The member id entries are sorted by (an entry without an employee never reaches a sort). */
  function MemberIdOf(e: Entry): string {
    if e.employee.Some? then e.employee.value.memberId else ""
  }

  /** The entries of one period, in repository order. */
  function EntriesOfPeriod(entries: seq<Entry>, periodId: nat): (r: seq<Entry>)
    ensures |r| <= |entries|
    ensures forall i :: 0 <= i < |r| ==> r[i].periodId == periodId
  {
    if entries == [] then []
    else
      var front := EntriesOfPeriod(entries[..|entries| - 1], periodId);
      var last := entries[|entries| - 1];
      if last.periodId == periodId then front + [last] else front
  }

  /** The entries of a period are exactly the stored entries that carry its id. */
  lemma {:induction false} EntriesOfPeriodMembers(entries: seq<Entry>, periodId: nat)
    ensures forall e :: e in EntriesOfPeriod(entries, periodId) <==> e in entries && e.periodId == periodId
  {
    if entries != [] {
      var n := |entries| - 1;
      EntriesOfPeriodMembers(entries[..n], periodId);
      assert entries == entries[..n] + [entries[n]];
    }
  }
}
