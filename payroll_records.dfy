/** The payroll sheet's API (`PayrollController`): opening a month, loading its entries (creating
    them on first load), saving edited rows one at a time or in bulk, and closing or reopening a
    month. A `Failure` is the error answer (a 400 body, or the exception that ends the request). */
module PayrollRecords {
  import opened Wrappers
  import opened Entities
  import Text
  import opened Store
  import PayrollCalculator
  import opened PeriodEntries

  // ---------------------------------------------------------------------------
  // Opening a month
  // ---------------------------------------------------------------------------

  const MONTH_YEAR_REQUIRED: string := "Month and Year are required."
  const INVALID_DATE: string := "Invalid Date Format. Please use YYYY-MM-DD or DD/MM/YYYY."

  /** `LocalDate.parse` with ISO dates, with "dd/MM/yyyy" and with "MM/dd/yyyy"; `None` where the
      library throws. */
  datatype DateParsers = DateParsers(
    iso: string -> Option<CalendarDate>,
    dayFirst: string -> Option<CalendarDate>,
    monthFirst: string -> Option<CalendarDate>)

  /** The last working day sent: none when absent or empty; otherwise the first of the three
      formats that reads it, or the error answer when none does. */
  function LastWorkingDayOf(dateStr: Option<string>, parsers: DateParsers): (r: Result<Option<CalendarDate>, string>)
    ensures dateStr.None? || dateStr.value == "" ==> r == Success(None)
    ensures dateStr.Some? && dateStr.value != "" ==>
      && (r.Failure? <==> parsers.iso(dateStr.value).None? && parsers.dayFirst(dateStr.value).None?
                          && parsers.monthFirst(dateStr.value).None?)
      && (r.Failure? ==> r.error == INVALID_DATE)
      && (r.Success? ==> r.value.Some?)
      && (parsers.iso(dateStr.value).Some? ==> r == Success(parsers.iso(dateStr.value)))
  {
    if dateStr.None? || dateStr.value == "" then Success(None)
    else
      var s := dateStr.value;
      if parsers.iso(s).Some? then Success(parsers.iso(s))
      else if parsers.dayFirst(s).Some? then Success(parsers.dayFirst(s))
      else if parsers.monthFirst(s).Some? then Success(parsers.monthFirst(s))
      else Failure(INVALID_DATE)
  }

  /** `createPeriod` on the periods and the id counter: the answer and the new periods and
      counter. An existing period for the month is answered (its last working day replaced when
      one was sent); otherwise a new OPEN period is created. The month is not range-checked. */
  function PeriodCreation(periods: seq<Period>, nextId: nat, month: Option<int>, year: Option<int>,
                          dateStr: Option<string>, parsers: DateParsers): (r: (Result<Period, string>, seq<Period>, nat))
    ensures month.None? || year.None? ==> r == (Failure(MONTH_YEAR_REQUIRED), periods, nextId)
    ensures r.0.Failure? ==> r.1 == periods && r.2 == nextId
    ensures r.0.Success? ==> r.0.value in r.1 && r.0.value.month == month.value && r.0.value.year == year.value
    ensures r.2 == nextId ==> |r.1| == |periods|
    ensures r.2 != nextId ==> r.2 == nextId + 1 && r.1 == periods + [r.0.value] && r.0.value.id == nextId
                              && r.0.value.status == Open && PeriodByMonth(periods, month.value, year.value).None?
  {
    if month.None? || year.None? then (Failure(MONTH_YEAR_REQUIRED), periods, nextId)
    else
      var lwd := LastWorkingDayOf(dateStr, parsers);
      if lwd.Failure? then (Failure(lwd.error), periods, nextId)
      else
        var existing := PeriodByMonth(periods, month.value, year.value);
        if existing.Some? then
          var k := existing.value;
          if lwd.value.Some? then
            var updated := periods[k].(lastWorkingDay := lwd.value);
            assert periods[k := updated][k] == updated;
            (Success(updated), periods[k := updated], nextId)
          else (Success(periods[k]), periods, nextId)
        else
          var created := Period(nextId, month.value, year.value, lwd.value, Open);
          (Success(created), periods + [created], nextId + 1)
  }

  method CreatePeriod(store: Repositories, month: Option<int>, year: Option<int>, dateStr: Option<string>,
                      parsers: DateParsers) returns (response: Result<Period, string>)
    modifies store
    ensures (response, store.periods, store.nextId)
      == PeriodCreation(old(store.periods), old(store.nextId), month, year, dateStr, parsers)
    ensures store.employees == old(store.employees) && store.entries == old(store.entries)
  {
    if month.None? || year.None? {
      return Failure(MONTH_YEAR_REQUIRED);
    }
    var lwd: Option<CalendarDate> := None;
    if dateStr.Some? && dateStr.value != "" {
      lwd := parsers.iso(dateStr.value);
      if lwd.None? {
        lwd := parsers.dayFirst(dateStr.value);
        if lwd.None? {
          lwd := parsers.monthFirst(dateStr.value);
          if lwd.None? {
            return Failure(INVALID_DATE);
          }
        }
      }
    }
    var existing := PeriodByMonth(store.periods, month.value, year.value);
    if existing.Some? {
      var existingPeriod := store.periods[existing.value];
      if lwd.Some? {
        existingPeriod := existingPeriod.(lastWorkingDay := lwd);
        store.periods := store.periods[existing.value := existingPeriod];
      }
      return Success(existingPeriod);
    }
    var id := store.FreshId();
    var period := Period(id, month.value, year.value, lwd, Open);
    store.periods := store.periods + [period];
    response := Success(period);
  }

  /** Ids below the counter, distinct, and at most one period per month: kept by `createPeriod`. */
  predicate PeriodsWellFormed(periods: seq<Period>, nextId: nat) {
    && PeriodIdsDistinct(periods) && MonthsDistinct(periods)
    && forall i :: 0 <= i < |periods| ==> periods[i].id < nextId
  }

  lemma CreationKeepsPeriodsWellFormed(periods: seq<Period>, nextId: nat, month: Option<int>, year: Option<int>,
                                       dateStr: Option<string>, parsers: DateParsers)
    requires PeriodsWellFormed(periods, nextId)
    ensures var (_, after, nextAfter) := PeriodCreation(periods, nextId, month, year, dateStr, parsers);
      PeriodsWellFormed(after, nextAfter) && nextAfter >= nextId
  {
    var (_, after, nextAfter) := PeriodCreation(periods, nextId, month, year, dateStr, parsers);
    if month.Some? && year.Some? && LastWorkingDayOf(dateStr, parsers).Success?
       && PeriodByMonth(periods, month.value, year.value).None? {
      assert after == periods + [after[|periods|]];
    }
  }

  /** Opening a month is find-or-create: the answer names the month asked for, and asking again
      answers the same period and creates nothing. */
  lemma CreationIsFindOrCreate(periods: seq<Period>, nextId: nat, month: int, year: int,
                               dateStr: Option<string>, parsers: DateParsers)
    requires LastWorkingDayOf(dateStr, parsers).Success?
    ensures var (first, after, nextAfter) := PeriodCreation(periods, nextId, Some(month), Some(year), dateStr, parsers);
      && first.Success? && first.value.month == month && first.value.year == year
      && (LastWorkingDayOf(dateStr, parsers).value.Some? ==> first.value.lastWorkingDay == LastWorkingDayOf(dateStr, parsers).value)
      && (PeriodByMonth(periods, month, year).None? <==> |after| == |periods| + 1)
      && PeriodCreation(after, nextAfter, Some(month), Some(year), dateStr, parsers) == (first, after, nextAfter)
  {
    var (first, after, nextAfter) := PeriodCreation(periods, nextId, Some(month), Some(year), dateStr, parsers);
    var existing := PeriodByMonth(periods, month, year);
    if existing.Some? {
      var k := existing.value;
      assert forall j :: 0 <= j < k ==> after[j] == periods[j];
      FirstIndexAt(after, (p: Period) => p.month == month && p.year == year, k);
      assert after[k].(lastWorkingDay := after[k].lastWorkingDay) == after[k];
      assert after[k := after[k]] == after;
    } else {
      assert forall j :: 0 <= j < |periods| ==> after[j] == periods[j];
      FirstIndexAt(after, (p: Period) => p.month == month && p.year == year, |periods|);
      assert after[|periods| := after[|periods|]] == after;
    }
  }

  // ---------------------------------------------------------------------------
  // The latest period
  // ---------------------------------------------------------------------------

  /** `a` is listed before `b` when periods are ordered by year, then month, both descending. */
  predicate Newer(a: Period, b: Period) {
    a.year > b.year || (a.year == b.year && a.month > b.month)
  }

  /** The head of `findAllByOrderByYearDescMonthDesc`: a period no other period is newer than
      (among periods of the same month, the first stored). */
  function LatestIndex(periods: seq<Period>): (r: Option<nat>)
    ensures r.None? <==> periods == []
    ensures r.Some? ==> r.value < |periods| && forall j :: 0 <= j < |periods| ==> !Newer(periods[j], periods[r.value])
  {
    if periods == [] then None
    else
      var rest := LatestIndex(periods[1..]);
      assert forall j :: 1 <= j < |periods| ==> periods[j] == periods[1..][j - 1];
      if rest.None? then Some(0)
      else if Newer(periods[rest.value + 1], periods[0]) then Some(rest.value + 1)
      else Some(0)
  }

  /** With one period per month, the latest period is strictly newer than every other one. */
  lemma LatestIsNewest(periods: seq<Period>)
    requires MonthsDistinct(periods) && periods != []
    ensures var k := LatestIndex(periods).value;
      forall j :: 0 <= j < |periods| && j != k ==> Newer(periods[k], periods[j])
  {
    var k := LatestIndex(periods).value;
    forall j | 0 <= j < |periods| && j != k ensures Newer(periods[k], periods[j]) {
      if j < k {
        assert !(periods[j].month == periods[k].month && periods[j].year == periods[k].year);
      } else {
        assert !(periods[k].month == periods[j].month && periods[k].year == periods[j].year);
      }
    }
  }

  /** What "latest" names, with the periods and counter afterwards: the head of the listing, or,
      when there are no periods at all, a new OPEN period for the current month. */
  function Latest(periods: seq<Period>, nextId: nat, today: CalendarDate): (r: (Period, seq<Period>, nat))
    ensures r.0 in r.1
    ensures periods != [] ==> r.1 == periods && r.2 == nextId
    ensures periods == [] ==> r.1 == [r.0] && r.2 == nextId + 1 && r.0.id == nextId
  {
    var k := LatestIndex(periods);
    if k.Some? then (periods[k.value], periods, nextId)
    else
      var created := Period(nextId, today.month, today.year, None, Open);
      (created, periods + [created], nextId + 1)
  }

  /** "latest" names a stored period that no stored period is newer than, and only an empty
      table of periods grows. */
  lemma LatestIsStored(periods: seq<Period>, nextId: nat, today: CalendarDate)
    ensures var (p, after, nextAfter) := Latest(periods, nextId, today);
      && p in after
      && (forall q :: q in after ==> !Newer(q, p))
      && (periods != [] ==> after == periods && nextAfter == nextId)
      && (periods == [] ==> after == [p] && p == Period(nextId, today.month, today.year, None, Open))
  {
    var (p, after, nextAfter) := Latest(periods, nextId, today);
    if periods != [] {
      var k := LatestIndex(periods).value;
      forall q | q in after ensures !Newer(q, p) {
        var j :| 0 <= j < |periods| && periods[j] == q;
      }
    }
  }

  const LATEST: string := "latest"
  const ILLEGAL_ARGUMENT: string := "IllegalArgumentException"

  /** `LocalDate`'s range of years. */
  const MIN_YEAR: int := -999_999_999
  const MAX_YEAR: int := 999_999_999

  /** The period id a path names: "latest" in any case, or a UUID that `parseUuid` reads (the
      library throws on any other text). */
  function Resolve(periods: seq<Period>, nextId: nat, periodIdStr: string, today: CalendarDate,
                   parseUuid: string -> Option<nat>): (r: (Result<nat, string>, seq<Period>, nat))
    ensures r.0.Failure? <==> !Text.EqualsIgnoreCase(LATEST, periodIdStr) && parseUuid(periodIdStr).None?
    ensures r.0.Failure? ==> r.0.error == ILLEGAL_ARGUMENT
    ensures !(Text.EqualsIgnoreCase(LATEST, periodIdStr) && periods == []) ==> r.1 == periods && r.2 == nextId
    ensures Text.EqualsIgnoreCase(LATEST, periodIdStr) ==> exists p :: p in r.1 && p.id == r.0.value
  {
    if Text.EqualsIgnoreCase(LATEST, periodIdStr) then
      var (p, after, nextAfter) := Latest(periods, nextId, today);
      (Success(p.id), after, nextAfter)
    else if parseUuid(periodIdStr).None? then (Failure(ILLEGAL_ARGUMENT), periods, nextId)
    else (Success(parseUuid(periodIdStr).value), periods, nextId)
  }

  // ---------------------------------------------------------------------------
  // Loading a month's entries
  // ---------------------------------------------------------------------------

  /** An employee is put on a period's sheet unless they left before the month began. The
      ACTIVE/INACTIVE flag plays no part. */
  predicate Included(emp: Employee, periodStart: Date) {
    emp.inactiveDate.None? || !Before(emp.inactiveDate.value, periodStart)
  }

  /** The employees put on a period's sheet, in the order of the employee table. */
  function IncludedEmployees(employees: seq<Employee>, periodStart: Date): (r: seq<Employee>)
    ensures |r| <= |employees|
  {
    if employees == [] then []
    else
      var n := |employees| - 1;
      var front := IncludedEmployees(employees[..n], periodStart);
      if Included(employees[n], periodStart) then front + [employees[n]] else front
  }

  /** The employees put on the sheet are exactly those of the table who are included. */
  lemma {:induction false} IncludedMembers(employees: seq<Employee>, periodStart: Date)
    ensures forall emp :: emp in IncludedEmployees(employees, periodStart) <==> emp in employees && Included(emp, periodStart)
  {
    if employees != [] {
      var n := |employees| - 1;
      IncludedMembers(employees[..n], periodStart);
      assert employees == employees[..n] + [employees[n]];
    }
  }

  /** Distinct employees stay distinct. */
  lemma {:induction false} IncludedDistinct(employees: seq<Employee>, periodStart: Date)
    requires EmployeeIdsDistinct(employees)
    ensures EmployeeIdsDistinct(IncludedEmployees(employees, periodStart))
  {
    if employees != [] {
      var n := |employees| - 1;
      var front := IncludedEmployees(employees[..n], periodStart);
      assert EmployeeIdsDistinct(employees[..n]);
      IncludedDistinct(employees[..n], periodStart);
      IncludedMembers(employees[..n], periodStart);
      forall i | 0 <= i < |front| ensures front[i].id != employees[n].id {
        assert front[i] in employees[..n];
        var k :| 0 <= k < n && employees[..n][k] == front[i];
      }
    }
  }

  /** The entries auto-population creates: a fresh entry for each included employee, in the
      order of the employee table, numbered from `startId`. */
  function Populated(employees: seq<Employee>, startId: nat, periodId: nat, periodStart: Date): (r: seq<Entry>)
    ensures forall i :: 0 <= i < |r| ==> r[i].periodId == periodId
  {
    if employees == [] then []
    else
      var front := Populated(employees[..|employees| - 1], startId, periodId, periodStart);
      var emp := employees[|employees| - 1];
      if Included(emp, periodStart) then front + [NewEntry(startId + |front|, periodId, emp)] else front
  }

  /** The new entries, entry by entry: the `j`-th included employee gets id `startId + j`. */
  lemma {:induction false} PopulatedEntries(employees: seq<Employee>, startId: nat, periodId: nat, periodStart: Date)
    ensures var r := Populated(employees, startId, periodId, periodStart);
      var included := IncludedEmployees(employees, periodStart);
      |r| == |included| && forall j :: 0 <= j < |r| ==> r[j] == NewEntry(startId + j, periodId, included[j])
  {
    if employees != [] {
      PopulatedEntries(employees[..|employees| - 1], startId, periodId, periodStart);
    }
  }

  /** One entry per included employee and no other: an employee is on the new sheet exactly when
      they had not left before the month began; with distinct employee ids nobody is on it twice;
      the ids run from `startId` up. */
  lemma PopulatedSheet(employees: seq<Employee>, startId: nat, periodId: nat, periodStart: Date)
    ensures var r := Populated(employees, startId, periodId, periodStart);
      && (forall emp :: (exists i :: 0 <= i < |r| && r[i].employee == Some(emp)) <==> emp in employees && Included(emp, periodStart))
      && (forall i :: 0 <= i < |r| ==> r[i].id == startId + i && r[i].periodId == periodId && r[i].employee.Some?)
      && (EmployeeIdsDistinct(employees) ==>
            forall i, j :: 0 <= i < j < |r| ==> r[i].employee.value.id != r[j].employee.value.id)
  {
    var included := IncludedEmployees(employees, periodStart);
    var r := Populated(employees, startId, periodId, periodStart);
    PopulatedEntries(employees, startId, periodId, periodStart);
    IncludedMembers(employees, periodStart);
    forall emp | emp in employees && Included(emp, periodStart) ensures exists i :: 0 <= i < |r| && r[i].employee == Some(emp) {
      var i :| 0 <= i < |included| && included[i] == emp;
      assert r[i].employee == Some(emp);
    }
    forall emp | exists i :: 0 <= i < |r| && r[i].employee == Some(emp) ensures emp in employees && Included(emp, periodStart) {
      var i :| 0 <= i < |r| && r[i].employee == Some(emp);
      assert included[i] == emp;
    }
    if EmployeeIdsDistinct(employees) {
      IncludedDistinct(employees, periodStart);
    }
  }

  /** `getEntries` once the period id is known: the period's entries, or when it has none, one
      new entry per included employee; the answer is sorted by member id. */
  function Filled(s: State, periodId: nat): (r: (Result<seq<Entry>, string>, State))
    ensures r.1.employees == s.employees && r.1.periods == s.periods
    ensures r.0.Failure? || EntriesOfPeriod(s.entries, periodId) != [] ==> r.1 == s
    ensures r.0.Failure? <==>
              && EntriesOfPeriod(s.entries, periodId) == []
              && (|| PeriodById(s.periods, periodId).None?
                  || var p := s.periods[PeriodById(s.periods, periodId).value];
                     !(1 <= p.month <= 12 && MIN_YEAR <= p.year <= MAX_YEAR))
    ensures |r.1.entries| >= |s.entries| && r.1.entries[..|s.entries|] == s.entries
  {
    var existing := EntriesOfPeriod(s.entries, periodId);
    if existing != [] then (Success(SortedByMemberId(existing)), s)
    else
      var k := PeriodById(s.periods, periodId);
      if k.None? then (Failure(NO_SUCH_ELEMENT), s)
      else
        var period := s.periods[k.value];
        if !(1 <= period.month <= 12 && MIN_YEAR <= period.year <= MAX_YEAR) then (Failure(DATE_TIME_EXCEPTION), s)
        else
          var created := Populated(s.employees, s.nextId, periodId, Date(period.year, period.month, 1));
          (Success(SortedByMemberId(created)), s.(entries := s.entries + created, nextId := s.nextId + |created|))
  }

  /** `getEntries` on the repositories: resolve the path, then load or populate. */
  function Loaded(s: State, periodIdStr: string, today: CalendarDate, parseUuid: string -> Option<nat>)
    : (r: (Result<seq<Entry>, string>, State))
    ensures r.1.employees == s.employees
    ensures r.0.Failure? ==> r.0.error in {ILLEGAL_ARGUMENT, NO_SUCH_ELEMENT, DATE_TIME_EXCEPTION}
    ensures |r.1.entries| >= |s.entries| && r.1.entries[..|s.entries|] == s.entries
    ensures |r.1.periods| >= |s.periods| && r.1.periods[..|s.periods|] == s.periods
  {
    var (resolved, periods, nextId) := Resolve(s.periods, s.nextId, periodIdStr, today, parseUuid);
    var s1 := s.(periods := periods, nextId := nextId);
    if resolved.Failure? then (Failure(resolved.error), s1) else Filled(s1, resolved.value)
  }

  /** The repositories as the database keeps them: periods well formed, entry ids distinct and
      below the counter, one entry per employee and period, employee ids distinct and below the
      counter, and every entry joined to a stored employee. */
  predicate StateWellFormed(s: State) {
    && PeriodsWellFormed(s.periods, s.nextId)
    && EntryIdsDistinct(s.entries) && (forall i :: 0 <= i < |s.entries| ==> s.entries[i].id < s.nextId)
    && OneEntryPerEmployee(s.entries) && EmployeeIdsDistinct(s.employees)
    && (forall i :: 0 <= i < |s.employees| ==> s.employees[i].id < s.nextId)
    && EntriesCurrent(s.employees, s.entries)
  }

  /** Resolving a path keeps the periods well formed. */
  lemma ResolveKeepsWellFormed(s: State, periodIdStr: string, today: CalendarDate, parseUuid: string -> Option<nat>)
    requires StateWellFormed(s)
    ensures var (_, periods, nextId) := Resolve(s.periods, s.nextId, periodIdStr, today, parseUuid);
      StateWellFormed(s.(periods := periods, nextId := nextId)) && nextId >= s.nextId
  {
  }

  /** A successful fill answers exactly the entries of the period, as stored afterwards. */
  lemma FilledAnswersThePeriod(s: State, periodId: nat)
    ensures var (r, after) := Filled(s, periodId);
      r.Success? ==> forall x :: x in r.value <==> x in after.entries && x.periodId == periodId
  {
    var (r, after) := Filled(s, periodId);
    var existing := EntriesOfPeriod(s.entries, periodId);
    EntriesOfPeriodMembers(s.entries, periodId);
    if r.Success? {
      if existing != [] {
        forall x ensures x in r.value <==> x in existing {
          assert x in r.value <==> x in multiset(r.value);
        }
      } else {
        var period := s.periods[PeriodById(s.periods, periodId).value];
        var created := Populated(s.employees, s.nextId, periodId, Date(period.year, period.month, 1));
        PopulatedEntries(s.employees, s.nextId, periodId, Date(period.year, period.month, 1));
        forall x ensures x in r.value <==> x in after.entries && x.periodId == periodId {
          assert x in r.value <==> x in multiset(created);
          assert x in s.entries && x.periodId == periodId ==> x in existing;
        }
      }
    }
  }

  /** A successful load answers exactly the entries of the period the path names, as stored
      afterwards. */
  lemma LoadAnswersThePeriod(s: State, periodIdStr: string, today: CalendarDate, parseUuid: string -> Option<nat>)
    ensures var (r, after) := Loaded(s, periodIdStr, today, parseUuid);
      var id := Resolve(s.periods, s.nextId, periodIdStr, today, parseUuid).0;
      r.Success? ==> id.Success? && forall x :: x in r.value <==> x in after.entries && x.periodId == id.value
  {
    var (resolved, periods, nextId) := Resolve(s.periods, s.nextId, periodIdStr, today, parseUuid);
    if resolved.Success? {
      FilledAnswersThePeriod(s.(periods := periods, nextId := nextId), resolved.value);
    }
  }

  /** Appending entries with fresh ids for a period that had none, at most one per employee,
      keeps the entry table well formed. */
  lemma AppendFreshEntries(entries: seq<Entry>, created: seq<Entry>, periodId: nat, nextId: nat)
    requires EntryIdsDistinct(entries) && OneEntryPerEmployee(entries)
    requires forall i :: 0 <= i < |entries| ==> entries[i].id < nextId && entries[i].periodId != periodId
    requires forall i :: 0 <= i < |created| ==>
      created[i].id == nextId + i && created[i].periodId == periodId && created[i].employee.Some?
    requires forall i, j :: 0 <= i < j < |created| ==> created[i].employee.value.id != created[j].employee.value.id
    ensures var all := entries + created;
      && EntryIdsDistinct(all) && OneEntryPerEmployee(all)
      && forall i :: 0 <= i < |all| ==> all[i].id < nextId + |created|
  {
    var all := entries + created;
    forall i, j | 0 <= i < j < |all|
      ensures all[i].id != all[j].id
      ensures !(all[i].periodId == all[j].periodId && all[i].employee.value.id == all[j].employee.value.id)
    {
      if j >= |entries| {
        assert all[j] == created[j - |entries|];
        if i >= |entries| {
          assert all[i] == created[i - |entries|];
        }
      }
    }
  }

  lemma FilledKeepsWellFormed(s: State, periodId: nat)
    requires StateWellFormed(s)
    ensures StateWellFormed(Filled(s, periodId).1)
  {
    var (r, after) := Filled(s, periodId);
    if r.Success? && EntriesOfPeriod(s.entries, periodId) == [] {
      var period := s.periods[PeriodById(s.periods, periodId).value];
      var start := Date(period.year, period.month, 1);
      var created := Populated(s.employees, s.nextId, periodId, start);
      PopulatedSheet(s.employees, s.nextId, periodId, start);
      PopulatedEntries(s.employees, s.nextId, periodId, start);
      EntriesOfPeriodMembers(s.entries, periodId);
      forall i | 0 <= i < |s.entries| ensures s.entries[i].periodId != periodId {
        assert s.entries[i] in s.entries;
      }
      forall i | 0 <= i < |created| ensures created[i].employee.value in s.employees {
        assert created[i].employee == Some(created[i].employee.value);
      }
      PopulatedKeepsWellFormed(s, created, periodId);
    }
  }

  /** Appending a new sheet of fresh entries, each for a stored employee and none twice, to a
      period that had none keeps the repositories well formed. */
  lemma PopulatedKeepsWellFormed(s: State, created: seq<Entry>, periodId: nat)
    requires StateWellFormed(s)
    requires forall i :: 0 <= i < |s.entries| ==> s.entries[i].periodId != periodId
    requires forall i :: 0 <= i < |created| ==>
      && created[i].id == s.nextId + i && created[i].periodId == periodId && created[i].employee.Some?
      && created[i].employee.value in s.employees
    requires forall i, j :: 0 <= i < j < |created| ==> created[i].employee.value.id != created[j].employee.value.id
    ensures StateWellFormed(s.(entries := s.entries + created, nextId := s.nextId + |created|))
  {
    AppendFreshEntries(s.entries, created, periodId, s.nextId);
    var all := s.entries + created;
    forall i | 0 <= i < |all| && all[i].employee.Some? ensures all[i].employee.value in s.employees {
      if i >= |s.entries| {
        assert all[i] == created[i - |s.entries|];
      }
    }
  }

  /** Loading keeps the repositories well formed: new entries get fresh ids, and nobody is put
      on a sheet twice. */
  lemma LoadKeepsWellFormed(s: State, periodIdStr: string, today: CalendarDate, parseUuid: string -> Option<nat>)
    requires StateWellFormed(s)
    ensures StateWellFormed(Loaded(s, periodIdStr, today, parseUuid).1)
  {
    var (resolved, periods, nextId) := Resolve(s.periods, s.nextId, periodIdStr, today, parseUuid);
    ResolveKeepsWellFormed(s, periodIdStr, today, parseUuid);
    if resolved.Success? {
      FilledKeepsWellFormed(s.(periods := periods, nextId := nextId), resolved.value);
    }
  }

  lemma FilledTwice(s: State, periodId: nat)
    requires Filled(s, periodId).0.Success?
    ensures var (r, after) := Filled(s, periodId);
      Filled(after, periodId) == (r, after)
  {
    if EntriesOfPeriod(s.entries, periodId) == [] {
      var period := s.periods[PeriodById(s.periods, periodId).value];
      var created := Populated(s.employees, s.nextId, periodId, Date(period.year, period.month, 1));
      var after := Filled(s, periodId).1;
      assert after == s.(entries := s.entries + created, nextId := s.nextId + |created|);
      EntriesOfPeriodAppend(s.entries, created, periodId);
      EntriesOfPeriodAll(created, periodId);
      assert EntriesOfPeriod(after.entries, periodId) == created;
      if created == [] {
        assert s.entries + created == s.entries;
        assert after == s;
      }
    }
  }

  /** Loading a second time answers the same list and creates nothing. */
  lemma LoadTwice(s: State, periodIdStr: string, today: CalendarDate, parseUuid: string -> Option<nat>)
    requires Loaded(s, periodIdStr, today, parseUuid).0.Success?
    ensures var (r, after) := Loaded(s, periodIdStr, today, parseUuid);
      Loaded(after, periodIdStr, today, parseUuid) == (r, after)
  {
    var (resolved, periods, nextId) := Resolve(s.periods, s.nextId, periodIdStr, today, parseUuid);
    var s1 := s.(periods := periods, nextId := nextId);
    FilledTwice(s1, resolved.value);
    var after := Filled(s1, resolved.value).1;
    assert after.periods == periods;
    ResolveAgain(s.periods, s.nextId, periodIdStr, today, parseUuid, after.nextId);
  }

  /** Resolving the same path again, against the periods the first resolution left, names the
      same period and creates nothing, whatever the id counter has become meanwhile. */
  lemma ResolveAgain(periods: seq<Period>, nextId: nat, periodIdStr: string, today: CalendarDate,
                     parseUuid: string -> Option<nat>, laterNextId: nat)
    ensures var (resolved, after, _) := Resolve(periods, nextId, periodIdStr, today, parseUuid);
      Resolve(after, laterNextId, periodIdStr, today, parseUuid) == (resolved, after, laterNextId)
  {
    if Text.EqualsIgnoreCase(LATEST, periodIdStr) && periods == [] {
      var after := Resolve(periods, nextId, periodIdStr, today, parseUuid).1;
      assert LatestIndex(after) == Some(0);
    }
  }

  lemma {:induction false} EntriesOfPeriodAppend(a: seq<Entry>, b: seq<Entry>, periodId: nat)
    ensures EntriesOfPeriod(a + b, periodId) == EntriesOfPeriod(a, periodId) + EntriesOfPeriod(b, periodId)
    decreases |b|
  {
    if b == [] {
      assert a + b == a;
    } else {
      var n := |b| - 1;
      var last := b[n];
      EntriesOfPeriodAppend(a, b[..n], periodId);
      assert a + b == (a + b[..n]) + [last];
      assert b == b[..n] + [last];
      EntriesOfPeriodSnoc(a + b[..n], last, periodId);
      EntriesOfPeriodSnoc(b[..n], last, periodId);
      var x, y := EntriesOfPeriod(a, periodId), EntriesOfPeriod(b[..n], periodId);
      assert (x + y) + [last] == x + (y + [last]);
    }
  }

  /** One more entry: kept at the end when it belongs to the period. */
  lemma EntriesOfPeriodSnoc(entries: seq<Entry>, e: Entry, periodId: nat)
    ensures EntriesOfPeriod(entries + [e], periodId)
      == if e.periodId == periodId then EntriesOfPeriod(entries, periodId) + [e] else EntriesOfPeriod(entries, periodId)
  {
    assert (entries + [e])[..|entries|] == entries;
  }

  lemma {:induction false} EntriesOfPeriodAll(entries: seq<Entry>, periodId: nat)
    requires forall i :: 0 <= i < |entries| ==> entries[i].periodId == periodId
    ensures EntriesOfPeriod(entries, periodId) == entries
  {
    if entries != [] {
      var n := |entries| - 1;
      EntriesOfPeriodAll(entries[..n], periodId);
      assert entries[..n] + [entries[n]] == entries;
    }
  }

  /** The head of the listing, or the period created for the current month. */
  method LatestPeriod(store: Repositories, today: CalendarDate) returns (latest: Period)
    modifies store
    ensures (latest, store.periods, store.nextId) == Latest(old(store.periods), old(store.nextId), today)
    ensures store.employees == old(store.employees) && store.entries == old(store.entries)
  {
    var k := LatestIndex(store.periods);
    if k.Some? {
      return store.periods[k.value];
    }
    var id := store.FreshId();
    latest := Period(id, today.month, today.year, None, Open);
    store.periods := store.periods + [latest];
  }

  /** The period id of a path, creating the current month's period for "latest" when there is
      none. */
  method ResolvePath(store: Repositories, periodIdStr: string, today: CalendarDate, parseUuid: string -> Option<nat>)
    returns (resolved: Result<nat, string>)
    modifies store
    ensures (resolved, store.periods, store.nextId) == Resolve(old(store.periods), old(store.nextId), periodIdStr, today, parseUuid)
    ensures store.employees == old(store.employees) && store.entries == old(store.entries)
  {
    if Text.EqualsIgnoreCase(LATEST, periodIdStr) {
      var latest := LatestPeriod(store, today);
      return Success(latest.id);
    }
    var parsed := parseUuid(periodIdStr);
    if parsed.None? {
      return Failure(ILLEGAL_ARGUMENT);
    }
    resolved := Success(parsed.value);
  }

  /** The entries of a known period, populated when it has none, sorted by member id. */
  method Fill(store: Repositories, periodId: nat) returns (response: Result<seq<Entry>, string>)
    modifies store
    ensures (response, store.Snapshot()) == Filled(old(store.Snapshot()), periodId)
  {
    ghost var before := store.Snapshot();
    var entries := EntriesOfPeriod(store.entries, periodId);
    if entries == [] {
      var k := PeriodById(store.periods, periodId);
      if k.None? {
        return Failure(NO_SUCH_ELEMENT);
      }
      var period := store.periods[k.value];
      if !(1 <= period.month <= 12 && MIN_YEAR <= period.year <= MAX_YEAR) {
        return Failure(DATE_TIME_EXCEPTION);
      }
      entries := Populate(store, periodId, Date(period.year, period.month, 1));
      store.entries := store.entries + entries;
      assert store.Snapshot() == Filled(before, periodId).1;
    }
    response := Success(SortedByMemberId(entries));
  }

  /** `getEntries`. */
  method GetEntries(store: Repositories, periodIdStr: string, today: CalendarDate, parseUuid: string -> Option<nat>)
    returns (response: Result<seq<Entry>, string>)
    modifies store
    ensures (response, store.Snapshot()) == Loaded(old(store.Snapshot()), periodIdStr, today, parseUuid)
  {
    var resolved := ResolvePath(store, periodIdStr, today, parseUuid);
    if resolved.Failure? {
      return Failure(resolved.error);
    }
    response := Fill(store, resolved.value);
  }

  /** One more employee adds at most their entry at the end. */
  lemma PopulatedStep(employees: seq<Employee>, i: nat, startId: nat, periodId: nat, periodStart: Date)
    requires i < |employees|
    ensures var before := Populated(employees[..i], startId, periodId, periodStart);
      Populated(employees[..i + 1], startId, periodId, periodStart)
        == if Included(employees[i], periodStart) then before + [NewEntry(startId + |before|, periodId, employees[i])]
           else before
  {
    assert employees[..i + 1][..i] == employees[..i];
  }

  /** The stream that builds the new entries: one per included employee, each drawing the next id. */
  method Populate(store: Repositories, periodId: nat, periodStart: Date) returns (entries: seq<Entry>)
    modifies store
    ensures entries == Populated(store.employees, old(store.nextId), periodId, periodStart)
    ensures store.nextId == old(store.nextId) + |entries|
    ensures store.employees == old(store.employees) && store.periods == old(store.periods)
    ensures store.entries == old(store.entries)
  {
    var employees := store.employees;
    entries := [];
    var i := 0;
    while i < |employees|
      invariant 0 <= i <= |employees|
      invariant entries == Populated(employees[..i], old(store.nextId), periodId, periodStart)
      invariant store.nextId == old(store.nextId) + |entries|
      invariant store.employees == employees == old(store.employees)
      invariant store.periods == old(store.periods) && store.entries == old(store.entries)
    {
      var emp := employees[i];
      PopulatedStep(employees, i, old(store.nextId), periodId, periodStart);
      if Included(emp, periodStart) {
        var entryId := store.FreshId();
        entries := entries + [NewEntry(entryId, periodId, emp)];
      }
      i := i + 1;
    }
    assert employees[..i] == employees;
  }

  // ---------------------------------------------------------------------------
  // Saving edited rows
  // ---------------------------------------------------------------------------

  /** The body of an edit: the entry's id and the inputs the sheet sends. `None` is a field sent
      as an explicit JSON null; a field left out of the body arrives as the entity's initial
      value, which is `Some` of an empty set of active days or of zero days, wage and advance. */
  datatype EntryEdit = EntryEdit(
    id: nat,
    daysWorked: Option<int>,
    wagesEarned: Option<int>,
    advanceDeduction: Option<int>,
    activeDays: Option<set<int>>)

  /** An entry after an edit: the three inputs copied as sent (nulls included), the active days
      replaced unless sent as an explicit null, then recalculated. */
  function Edited(existing: Entry, input: EntryEdit): (r: Entry)
    ensures r.id == existing.id && r.periodId == existing.periodId && r.employee == existing.employee
    ensures r.daysWorked == input.daysWorked && r.advanceDeduction == input.advanceDeduction
  {
    PayrollCalculator.Calculated(existing.(
      daysWorked := input.daysWorked,
      wagesEarned := input.wagesEarned,
      advanceDeduction := input.advanceDeduction,
      activeDays := input.activeDays.GetOr(existing.activeDays)))
  }

  /** An edit touches only the inputs and the derived amounts: the entry keeps its id, period,
      employee and UTR; the days and advance are those sent; the active days are kept only when
      sent as an explicit null; the wage is the one sent, except that a casual labourer's null wage
      becomes the standard wage; and the day count is never taken from the active days. */
  lemma EditTouchesOnlyInputs(existing: Entry, input: EntryEdit)
    ensures var r := Edited(existing, input);
      && r.id == existing.id && r.periodId == existing.periodId && r.employee == existing.employee
      && r.utrNumber == existing.utrNumber
      && r.daysWorked == input.daysWorked && r.advanceDeduction == input.advanceDeduction
      && r.activeDays == (if input.activeDays.Some? then input.activeDays.value else existing.activeDays)
      && r.wagesEarned == (if IsCasual(existing) && input.wagesEarned.None?
                           then Some(PayrollCalculator.StandardWage(input.daysWorked.GetOr(0)))
                           else input.wagesEarned)
      && r == PayrollCalculator.Calculated(r)
  {
    var staged := existing.(daysWorked := input.daysWorked, wagesEarned := input.wagesEarned,
                            advanceDeduction := input.advanceDeduction,
                            activeDays := input.activeDays.GetOr(existing.activeDays));
    assert IsCasual(staged) == IsCasual(existing);
    PayrollCalculator.CalculateIdempotent(staged);
  }

  /** The day count and the active days are stored as sent, so they may disagree: five days
      worked over three active days stay so. */
  lemma DaysNotDerivedFromActiveDays(existing: Entry)
    ensures var r := Edited(existing, EntryEdit(existing.id, Some(5), Some(0), Some(0), Some({1, 2, 3})));
      r.daysWorked == Some(5) && r.activeDays == {1, 2, 3}
  {
  }

  /** `updateEntry`: the answer and the entries afterwards. An unknown id ends the request. */
  function Updated(entries: seq<Entry>, entryId: nat, input: EntryEdit): (r: (Result<Entry, string>, seq<Entry>))
    ensures r.0.Failure? <==> EntryById(entries, entryId).None?
    ensures r.0.Failure? ==> r.0.error == NO_SUCH_ELEMENT && r.1 == entries
    ensures r.0.Success? ==> r.0.value.id == entryId && r.0.value in r.1 && |r.1| == |entries|
  {
    var k := EntryById(entries, entryId);
    if k.None? then (Failure(NO_SUCH_ELEMENT), entries)
    else
      var saved := Edited(entries[k.value], input);
      assert EntryById(entries, saved.id) == k;
      assert SaveEntry(entries, saved)[k.value] == saved;
      (Success(saved), SaveEntry(entries, saved))
  }

  /** An update replaces the named entry by its edit in place and leaves every other entry as it
      was; an unknown id changes nothing. */
  lemma UpdateReplacesInPlace(entries: seq<Entry>, entryId: nat, input: EntryEdit)
    requires EntryIdsDistinct(entries)
    ensures var (r, after) := Updated(entries, entryId, input);
      && (r.Failure? <==> forall i :: 0 <= i < |entries| ==> entries[i].id != entryId)
      && (r.Failure? ==> after == entries)
      && (r.Success? ==> |after| == |entries| && EntryIdsDistinct(after))
      && (r.Success? ==> forall i :: 0 <= i < |entries| ==>
            after[i] == if entries[i].id == entryId then Edited(entries[i], input) else entries[i])
  {
    var k := EntryById(entries, entryId);
    if k.Some? {
      var saved := Edited(entries[k.value], input);
      EditTouchesOnlyInputs(entries[k.value], input);
      assert EntryById(entries, saved.id) == k;
    }
  }

  /** An update keeps one entry per employee and period: the edit never moves an entry. */
  lemma UpdateKeepsOneEntryPerEmployee(entries: seq<Entry>, entryId: nat, input: EntryEdit)
    requires EntryIdsDistinct(entries) && OneEntryPerEmployee(entries)
    ensures OneEntryPerEmployee(Updated(entries, entryId, input).1)
  {
    UpdateReplacesInPlace(entries, entryId, input);
    var k := EntryById(entries, entryId);
    if k.Some? {
      EditTouchesOnlyInputs(entries[k.value], input);
    }
  }

  /** Copies the sent inputs onto the stored entry object, recalculates it and saves it. */
  method UpdateEntry(store: Repositories, entryId: nat, input: EntryEdit) returns (response: Result<Entry, string>)
    modifies store
    ensures (response, store.entries) == Updated(old(store.entries), entryId, input)
    ensures store.employees == old(store.employees) && store.periods == old(store.periods)
    ensures store.nextId == old(store.nextId)
  {
    var k := EntryById(store.entries, entryId);
    if k.None? {
      return Failure(NO_SUCH_ELEMENT);
    }
    var saved := EditEntry(store.entries[k.value], input);
    store.StoreEntry(saved);
    response := Success(saved);
  }

  /** The fetched entry object: the inputs set on it, then recalculated. */
  method EditEntry(stored: Entry, input: EntryEdit) returns (saved: Entry)
    ensures saved == Edited(stored, input)
  {
    var existing := new PayrollCalculator.PayrollEntry(stored);
    existing.daysWorked := input.daysWorked;
    existing.wagesEarned := input.wagesEarned;
    existing.advanceDeduction := input.advanceDeduction;
    if input.activeDays.Some? {
      existing.activeDays := input.activeDays.value;
    }
    assert existing.Value() == stored.(daysWorked := input.daysWorked, wagesEarned := input.wagesEarned,
                                       advanceDeduction := input.advanceDeduction,
                                       activeDays := input.activeDays.GetOr(stored.activeDays));
    PayrollCalculator.Calculate(existing);
    saved := existing.Value();
  }

  /** `bulkUpdateEntries` over the first inputs: the edited entries in the order of the inputs,
      and the entries afterwards. Inputs naming no stored entry are skipped; a later input sees
      the edits of earlier ones. */
  function BulkUpdated(entries: seq<Entry>, inputs: seq<EntryEdit>): (r: (seq<Entry>, seq<Entry>))
    ensures |r.0| <= |inputs| && |r.1| == |entries|
    ensures forall i :: 0 <= i < |entries| ==> r.1[i].id == entries[i].id && r.1[i].periodId == entries[i].periodId
  {
    if inputs == [] then ([], entries)
    else BulkStep(BulkUpdated(entries, inputs[..|inputs| - 1]), inputs[|inputs| - 1])
  }

  /** One more input: the entry it names, if any, edited and saved, and added to the answer. */
  function BulkStep(before: (seq<Entry>, seq<Entry>), input: EntryEdit): (r: (seq<Entry>, seq<Entry>))
    ensures |r.0| <= |before.0| + 1 && |r.1| == |before.1|
    ensures forall i :: 0 <= i < |before.1| ==> r.1[i].id == before.1[i].id && r.1[i].periodId == before.1[i].periodId
  {
    var k := EntryById(before.1, input.id);
    if k.None? then before
    else
      var saved := Edited(before.1[k.value], input);
      assert EntryById(before.1, saved.id) == k;
      (before.0 + [saved], SaveEntry(before.1, saved))
  }

  /** The number of inputs that name a stored entry. */
  function KnownCount(entries: seq<Entry>, inputs: seq<EntryEdit>): nat {
    if inputs == [] then 0
    else KnownCount(entries, inputs[..|inputs| - 1])
         + (if exists i :: 0 <= i < |entries| && entries[i].id == inputs[|inputs| - 1].id then 1 else 0)
  }

  /** A bulk update answers one entry per input whose id is stored and skips the rest; every
      answered entry is recalculated; the table keeps its length, its ids and one entry per
      employee and period; and an entry no input names is left as it was. */
  lemma {:induction false} BulkUpdateShape(entries: seq<Entry>, inputs: seq<EntryEdit>)
    requires EntryIdsDistinct(entries) && OneEntryPerEmployee(entries)
    ensures var r := BulkUpdated(entries, inputs);
      && |r.0| == KnownCount(entries, inputs)
      && |r.1| == |entries| && EntryIdsDistinct(r.1) && OneEntryPerEmployee(r.1)
      && (forall i :: 0 <= i < |entries| ==> r.1[i].id == entries[i].id)
      && (forall j :: 0 <= j < |r.0| ==> r.0[j] == PayrollCalculator.Calculated(r.0[j]))
      && (forall i :: 0 <= i < |entries| && (forall n :: 0 <= n < |inputs| ==> inputs[n].id != entries[i].id)
            ==> r.1[i] == entries[i])
  {
    if inputs != [] {
      var front := inputs[..|inputs| - 1];
      var input := inputs[|inputs| - 1];
      BulkUpdateShape(entries, front);
      var before := BulkUpdated(entries, front);
      BulkStepShape(entries, before, input);
      var after := BulkStep(before, input);
      assert after == BulkUpdated(entries, inputs);
      forall j | 0 <= j < |after.0| ensures after.0[j] == PayrollCalculator.Calculated(after.0[j]) {
        if j < |before.0| {
          assert after.0[j] == before.0[j];
        }
      }
      forall i | 0 <= i < |entries| && (forall n :: 0 <= n < |inputs| ==> inputs[n].id != entries[i].id)
        ensures after.1[i] == entries[i]
      {
        assert forall n :: 0 <= n < |front| ==> front[n] == inputs[n];
        assert inputs[|inputs| - 1].id != entries[i].id;
      }
    }
  }

  /** One step of a bulk update on a table with the ids of `entries`: at most the entry the input
      names changes, and it is answered, recalculated. */
  lemma BulkStepShape(entries: seq<Entry>, before: (seq<Entry>, seq<Entry>), input: EntryEdit)
    requires |before.1| == |entries| && EntryIdsDistinct(before.1) && OneEntryPerEmployee(before.1)
    requires forall i :: 0 <= i < |entries| ==> before.1[i].id == entries[i].id
    ensures var after := BulkStep(before, input);
      && |after.1| == |entries| && EntryIdsDistinct(after.1) && OneEntryPerEmployee(after.1)
      && (forall i :: 0 <= i < |entries| ==> after.1[i].id == entries[i].id)
      && |after.0| == |before.0| + (if exists i :: 0 <= i < |entries| && entries[i].id == input.id then 1 else 0)
      && after.0[..|before.0|] == before.0
      && (forall j :: |before.0| <= j < |after.0| ==> after.0[j] == PayrollCalculator.Calculated(after.0[j]))
      && (forall i :: 0 <= i < |entries| && entries[i].id != input.id ==> after.1[i] == before.1[i])
  {
    var current := before.1;
    var k := EntryById(current, input.id);
    assert (exists i :: 0 <= i < |entries| && entries[i].id == input.id) <==> k.Some? by {
      if k.Some? {
        assert entries[k.value].id == input.id;
      }
    }
    if k.Some? {
      UpdateReplacesInPlace(current, input.id, input);
      UpdateKeepsOneEntryPerEmployee(current, input.id, input);
      EditTouchesOnlyInputs(current[k.value], input);
      assert BulkStep(before, input).1 == Updated(current, input.id, input).1;
      assert (before.0 + [Edited(current[k.value], input)])[..|before.0|] == before.0;
    } else {
      assert before.0[..|before.0|] == before.0;
    }
  }

  /** No two inputs of a bulk update name the same entry. */
  predicate InputIdsDistinct(inputs: seq<EntryEdit>) {
    forall m, n :: 0 <= m < n < |inputs| ==> inputs[m].id != inputs[n].id
  }

  /** With no id sent twice, each answered entry is the entry as it stands in the table after the
      whole update, which is what the source's answer (the managed entities themselves) shows. */
  lemma {:induction false} BulkAnswersFinal(entries: seq<Entry>, inputs: seq<EntryEdit>)
    requires EntryIdsDistinct(entries) && OneEntryPerEmployee(entries) && InputIdsDistinct(inputs)
    ensures var r := BulkUpdated(entries, inputs);
      forall j :: 0 <= j < |r.0| ==> r.0[j] in r.1 && exists n :: 0 <= n < |inputs| && inputs[n].id == r.0[j].id
  {
    if inputs != [] {
      var front := inputs[..|inputs| - 1];
      var input := inputs[|inputs| - 1];
      assert InputIdsDistinct(front);
      BulkAnswersFinal(entries, front);
      BulkUpdateShape(entries, front);
      var before := BulkUpdated(entries, front);
      BulkStepShape(entries, before, input);
      var after := BulkStep(before, input);
      forall j | 0 <= j < |after.0|
        ensures after.0[j] in after.1 && exists n :: 0 <= n < |inputs| && inputs[n].id == after.0[j].id
      {
        if j < |before.0| {
          var a := before.0[j];
          assert after.0[j] == a;
          var n :| 0 <= n < |front| && front[n].id == a.id;
          assert inputs[n] == front[n];
          var i :| 0 <= i < |before.1| && before.1[i] == a;
          assert entries[i].id == a.id != input.id;
          assert after.1[i] == a;
        } else {
          var k := EntryById(before.1, input.id);
          assert after.0[j] == Edited(before.1[k.value], input);
          assert after.1[k.value] == after.0[j];
          assert inputs[|inputs| - 1].id == after.0[j].id;
        }
      }
    }
  }

  /** One more input edits at most the entry it names. */
  lemma BulkUpdatedStep(entries: seq<Entry>, inputs: seq<EntryEdit>, i: nat)
    requires i < |inputs|
    ensures BulkUpdated(entries, inputs[..i + 1]) == BulkStep(BulkUpdated(entries, inputs[..i]), inputs[i])
  {
    assert inputs[..i + 1][..i] == inputs[..i];
  }

  /** Edits each stored entry an input names, recalculating it, and saves them all. */
  method BulkUpdateEntries(store: Repositories, inputs: seq<EntryEdit>) returns (updated: seq<Entry>)
    modifies store
    ensures (updated, store.entries) == BulkUpdated(old(store.entries), inputs)
    ensures store.employees == old(store.employees) && store.periods == old(store.periods)
    ensures store.nextId == old(store.nextId)
  {
    updated := [];
    var i := 0;
    while i < |inputs|
      invariant 0 <= i <= |inputs|
      invariant (updated, store.entries) == BulkUpdated(old(store.entries), inputs[..i])
      invariant store.employees == old(store.employees) && store.periods == old(store.periods)
      invariant store.nextId == old(store.nextId)
    {
      BulkUpdatedStep(old(store.entries), inputs, i);
      var input := inputs[i];
      var k := EntryById(store.entries, input.id);
      if k.Some? {
        var saved := EditEntry(store.entries[k.value], input);
        store.StoreEntry(saved);
        updated := updated + [saved];
      }
      i := i + 1;
    }
    assert inputs[..i] == inputs;
  }

  // ---------------------------------------------------------------------------
  // Closing and reopening
  // ---------------------------------------------------------------------------

  const PERIOD_NOT_FOUND: string := "Period not found"

  /** `closePeriod` (status CLOSED) and `reopenPeriod` (status OPEN): the answer and the periods
      afterwards. The status is set whatever it was. */
  function StatusSet(periods: seq<Period>, periodId: nat, status: PeriodStatus): (r: (Result<Period, string>, seq<Period>))
    ensures r.0.Failure? <==> PeriodById(periods, periodId).None?
    ensures r.0.Failure? ==> r.0.error == PERIOD_NOT_FOUND && r.1 == periods
    ensures r.0.Success? ==> r.0.value.id == periodId && r.0.value.status == status && r.0.value in r.1 && |r.1| == |periods|
  {
    var k := PeriodById(periods, periodId);
    if k.None? then (Failure(PERIOD_NOT_FOUND), periods)
    else
      var saved := periods[k.value].(status := status);
      assert PeriodById(periods, saved.id) == k;
      assert SavePeriod(periods, saved)[k.value] == saved;
      (Success(saved), SavePeriod(periods, saved))
  }

  /** Closing or reopening sets the status of the named period and changes nothing else, so doing
      it twice is doing it once; closing then reopening an open period restores the periods. */
  lemma StatusSetIdempotent(periods: seq<Period>, periodId: nat, status: PeriodStatus)
    ensures var (r, after) := StatusSet(periods, periodId, status);
      && (r.Failure? <==> forall i :: 0 <= i < |periods| ==> periods[i].id != periodId)
      && |after| == |periods|
      && (forall i :: 0 <= i < |periods| ==>
            after[i] == if i == PeriodById(periods, periodId).GetOr(|periods|) then periods[i].(status := status) else periods[i])
      && StatusSet(after, periodId, status) == (r, after)
    ensures var k := PeriodById(periods, periodId);
      k.Some? && periods[k.value].status == Open ==> StatusSet(StatusSet(periods, periodId, Closed).1, periodId, Open).1 == periods
  {
    var k := PeriodById(periods, periodId);
    if k.Some? {
      var after := StatusSet(periods, periodId, status).1;
      FirstIndexAt(after, (p: Period) => p.id == periodId, k.value);
      assert after[k.value := after[k.value]] == after;
      var closed := StatusSet(periods, periodId, Closed).1;
      FirstIndexAt(closed, (p: Period) => p.id == periodId, k.value);
      if periods[k.value].status == Open {
        assert closed[k.value := periods[k.value]] == periods;
      }
    }
  }

  method SetStatus(store: Repositories, periodId: nat, status: PeriodStatus) returns (response: Result<Period, string>)
    modifies store
    ensures (response, store.periods) == StatusSet(old(store.periods), periodId, status)
    ensures store.employees == old(store.employees) && store.entries == old(store.entries)
    ensures store.nextId == old(store.nextId)
  {
    var k := PeriodById(store.periods, periodId);
    if k.None? {
      return Failure(PERIOD_NOT_FOUND);
    }
    var period := store.periods[k.value].(status := status);
    store.StorePeriod(period);
    response := Success(period);
  }

  /** `closePeriod`. */
  method ClosePeriod(store: Repositories, periodId: nat) returns (response: Result<Period, string>)
    modifies store
    ensures (response, store.periods) == StatusSet(old(store.periods), periodId, Closed)
    ensures store.employees == old(store.employees) && store.entries == old(store.entries)
    ensures store.nextId == old(store.nextId)
  {
    response := SetStatus(store, periodId, Closed);
  }

  /** `reopenPeriod`. */
  method ReopenPeriod(store: Repositories, periodId: nat) returns (response: Result<Period, string>)
    modifies store
    ensures (response, store.periods) == StatusSet(old(store.periods), periodId, Open)
    ensures store.employees == old(store.employees) && store.entries == old(store.entries)
    ensures store.nextId == old(store.nextId)
  {
    response := SetStatus(store, periodId, Open);
  }
}
