/** The casual-labour attendance sheet of the front end: a grid of the period's casual labourers
    against the days of the month, where a click marks or clears one labourer's day and a click on
    a column header marks or clears that day for everybody. */
module CasualAttendance {
  import opened Wrappers
  import opened Entities

  /** An entry as the sheet receives it: the employee's category, the marked days (`null` until
      initialised) and the day count entered on the payroll page. */
  datatype SheetEntry = SheetEntry(id: nat, category: Option<Category>, activeDays: Option<seq<int>>, daysWorked: Option<int>)

  // ---------------------------------------------------------------------------
  // Days of the month
  // ---------------------------------------------------------------------------

  /** `new Date(year, month, 0).getDate()`: day 0 of the (zero-based) month `month` is the last
      day of the one-based month `month`, with months outside 1..12 rolling into the neighbouring
      years, and a year of 0..99 read as 1900..1999. */
  function JsDaysInMonth(year: int, month: int): (n: nat)
    ensures 28 <= n <= 31
  {
    var fullYear := if 0 <= year <= 99 then 1900 + year else year;
    DaysInMonth(fullYear + (month - 1) / 12, (month - 1) % 12 + 1)
  }

  /** For the months and years a payroll period has, the sheet has as many columns as the month
      has days. */
  lemma ColumnsMatchCalendar(year: int, month: int)
    requires 1 <= month <= 12 && (year < 0 || year > 99)
    ensures JsDaysInMonth(year, month) == DaysInMonth(year, month)
  {
  }

  /** A thirteenth month is January of the following year; month 0 is December of the previous. */
  lemma MonthRollover(year: int)
    requires year > 99
    ensures JsDaysInMonth(year, 13) == 31 && JsDaysInMonth(year, 0) == 31
  {
  }

  /** The column headers 1..n. */
  function DayList(n: nat): (r: seq<int>)
    ensures |r| == n
    ensures forall i :: 0 <= i < n ==> r[i] == i + 1
  {
    seq(n, i => i + 1)
  }

  // ---------------------------------------------------------------------------
  // One labourer's days
  // ---------------------------------------------------------------------------

  /** `indexOf`: the first position of `day`, or -1. */
  function IndexOf(days: seq<int>, day: int): (r: int)
    ensures -1 <= r < |days|
    ensures r == -1 <==> day !in days
    ensures r >= 0 ==> days[r] == day && day !in days[..r]
  {
    if days == [] then -1
    else if days[0] == day then 0
    else
      var rest := IndexOf(days[1..], day);
      assert days[1..] == days[1..][..|days| - 1];
      if rest == -1 then -1
      else
        assert days[..rest + 1] == [days[0]] + days[1..][..rest];
        rest + 1
  }

  /** `splice(idx, 1)`. */
  function RemoveAt(days: seq<int>, idx: int): seq<int>
    requires 0 <= idx < |days|
  {
    days[..idx] + days[idx + 1..]
  }

  /** `toggleDay` on the day list: take out the first occurrence of the day, or append it. */
  function Toggled(days: seq<int>, day: int): (r: seq<int>)
    ensures day in days ==> multiset(r) == multiset(days) - multiset{day}
    ensures day !in days ==> multiset(r) == multiset(days) + multiset{day} && r[..|days|] == days
  {
    var idx := IndexOf(days, day);
    if idx > -1 then
      assert days == days[..idx] + [day] + days[idx + 1..];
      RemoveAt(days, idx)
    else
      assert (days + [day])[..|days|] == days;
      days + [day]
  }

  /** The column toggle's per-labourer step: add the day if it is missing (`on`), or take out its
      first occurrence (not `on`). */
  function SetDay(days: seq<int>, day: int, on: bool): seq<int> {
    var idx := IndexOf(days, day);
    if on then (if idx == -1 then days + [day] else days)
    else (if idx > -1 then RemoveAt(days, idx) else days)
  }

  /** `isDayActive`: a `null` list marks nothing. */
  predicate IsDayActive(e: SheetEntry, day: int) {
    e.activeDays.Some? && day in e.activeDays.value
  }

  /** The marked days of a list without repeats, as the server's day set serialises. */
  predicate NoRepeats(days: seq<int>) {
    forall i, j :: 0 <= i < j < |days| ==> days[i] != days[j]
  }

  lemma RemoveOnly(days: seq<int>, idx: int)
    requires NoRepeats(days) && 0 <= idx < |days|
    ensures NoRepeats(RemoveAt(days, idx))
    ensures days[idx] !in RemoveAt(days, idx)
    ensures forall x :: x != days[idx] ==> (x in RemoveAt(days, idx) <==> x in days)
    ensures |RemoveAt(days, idx)| == |days| - 1
  {
    var r := RemoveAt(days, idx);
    assert forall k :: 0 <= k < |r| ==> r[k] == (if k < idx then days[k] else days[k + 1]);
    forall x | x in days && x != days[idx] ensures x in r {
      var k :| 0 <= k < |days| && days[k] == x;
      if k < idx { assert r[k] == x; } else { assert r[k - 1] == x; }
    }
  }

  lemma AppendOnly(days: seq<int>, day: int)
    requires NoRepeats(days) && day !in days
    ensures NoRepeats(days + [day])
    ensures forall x :: x in days + [day] <==> x in days || x == day
  {
  }

  /** A click flips exactly the clicked day: afterwards the day is marked iff it was not, every
      other day is as it was, the count of marked days moves by one, and no day is listed twice. */
  lemma ToggleFlips(days: seq<int>, day: int)
    requires NoRepeats(days)
    ensures var r := Toggled(days, day);
      && NoRepeats(r)
      && (day in r <==> day !in days)
      && (forall x :: x != day ==> (x in r <==> x in days))
      && |r| == if day in days then |days| - 1 else |days| + 1
  {
    var idx := IndexOf(days, day);
    if idx > -1 {
      RemoveOnly(days, idx);
    } else {
      AppendOnly(days, day);
    }
  }

  /** Two clicks restore the marked days: exactly when the day was unmarked, and as a set of days
      (at the end of the list) when it was marked. */
  lemma ToggleTwice(days: seq<int>, day: int)
    requires NoRepeats(days)
    ensures day !in days ==> Toggled(Toggled(days, day), day) == days
    ensures forall x :: x in Toggled(Toggled(days, day), day) <==> x in days
  {
    ToggleFlips(days, day);
    ToggleFlips(Toggled(days, day), day);
    if day !in days {
      var once := days + [day];
      assert IndexOf(once, day) == |days| by {
        assert once[|days|] == day && once[..|days|] == days;
      }
      assert once[..|days|] == days;
    }
  }

  /** With the day marked on every list it ends up unmarked on every list, and vice versa, each
      other day keeping its state. */
  lemma SetDayEffect(days: seq<int>, day: int, on: bool)
    requires NoRepeats(days)
    ensures var r := SetDay(days, day, on);
      && NoRepeats(r)
      && (day in r <==> on)
      && (forall x :: x != day ==> (x in r <==> x in days))
  {
    var idx := IndexOf(days, day);
    if idx > -1 {
      RemoveOnly(days, idx);
    } else {
      AppendOnly(days, day);
    }
  }

  // ---------------------------------------------------------------------------
  // The whole sheet
  // ---------------------------------------------------------------------------

  /** The entries of casual labourers, in the order received. */
  function CasualOnly(data: seq<SheetEntry>): (r: seq<SheetEntry>)
    ensures |r| <= |data|
    ensures forall i :: 0 <= i < |r| ==> r[i].category == Some(CL) && r[i] in data
    ensures forall e :: e in data && e.category == Some(CL) ==> e in r
  {
    if data == [] then []
    else
      var front := CasualOnly(data[..|data| - 1]);
      var last := data[|data| - 1];
      assert data == data[..|data| - 1] + [last];
      if last.category == Some(CL) then front + [last] else front
  }

  /** Filtering a sheet in two pieces gives the two filtered pieces one after the other, so the
      kept entries stay in the order received. */
  lemma {:induction false} CasualOnlyAppend(a: seq<SheetEntry>, b: seq<SheetEntry>)
    ensures CasualOnly(a + b) == CasualOnly(a) + CasualOnly(b)
    decreases |b|
  {
    if b == [] {
      assert a + b == a;
    } else {
      var front := b[..|b| - 1];
      assert (a + b)[..|a + b| - 1] == a + front;
      assert (a + b)[|a + b| - 1] == b[|b| - 1];
      CasualOnlyAppend(a, front);
    }
  }

  /** Each casual entry is kept as many times as it was received; every other entry is dropped. */
  lemma {:induction false} CasualOnlyCounts(data: seq<SheetEntry>)
    ensures forall e :: multiset(CasualOnly(data))[e] == if e.category == Some(CL) then multiset(data)[e] else 0
    decreases |data|
  {
    if data != [] {
      var front := data[..|data| - 1];
      var last := data[|data| - 1];
      assert data == front + [last];
      CasualOnlyCounts(front);
      assert multiset(data) == multiset(front) + multiset{last};
    }
  }

  /** A `null` day list becomes empty. */
  function Initialised(e: SheetEntry): SheetEntry {
    e.(activeDays := Some(e.activeDays.GetOr([])))
  }

  /** What the sheet holds once the entries arrive. */
  function Loaded(data: seq<SheetEntry>): seq<SheetEntry> {
    var casual := CasualOnly(data);
    seq(|casual|, i requires 0 <= i < |casual| => Initialised(casual[i]))
  }

  /** After loading, the sheet lists every casual labourer and nobody else, each with a day list. */
  lemma LoadedSheet(data: seq<SheetEntry>)
    ensures forall i :: 0 <= i < |Loaded(data)| ==>
      Loaded(data)[i].category == Some(CL) && Loaded(data)[i].activeDays.Some?
    ensures forall e :: e in data && e.category == Some(CL) ==> Initialised(e) in Loaded(data)
    ensures forall i :: 0 <= i < |Loaded(data)| ==> exists e :: e in data && Loaded(data)[i] == Initialised(e)
  {
    var casual := CasualOnly(data);
    var loaded := Loaded(data);
    assert |loaded| == |casual|;
    forall i | 0 <= i < |loaded| ensures loaded[i].category == Some(CL) && loaded[i].activeDays.Some? {
      assert loaded[i] == Initialised(casual[i]);
    }
    forall e | e in data && e.category == Some(CL) ensures Initialised(e) in Loaded(data) {
      var k :| 0 <= k < |casual| && casual[k] == e;
      assert Loaded(data)[k] == Initialised(e);
    }
    forall i | 0 <= i < |Loaded(data)| ensures exists e :: e in data && Loaded(data)[i] == Initialised(e) {
      assert casual[i] in data && loaded[i] == Initialised(casual[i]);
    }
  }

  /** Every labourer has the day and there is at least one labourer. */
  function IsDayGloballyActive(entries: seq<SheetEntry>, day: int): (r: bool)
    ensures r <==> entries != [] && forall i :: 0 <= i < |entries| ==> IsDayActive(entries[i], day)
  {
    entries != [] && AllHaveDay(entries, day)
  }

  /** `every`, one entry at a time. */
  function AllHaveDay(entries: seq<SheetEntry>, day: int): (r: bool)
    ensures r <==> forall i :: 0 <= i < |entries| ==> IsDayActive(entries[i], day)
  {
    if entries == [] then true
    else IsDayActive(entries[0], day) && AllHaveDay(entries[1..], day)
  }

  /** The column toggle's new lists: the day goes on for everybody unless everybody had it, in
      which case it comes off for everybody. */
  function GloballyToggled(entries: seq<SheetEntry>, day: int): (r: seq<SheetEntry>)
    ensures |r| == |entries|
    ensures forall i :: 0 <= i < |r| ==> r[i].activeDays.Some? && r[i] == entries[i].(activeDays := r[i].activeDays)
    ensures !IsDayGloballyActive(entries, day) ==> forall i :: 0 <= i < |r| ==> day in r[i].activeDays.value
  {
    var on := !IsDayGloballyActive(entries, day);
    seq(|entries|, i requires 0 <= i < |entries| =>
      entries[i].(activeDays := Some(SetDay(entries[i].activeDays.GetOr([]), day, on))))
  }

  predicate ListsWithoutRepeats(entries: seq<SheetEntry>) {
    forall i :: 0 <= i < |entries| ==> NoRepeats(entries[i].activeDays.GetOr([]))
  }

  /** On a sheet with somebody on it, a header click flips whether the day is marked for
      everybody, leaves every other day of every labourer alone, and lists no day twice. */
  lemma GlobalToggleFlips(entries: seq<SheetEntry>, day: int)
    requires entries != [] && ListsWithoutRepeats(entries)
    ensures var after := GloballyToggled(entries, day);
      && ListsWithoutRepeats(after)
      && (IsDayGloballyActive(after, day) <==> !IsDayGloballyActive(entries, day))
      && (forall i, x :: 0 <= i < |entries| && x != day ==>
            (IsDayActive(after[i], x) <==> IsDayActive(entries[i], x)))
  {
    var on := !IsDayGloballyActive(entries, day);
    var after := GloballyToggled(entries, day);
    forall i | 0 <= i < |entries|
      ensures NoRepeats(after[i].activeDays.value)
      ensures (day in after[i].activeDays.value <==> on)
      ensures forall x :: x != day ==> (IsDayActive(after[i], x) <==> IsDayActive(entries[i], x))
    {
      SetDayEffect(entries[i].activeDays.GetOr([]), day, on);
    }
    if on {
      assert IsDayGloballyActive(after, day);
    } else {
      assert !IsDayActive(after[0], day);
    }
  }

  /** A labourer whose marked days do not number the days entered (a `null` on either side
      counting as zero). */
  predicate Mismatch(e: SheetEntry) {
    |e.activeDays.GetOr([])| != e.daysWorked.GetOr(0)
  }

  /** `hasValidationErrors`: `some`, one entry at a time. */
  function HasValidationErrors(entries: seq<SheetEntry>): (r: bool)
    ensures r <==> exists i :: 0 <= i < |entries| && Mismatch(entries[i])
  {
    if entries == [] then false
    else if Mismatch(entries[0]) then true
    else
      var rest := HasValidationErrors(entries[1..]);
      assert forall i :: 1 <= i < |entries| ==> entries[i] == entries[1..][i - 1];
      rest
  }

  /** The component's state. */
  class AttendanceSheet {
    var period: Option<Period>
    var days: seq<int>
    var entries: seq<SheetEntry>

    constructor ()
      ensures period == None && days == [] && entries == []
    {
      period := None;
      days := [];
      entries := [];
    }

    /** `generateDays`: the column headers for the period's month (nothing changes without a
        period). */
    method GenerateDays()
      modifies this
      ensures period == old(period) && entries == old(entries)
      ensures old(period).None? ==> days == old(days)
      ensures old(period).Some? ==> days == DayList(JsDaysInMonth(period.value.year, period.value.month))
    {
      if period.None? {
        return;
      }
      var daysInMonth := JsDaysInMonth(period.value.year, period.value.month);
      days := DayList(daysInMonth);
    }

    /** The entries arrive: keep the casual labourers, then give every `null` day list an empty one. */
    method LoadEntries(data: seq<SheetEntry>)
      modifies this
      ensures entries == Loaded(data)
      ensures period == old(period) && days == old(days)
    {
      var casual := CasualOnly(data);
      entries := casual;
      var i := 0;
      while i < |entries|
        invariant 0 <= i <= |entries| == |casual|
        invariant forall j :: 0 <= j < i ==> entries[j] == Initialised(casual[j])
        invariant forall j :: i <= j < |entries| ==> entries[j] == casual[j]
        invariant period == old(period) && days == old(days)
      {
        if entries[i].activeDays.None? {
          entries := entries[i := entries[i].(activeDays := Some([]))];
        }
        i := i + 1;
      }
    }

    /** `toggleDay` on the labourer in row `row`. */
    method ToggleDay(row: int, day: int)
      requires 0 <= row < |entries|
      modifies this
      ensures entries == old(entries)[row := old(entries)[row].(activeDays := Some(Toggled(old(entries)[row].activeDays.GetOr([]), day)))]
      ensures period == old(period) && days == old(days)
    {
      var current := entries[row].activeDays.GetOr([]);
      var idx := IndexOf(current, day);
      if idx > -1 {
        current := current[..idx] + current[idx + 1..];
      } else {
        current := current + [day];
      }
      entries := entries[row := entries[row].(activeDays := Some(current))];
    }

    /** `toggleDayGlobally`: nothing on a closed period; otherwise the column toggle, one
        labourer at a time. */
    method ToggleDayGlobally(day: int)
      modifies this
      ensures period == old(period) && days == old(days)
      ensures period.Some? && period.value.status == Closed ==> entries == old(entries)
      ensures !(period.Some? && period.value.status == Closed) ==> entries == GloballyToggled(old(entries), day)
    {
      if period.Some? && period.value.status == Closed {
        return;
      }
      var allActive := IsDayGloballyActive(entries, day);
      var newState := !allActive;
      ghost var before := entries;
      var i := 0;
      while i < |entries|
        invariant 0 <= i <= |entries| == |before|
        invariant newState == !IsDayGloballyActive(before, day)
        invariant forall j :: 0 <= j < i ==> entries[j] == GloballyToggled(before, day)[j]
        invariant forall j :: i <= j < |entries| ==> entries[j] == before[j]
        invariant period == old(period) && days == old(days)
      {
        var current := entries[i].activeDays.GetOr([]);
        var idx := IndexOf(current, day);
        if newState {
          if idx == -1 {
            current := current + [day];
          }
        } else {
          if idx > -1 {
            current := current[..idx] + current[idx + 1..];
          }
        }
        assert current == SetDay(before[i].activeDays.GetOr([]), day, newState);
        assert GloballyToggled(before, day)[i] == before[i].(activeDays := Some(current));
        entries := entries[i := entries[i].(activeDays := Some(current))];
        i := i + 1;
      }
    }
  }

  /** February has 29 columns in a leap year and 28 otherwise. */
  lemma FebruaryColumns()
    ensures JsDaysInMonth(2024, 2) == 29 && JsDaysInMonth(2023, 2) == 28
  {
  }

  /** Clicking a marked day unmarks it, keeping the others in order. */
  lemma ClickMarked(days: seq<int>)
    requires days == [3, 5, 7]
    ensures Toggled(days, 5) == [3, 7]
  {
    assert IndexOf(days, 5) == 1;
    assert days[..1] + days[2..] == [3, 7];
  }

  /** Clicking an unmarked day appends it. */
  lemma ClickUnmarked(days: seq<int>)
    requires days == [3, 7]
    ensures Toggled(days, 5) == [3, 7, 5]
  {
    assert IndexOf(days, 5) == -1;
  }
}
