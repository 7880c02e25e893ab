/** The monthly EPF electronic challan-cum-return text: one `#~#`-separated line per entry of the
    period, in repository order. */
module EpfReturn {
  import opened Wrappers
  import opened Money
  import opened Entities
  import Store
  import Text
  import PayrollCalculator

  /** Wages above 15000 rupees are capped for the EPS and EDLI columns. */
  const EPS_WAGE_CEILING: int := 1_500_000
  /** The EPS contribution is at most 1250 rupees. */
  const EPS_MAX_CONTRIBUTION: int := 125_000
  /** The EPF-EPS difference remitted when the EPS contribution is at its maximum. */
  const CEILING_DIFFERENCE: int := 55_000
  /** 8.33 %. */
  const EPS_RATE: int := 833
  /** The one member whose whole contribution goes to EPF: EPS wages and contribution are zero. */
  const EXEMPT_UAN: string := "102194618333"
  const SEPARATOR: string := "#~#"

  /** The eleven columns of one return line; amounts in paise, days as a count. */
  datatype EpfRecord = EpfRecord(
    uan: string,
    name: string,
    grossWages: int,
    epfWages: int,
    epsWages: int,
    edliWages: int,
    epfContribution: int,
    epsContribution: int,
    difference: int,
    ncpDays: int,
    refund: int)

  function EpfRecordOf(e: Entry, daysInMonth: int): (r: EpfRecord)
    requires e.employee.Some?
    ensures r.uan == (if e.employee.value.uanNumber.Some? then Text.Trim(e.employee.value.uanNumber.value) else "")
    ensures r.name == (if e.employee.value.fullName.Some? then Text.Trim(e.employee.value.fullName.value) else "")
    ensures r.epfContribution == ApplyRate(PayrollCalculator.WageBasis(e), PayrollCalculator.EPF_RATE)
    ensures r.uan == EXEMPT_UAN ==> r.epsWages == 0 && r.epsContribution == 0
    ensures r.uan != EXEMPT_UAN ==> r.epsWages == r.edliWages
  {
    var employee := e.employee.value;
    var days := e.daysWorked.GetOr(0);
    var gross := PayrollCalculator.WageBasis(e);
    var epsWages := if gross > EPS_WAGE_CEILING then EPS_WAGE_CEILING else gross;
    var edliWages := epsWages;
    var epfContribution := ApplyRate(gross, PayrollCalculator.EPF_RATE);
    var calculatedEps := ApplyRate(gross, EPS_RATE);
    var epsContribution := if calculatedEps > EPS_MAX_CONTRIBUTION then EPS_MAX_CONTRIBUTION else calculatedEps;
    var ncpDays := if daysInMonth - days < 0 then 0 else daysInMonth - days;
    var uan := if employee.uanNumber.Some? then Text.Trim(employee.uanNumber.value) else "";
    var name := if employee.fullName.Some? then Text.Trim(employee.fullName.value) else "";
    if uan == EXEMPT_UAN then
      var difference := if gross > PayrollCalculator.EPF_CAP_LIMIT then PayrollCalculator.EPF_MAX_SHARE
                        else ApplyRate(gross, PayrollCalculator.EPF_RATE);
      EpfRecord(uan, name, gross, gross, 0, edliWages, epfContribution, 0, difference, ncpDays, 0)
    else
      var difference := if epsContribution == EPS_MAX_CONTRIBUTION then CEILING_DIFFERENCE
                        else epfContribution - epsContribution;
      EpfRecord(uan, name, gross, gross, epsWages, edliWages, epfContribution, epsContribution, difference, ncpDays, 0)
  }

  /** The eleven columns as printed: money columns print their whole rupees (`longValue`),
      counts print as they are. */
  function EpfFields(r: EpfRecord): (fields: seq<string>)
    ensures |fields| == 11
  {
    [r.uan, r.name,
     Text.IntToString(TruncateToRupees(r.grossWages)),
     Text.IntToString(TruncateToRupees(r.epfWages)),
     Text.IntToString(TruncateToRupees(r.epsWages)),
     Text.IntToString(TruncateToRupees(r.edliWages)),
     Text.IntToString(TruncateToRupees(r.epfContribution)),
     Text.IntToString(TruncateToRupees(r.epsContribution)),
     Text.IntToString(TruncateToRupees(r.difference)),
     Text.IntToString(r.ncpDays),
     Text.IntToString(r.refund)]
  }

  /** One line of the return: the columns in order, separated by `#~#`, then a line break. */
  function EpfLine(r: EpfRecord): (line: string)
    ensures Text.StartsWith(line, r.uan + SEPARATOR + r.name + SEPARATOR)
    ensures Text.EndsWith(line, SEPARATOR + Text.IntToString(r.ncpDays) + SEPARATOR + Text.IntToString(r.refund) + "\n")
  {
    var fields := EpfFields(r);
    var line := Text.Join(fields, SEPARATOR) + "\n";
    EpfLineEnds(fields);
    line
  }

  /** How the join of eleven columns begins and ends. */
  lemma EpfLineEnds(fields: seq<string>)
    requires |fields| == 11
    ensures Text.StartsWith(Text.Join(fields, SEPARATOR) + "\n", fields[0] + SEPARATOR + fields[1] + SEPARATOR)
    ensures Text.EndsWith(Text.Join(fields, SEPARATOR) + "\n", SEPARATOR + fields[9] + SEPARATOR + fields[10] + "\n")
  {
    JoinedHead(fields);
    JoinedTail(fields);
  }

  lemma JoinedHead(fields: seq<string>)
    requires |fields| == 11
    ensures Text.StartsWith(Text.Join(fields, SEPARATOR) + "\n", fields[0] + SEPARATOR + fields[1] + SEPARATOR)
  {
    var head := fields[0] + SEPARATOR + fields[1] + SEPARATOR;
    assert fields == [fields[0]] + fields[1..] && fields[1..] == [fields[1]] + fields[2..];
    Text.JoinCons(fields[0], fields[1..], SEPARATOR);
    Text.JoinCons(fields[1], fields[2..], SEPARATOR);
    var line := Text.Join(fields, SEPARATOR) + "\n";
    assert line == head + (Text.Join(fields[2..], SEPARATOR) + "\n");
    assert line[..|head|] == head;
  }

  lemma JoinedTail(fields: seq<string>)
    requires |fields| == 11
    ensures Text.EndsWith(Text.Join(fields, SEPARATOR) + "\n", SEPARATOR + fields[9] + SEPARATOR + fields[10] + "\n")
  {
    var tail := SEPARATOR + fields[9] + SEPARATOR + fields[10] + "\n";
    assert fields == fields[..10] + [fields[10]] && fields[..10] == fields[..9] + [fields[9]];
    Text.JoinSnoc(fields[..10], fields[10], SEPARATOR);
    Text.JoinSnoc(fields[..9], fields[9], SEPARATOR);
    var line := Text.Join(fields, SEPARATOR) + "\n";
    assert line == Text.Join(fields[..9], SEPARATOR) + tail;
    assert line[|line| - |tail|..] == tail;
  }

  /** Reading a line back: without its line break and split on '#', it gives each column in
      order, with a "~" between every two; the amounts read back as whole rupees. */
  lemma EpfLineReadsBack(r: EpfRecord)
    requires '#' !in r.uan && '#' !in r.name
    ensures var line := EpfLine(r);
      && line[|line| - 1] == '\n'
      && var pieces := Text.JavaSplit(line[..|line| - 1], '#');
      && |pieces| == 21
      && (forall k :: 0 <= k < 10 ==> pieces[2 * k + 1] == "~")
      && pieces[0] == r.uan && pieces[2] == r.name
      && pieces[4] == Text.IntToString(TruncateToRupees(r.grossWages))
      && pieces[6] == Text.IntToString(TruncateToRupees(r.epfWages))
      && pieces[8] == Text.IntToString(TruncateToRupees(r.epsWages))
      && pieces[10] == Text.IntToString(TruncateToRupees(r.edliWages))
      && pieces[12] == Text.IntToString(TruncateToRupees(r.epfContribution))
      && pieces[14] == Text.IntToString(TruncateToRupees(r.epsContribution))
      && pieces[16] == Text.IntToString(TruncateToRupees(r.difference))
      && pieces[18] == Text.IntToString(r.ncpDays)
      && pieces[20] == Text.IntToString(r.refund)
  {
    EpfLineSplit(r);
    var fields := EpfFields(r);
    EpfColumnsMarked(fields);
    var pieces := Text.Tilded(fields);
    assert pieces[0] == fields[0] && pieces[2] == fields[1] && pieces[4] == fields[2];
    assert pieces[6] == fields[3] && pieces[8] == fields[4] && pieces[10] == fields[5];
    assert pieces[12] == fields[6] && pieces[14] == fields[7] && pieces[16] == fields[8];
    assert pieces[18] == fields[9] && pieces[20] == fields[10];
  }

  /** Where each of eleven columns, and each "~" mark, stands once they are marked. */
  lemma EpfColumnsMarked(fields: seq<string>)
    requires |fields| == 11
    ensures var pieces := Text.Tilded(fields);
      && |pieces| == 21
      && (forall k :: 0 <= k < 10 ==> pieces[2 * k + 1] == "~")
      && (forall k :: 0 <= k < 11 ==> pieces[2 * k] == fields[k])
  {
    forall k | 0 <= k < 11
      ensures Text.Tilded(fields)[2 * k] == fields[k]
      ensures k < 10 ==> Text.Tilded(fields)[2 * k + 1] == "~"
    {
      Text.TildedAt(fields, k);
    }
  }

  /** The line without its break, split on '#', is the columns with "~" marks between them. */
  lemma EpfLineSplit(r: EpfRecord)
    requires '#' !in r.uan && '#' !in r.name
    ensures var line := EpfLine(r);
      && line[|line| - 1] == '\n'
      && Text.JavaSplit(line[..|line| - 1], '#') == Text.Tilded(EpfFields(r))
  {
    var fields := EpfFields(r);
    var line := EpfLine(r);
    assert line[..|line| - 1] == Text.Join(fields, "#~#");
    EpfFieldsPlain(r);
    SplitJoined(fields);
  }

  /** None of the columns holds a '#' when the UAN and the name do not. */
  lemma EpfFieldsPlain(r: EpfRecord)
    requires '#' !in r.uan && '#' !in r.name
    ensures forall k :: 0 <= k < 11 ==> '#' !in EpfFields(r)[k]
  {
    Text.IntToStringPlain(TruncateToRupees(r.grossWages), '#');
    Text.IntToStringPlain(TruncateToRupees(r.epfWages), '#');
    Text.IntToStringPlain(TruncateToRupees(r.epsWages), '#');
    Text.IntToStringPlain(TruncateToRupees(r.edliWages), '#');
    Text.IntToStringPlain(TruncateToRupees(r.epfContribution), '#');
    Text.IntToStringPlain(TruncateToRupees(r.epsContribution), '#');
    Text.IntToStringPlain(TruncateToRupees(r.difference), '#');
    Text.IntToStringPlain(r.ncpDays, '#');
    Text.IntToStringPlain(r.refund, '#');
  }

  /** Columns without '#', the last one not empty, joined with `#~#` and split on '#'. */
  lemma SplitJoined(fields: seq<string>)
    requires |fields| >= 2 && fields[|fields| - 1] != ""
    requires forall k :: 0 <= k < |fields| ==> '#' !in fields[k]
    ensures Text.JavaSplit(Text.Join(fields, "#~#"), '#') == Text.Tilded(fields)
  {
    TildedEnds(fields);
    TildedHashFree(fields);
    TildedSplits(fields);
    Text.JoinTilded(fields);
  }

  /** The marked columns are at least two pieces and end with the last, non-empty column. */
  lemma TildedEnds(fields: seq<string>)
    requires |fields| >= 2 && fields[|fields| - 1] != ""
    ensures |Text.Tilded(fields)| >= 2 && Text.Tilded(fields)[|Text.Tilded(fields)| - 1] != ""
  {
    var t := Text.Tilded(fields);
    Text.TildedAt(fields, |fields| - 1);
    assert t[|t| - 1] == fields[|fields| - 1];
  }

  lemma TildedHashFree(fields: seq<string>)
    requires forall k :: 0 <= k < |fields| ==> '#' !in fields[k]
    ensures forall k :: 0 <= k < |Text.Tilded(fields)| ==> '#' !in Text.Tilded(fields)[k]
  {
    Text.TildedAvoids(fields, '#');
  }

  /** Stated over `Tilded(fields)` itself: checking the split's preconditions on a local copy of
      it is far more expensive for the solver. */
  lemma TildedSplits(fields: seq<string>)
    requires |Text.Tilded(fields)| >= 2 && Text.Tilded(fields)[|Text.Tilded(fields)| - 1] != ""
    requires forall k :: 0 <= k < |Text.Tilded(fields)| ==> '#' !in Text.Tilded(fields)[k]
    ensures Text.JavaSplit(Text.Join(Text.Tilded(fields), ['#']), '#') == Text.Tilded(fields)
  {
    Text.JavaSplitJoin(Text.Tilded(fields), '#');
  }

  function EpfLines(entries: seq<Entry>, daysInMonth: int): string
    requires AllHaveEmployees(entries)
  {
    if entries == [] then ""
    else EpfLines(entries[..|entries| - 1], daysInMonth) + EpfLine(EpfRecordOf(entries[|entries| - 1], daysInMonth))
  }

  /** The whole return; the month's length is looked up for every line, so a period whose month
      is not 1..12 fails (`None`) as soon as there is a line to write. */
  function EpfText(entries: seq<Entry>, period: Period): Option<string>
    requires AllHaveEmployees(entries)
  {
    if entries == [] then Some("")
    else if !(1 <= period.month <= 12) then None
    else Some(EpfLines(entries, DaysInMonth(period.year, period.month)))
  }

  lemma EpfLinesStep(entries: seq<Entry>, i: nat, daysInMonth: int)
    requires AllHaveEmployees(entries) && i < |entries|
    ensures AllHaveEmployees(entries[..i]) && AllHaveEmployees(entries[..i + 1])
    ensures EpfLines(entries[..i + 1], daysInMonth)
      == EpfLines(entries[..i], daysInMonth) + EpfLine(EpfRecordOf(entries[i], daysInMonth))
  {
    PrefixHasEmployees(entries, i);
    PrefixHasEmployees(entries, i + 1);
    assert entries[..i + 1][..i] == entries[..i];
  }

  lemma PrefixHasEmployees(entries: seq<Entry>, i: nat)
    requires AllHaveEmployees(entries) && i <= |entries|
    ensures AllHaveEmployees(entries[..i])
  {
  }

  /** `generateEpfTxt`: appends one line per entry to a buffer. */
  method GenerateEpfTxt(entries: seq<Entry>, period: Period) returns (txt: Option<string>)
    requires AllHaveEmployees(entries)
    ensures txt == EpfText(entries, period)
  {
    var buffer := "";
    var i := 0;
    ghost var monthLength := if 1 <= period.month <= 12 then DaysInMonth(period.year, period.month) else 0;
    PrefixHasEmployees(entries, 0);
    while i < |entries|
      invariant 0 <= i <= |entries|
      invariant i > 0 ==> 1 <= period.month <= 12
      invariant AllHaveEmployees(entries[..i])
      invariant buffer == EpfLines(entries[..i], monthLength)
    {
      if !(1 <= period.month <= 12) {
        return None;
      }
      var daysInMonth := DaysInMonth(period.year, period.month);
      EpfLinesStep(entries, i, daysInMonth);
      buffer := buffer + EpfLine(EpfRecordOf(entries[i], daysInMonth));
      i := i + 1;
    }
    assert entries[..i] == entries;
    return Some(buffer);
  }

  /** `generateEpfTxt` as called: the period is looked up by id, failing with
      `NoSuchElementException` when there is none, then its entries are fetched in repository
      order; a month outside 1..12 throws `DateTimeException` from `YearMonth.of`. */
  method GenerateEpfTxtById(s: Store.State, periodId: nat) returns (r: Result<string, string>)
    requires AllHaveEmployees(EntriesOfPeriod(s.entries, periodId))
    ensures Store.PeriodWithId(s.periods, periodId).None? ==> r == Failure(Store.NO_SUCH_ELEMENT)
    ensures Store.PeriodWithId(s.periods, periodId).Some? ==>
      var txt := EpfText(EntriesOfPeriod(s.entries, periodId), Store.PeriodWithId(s.periods, periodId).value);
      r == if txt.Some? then Success(txt.value) else Failure(Store.DATE_TIME_EXCEPTION)
  {
    var period := Store.PeriodWithId(s.periods, periodId);
    if period.None? {
      return Failure(Store.NO_SUCH_ELEMENT);
    }
    var txt := GenerateEpfTxt(EntriesOfPeriod(s.entries, periodId), period.value);
    r := if txt.Some? then Success(txt.value) else Failure(Store.DATE_TIME_EXCEPTION);
  }

  // ---------------------------------------------------------------------------
  // Properties of a return line
  // ---------------------------------------------------------------------------

  /** The capped columns never exceed their ceilings, EDLI wages stay capped even for the exempt
      member, and the non-contributory days are the days of the month not worked, never negative. */
  lemma EpfRecordBounds(e: Entry, daysInMonth: int)
    requires e.employee.Some?
    ensures var r := EpfRecordOf(e, daysInMonth);
      && r.grossWages == r.epfWages == PayrollCalculator.WageBasis(e)
      && r.epsWages <= EPS_WAGE_CEILING && r.epsContribution <= EPS_MAX_CONTRIBUTION
      && r.edliWages == (if r.grossWages > EPS_WAGE_CEILING then EPS_WAGE_CEILING else r.grossWages)
      && r.ncpDays >= 0 && r.ncpDays >= daysInMonth - e.daysWorked.GetOr(0)
      && (r.ncpDays == 0 || r.ncpDays == daysInMonth - e.daysWorked.GetOr(0))
      && r.refund == 0
  {
  }

  /** Above the wage ceiling the EPS contribution is its maximum and the difference is 550 rupees. */
  lemma EpfAboveCeiling(e: Entry, daysInMonth: int)
    requires e.employee.Some?
    requires PayrollCalculator.WageBasis(e) > EPS_WAGE_CEILING
    requires EpfRecordOf(e, daysInMonth).uan != EXEMPT_UAN
    ensures var r := EpfRecordOf(e, daysInMonth);
      r.epsWages == EPS_WAGE_CEILING && r.epsContribution == EPS_MAX_CONTRIBUTION
      && r.difference == CEILING_DIFFERENCE
  {
    var gross := PayrollCalculator.WageBasis(e);
    var q := RoundHalfUp(gross * EPS_RATE, RATE_SCALE * PAISE_PER_RUPEE);
    assert q >= 1250;
  }

  /** Up to the wage ceiling the difference is exactly the EPF contribution less the EPS
      contribution: the 550-rupee rule only fires at 15000 rupees, where both agree. */
  lemma EpfUpToCeiling(e: Entry, daysInMonth: int)
    requires e.employee.Some?
    requires 0 <= PayrollCalculator.WageBasis(e) <= EPS_WAGE_CEILING
    requires EpfRecordOf(e, daysInMonth).uan != EXEMPT_UAN
    ensures var r := EpfRecordOf(e, daysInMonth);
      r.epsWages == r.grossWages && r.epsContribution == ApplyRate(r.grossWages, EPS_RATE)
      && r.difference == r.epfContribution - r.epsContribution
  {
    EpsUpToCeiling(PayrollCalculator.WageBasis(e));
  }

  /** The arithmetic behind `EpfUpToCeiling`: up to the ceiling the EPS share reaches its
      maximum only at the ceiling itself, where the EPF share is 1800 rupees. */
  lemma EpsUpToCeiling(gross: int)
    requires 0 <= gross <= EPS_WAGE_CEILING
    ensures ApplyRate(gross, EPS_RATE) <= EPS_MAX_CONTRIBUTION
    ensures ApplyRate(gross, EPS_RATE) == EPS_MAX_CONTRIBUTION ==>
      ApplyRate(gross, PayrollCalculator.EPF_RATE) - ApplyRate(gross, EPS_RATE) == CEILING_DIFFERENCE
  {
    var q := RoundHalfUp(gross * EPS_RATE, RATE_SCALE * PAISE_PER_RUPEE);
    assert q == (2 * (gross * 833) + 1_000_000) / 2_000_000;
    assert q <= 1250;
    if q == 1250 {
      assert gross == EPS_WAGE_CEILING;
      var p := RoundHalfUp(gross * PayrollCalculator.EPF_RATE, RATE_SCALE * PAISE_PER_RUPEE);
      assert p == 1800;
    }
  }

  /** For the exempt member nothing goes to EPS and the difference is the contractor's EPF share
      the payroll calculation stores. */
  lemma EpfExemptMember(e: Entry, daysInMonth: int)
    requires e.employee.Some?
    requires EpfRecordOf(e, daysInMonth).uan == EXEMPT_UAN
    ensures var r := EpfRecordOf(e, daysInMonth);
      r.epsWages == 0 && r.epsContribution == 0
      && r.difference == PayrollCalculator.Calculated(e).epfContractorShare
  {
  }

  /** The return agrees with the stored calculation: its EPF contribution is the member's EPF
      share of a calculated entry, computed on the same wage basis. */
  lemma EpfMatchesCalculation(e: Entry, daysInMonth: int)
    requires e.employee.Some?
    ensures EpfRecordOf(e, daysInMonth).epfContribution == PayrollCalculator.Calculated(e).epfMemberShare
  {
  }

  /** A casual labourer with 10 days in a 30-day month, and a head-load worker paid 20000 rupees
      for 20 days. */
  lemma EpfWorkedExamples(cl: Employee, hl: Employee)
    requires cl.category == Some(CL) && cl.uanNumber == Some("CL_UAN")
    requires hl.category == Some(HL) && hl.uanNumber == Some("HIGH_UAN")
    ensures var r := EpfRecordOf(NewEntry(0, 0, cl).(daysWorked := Some(10)), 30);
      r.grossWages == r.epfWages == Rupees(5410) && r.epfContribution == Rupees(649)
      && r.epsContribution == Rupees(451) && r.difference == Rupees(198) && r.ncpDays == 20
    ensures var r := EpfRecordOf(NewEntry(0, 0, hl).(daysWorked := Some(20), wagesEarned := Some(Rupees(20000))), 30);
      r.grossWages == Rupees(20000) && r.epsWages == Rupees(15000) && r.epfContribution == Rupees(2400)
      && r.epsContribution == Rupees(1250) && r.difference == Rupees(550) && r.ncpDays == 10
  {
    CasualExample(cl);
    HeadLoadExample(hl);
  }

  lemma CasualExample(cl: Employee)
    requires cl.category == Some(CL) && cl.uanNumber == Some("CL_UAN")
    ensures var r := EpfRecordOf(NewEntry(0, 0, cl).(daysWorked := Some(10)), 30);
      r.grossWages == r.epfWages == Rupees(5410) && r.epfContribution == Rupees(649)
      && r.epsContribution == Rupees(451) && r.difference == Rupees(198) && r.ncpDays == 20
  {
    var e := NewEntry(0, 0, cl).(daysWorked := Some(10));
    Text.TrimOfTrimmed("CL_UAN");
    assert PayrollCalculator.WageBasis(e) == 541_000;
    assert ApplyRate(541_000, PayrollCalculator.EPF_RATE) == 64_900;
    assert ApplyRate(541_000, EPS_RATE) == 45_100;
  }

  lemma HeadLoadExample(hl: Employee)
    requires hl.category == Some(HL) && hl.uanNumber == Some("HIGH_UAN")
    ensures var r := EpfRecordOf(NewEntry(0, 0, hl).(daysWorked := Some(20), wagesEarned := Some(Rupees(20000))), 30);
      r.grossWages == Rupees(20000) && r.epsWages == Rupees(15000) && r.epfContribution == Rupees(2400)
      && r.epsContribution == Rupees(1250) && r.difference == Rupees(550) && r.ncpDays == 10
  {
    var e := NewEntry(0, 0, hl).(daysWorked := Some(20), wagesEarned := Some(Rupees(20000)));
    Text.TrimOfTrimmed("HIGH_UAN");
    assert PayrollCalculator.WageBasis(e) == 2_000_000;
    assert ApplyRate(2_000_000, PayrollCalculator.EPF_RATE) == 240_000;
    assert ApplyRate(2_000_000, EPS_RATE) == 166_600;
  }
}
