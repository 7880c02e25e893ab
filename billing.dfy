/** Issue work slips for billing (`BillingService`): the language model's reading of each uploaded
    slip becomes a row the user reviews, and the reviewed rows are saved as ISSUE work slips after
    blocking checks. */
module Billing {
  import opened Wrappers
  import opened Entities
  import Text

  // ---------------------------------------------------------------------------
  // The model's answer and the review row
  // ---------------------------------------------------------------------------

  datatype SlipHeader = SlipHeader(workSlipNo: Option<string>, dateOfOperation: Option<string>)

  datatype Quantities = Quantities(totalBagsWritten: Option<string>)

  /** The parts of the model's answer the mapping reads. */
  datatype WorkSlipResult = WorkSlipResult(status: Option<string>, header: Option<SlipHeader>, quantities: Option<Quantities>)

  /** A review row. The confidence score (a `Double` of 0.0 to 1.0) is kept in hundredths. */
  datatype IssueSlipRow = IssueSlipRow(
    siNo: Option<string>,
    entryDate: Option<CalendarDate>,
    slipNumber: Option<string>,
    totalBags: Option<int>,
    clause: Option<string>,
    part: Option<string>,
    status: Option<string>,
    warningMessage: Option<string>,
    confidencePercent: Option<int>)

  /** `new IssueSlipDTO()` numbered `serial`. */
  function NewRow(serial: int): IssueSlipRow {
    IssueSlipRow(Some(Text.IntToString(serial)), None, None, None, None, None, None, None, None)
  }

  /** How Java prints a possibly-null string in a concatenation. */
  function Shown(s: Option<string>): string {
    if s.Some? then s.value else "null"
  }

  /** A field the model may leave out or answer with the word "NULL" in any case. */
  predicate Answered(s: Option<string>) {
    s.Some? && !Text.EqualsIgnoreCase(s.value, "NULL")
  }

  /** `mapResultToDTO`. `parseDate` is `LocalDate.parse` with the pattern dd/MM/yyyy (`None` where
      it throws); a date or bag count that fails to parse leaves the field as it was. */
  function MapResult(row: IssueSlipRow, result: WorkSlipResult, parseDate: string -> Option<CalendarDate>): (r: IssueSlipRow)
    ensures r.siNo == row.siNo
    ensures result.status.Some? && Text.EqualsIgnoreCase("SUCCESS", result.status.value) ==>
      && r.status == Some("EXTRACTED") && r.confidencePercent == Some(95) && r.warningMessage.None?
      && r.clause.None? && r.part.None?
      && r.slipNumber == (if result.header.Some? then result.header.value.workSlipNo else row.slipNumber)
      && r.entryDate == (
           if result.header.Some? && Answered(result.header.value.dateOfOperation)
              && parseDate(result.header.value.dateOfOperation.value).Some?
           then parseDate(result.header.value.dateOfOperation.value)
           else row.entryDate)
      && r.totalBags == (
           if result.quantities.Some? && Answered(result.quantities.value.totalBagsWritten)
              && Text.ParseInt(result.quantities.value.totalBagsWritten.value).Some?
           then Text.ParseInt(result.quantities.value.totalBagsWritten.value)
           else row.totalBags)
    ensures !(result.status.Some? && Text.EqualsIgnoreCase("SUCCESS", result.status.value)) ==>
      r == row.(status := Some("REJECTED"), confidencePercent := Some(0),
                warningMessage := Some(Shown(result.status) + ": Not a valid Work Slip"))
  {
    if result.status.Some? && Text.EqualsIgnoreCase("SUCCESS", result.status.value) then
      var withHeader :=
        if result.header.None? then row
        else
          var header := result.header.value;
          var date := if Answered(header.dateOfOperation) then parseDate(header.dateOfOperation.value) else None;
          row.(slipNumber := header.workSlipNo, entryDate := if date.Some? then date else row.entryDate);
      var bags :=
        if result.quantities.Some? && Answered(result.quantities.value.totalBagsWritten)
        then Text.ParseInt(result.quantities.value.totalBagsWritten.value)
        else None;
      withHeader.(status := Some("EXTRACTED"), confidencePercent := Some(95), warningMessage := None,
                  totalBags := if bags.Some? then bags else withHeader.totalBags, clause := None, part := None)
    else
      row.(status := Some("REJECTED"), confidencePercent := Some(0),
           warningMessage := Some(Shown(result.status) + ": Not a valid Work Slip"))
  }

  /** One uploaded file's row: the mapping of the model's answer, or, when the call throws, a row
      that must be verified by hand. */
  function RowFor(serial: int, outcome: Result<WorkSlipResult, string>, parseDate: string -> Option<CalendarDate>): (r: IssueSlipRow)
    ensures r.siNo == Some(Text.IntToString(serial))
    ensures r.status == Some("EXTRACTED") || r.status == Some("REJECTED") || r.status == Some("NEEDS_VERIFICATION")
    ensures r.status == Some("NEEDS_VERIFICATION") <==> outcome.Failure?
    ensures outcome.Failure? ==>
      && r.warningMessage == Some("Extraction Error: " + outcome.error)
      && r.entryDate.None? && r.slipNumber.None? && r.totalBags.None? && r.confidencePercent.None?
  {
    var row := NewRow(serial);
    if outcome.Success? then MapResult(row, outcome.value, parseDate)
    else row.(status := Some("NEEDS_VERIFICATION"), warningMessage := Some("Extraction Error: " + outcome.error))
  }

  function Rows(outcomes: seq<Result<WorkSlipResult, string>>, parseDate: string -> Option<CalendarDate>): (r: seq<IssueSlipRow>)
    ensures |r| == |outcomes|
  {
    seq(|outcomes|, i requires 0 <= i < |outcomes| => RowFor(i + 1, outcomes[i], parseDate))
  }

  /** `extractIssueData`, given what the model answered for each file in turn (`Failure` where
      the call threw). */
  method ExtractIssueData(outcomes: seq<Result<WorkSlipResult, string>>, parseDate: string -> Option<CalendarDate>)
    returns (rows: seq<IssueSlipRow>)
    ensures rows == Rows(outcomes, parseDate)
  {
    rows := [];
    var siCounter := 1;
    var i := 0;
    while i < |outcomes|
      invariant 0 <= i <= |outcomes| && siCounter == i + 1
      invariant rows == Rows(outcomes[..i], parseDate)
    {
      var row := NewRow(siCounter);
      siCounter := siCounter + 1;
      if outcomes[i].Success? {
        row := MapResult(row, outcomes[i].value, parseDate);
      } else {
        row := row.(status := Some("NEEDS_VERIFICATION"), warningMessage := Some("Extraction Error: " + outcomes[i].error));
      }
      assert row == RowFor(i + 1, outcomes[i], parseDate);
      RowsStep(outcomes, i, parseDate);
      rows := rows + [row];
      i := i + 1;
    }
    assert outcomes[..i] == outcomes;
  }

  lemma RowsStep(outcomes: seq<Result<WorkSlipResult, string>>, i: nat, parseDate: string -> Option<CalendarDate>)
    requires i < |outcomes|
    ensures Rows(outcomes[..i + 1], parseDate) == Rows(outcomes[..i], parseDate) + [RowFor(i + 1, outcomes[i], parseDate)]
  {
  }

  /** The rows are numbered 1, 2, 3, ... in upload order, one per file, and a failed call never
      loses its file: it comes back as a row to verify. */
  lemma RowsNumbered(outcomes: seq<Result<WorkSlipResult, string>>, parseDate: string -> Option<CalendarDate>)
    ensures forall i :: 0 <= i < |outcomes| ==> Rows(outcomes, parseDate)[i].siNo == Some(Text.IntToString(i + 1))
    ensures forall i :: 0 <= i < |outcomes| && outcomes[i].Failure? ==>
      Rows(outcomes, parseDate)[i].status == Some("NEEDS_VERIFICATION")
  {
  }

  // ---------------------------------------------------------------------------
  // Saving
  // ---------------------------------------------------------------------------

  datatype WorkSlipCategory = Issue | Receipt | Qc

  datatype WorkSlip = WorkSlip(slipNumber: string, category: WorkSlipCategory, entryDate: CalendarDate, issueTotalBags: Option<int>, imagePath: string)

  predicate IssueExists(slips: seq<WorkSlip>, slipNumber: string) {
    exists i :: 0 <= i < |slips| && slips[i].slipNumber == slipNumber && slips[i].category == Issue
  }

  /** The first blocking check a row fails against the slips saved so far, if any. */
  function Rejection(row: IssueSlipRow, slips: seq<WorkSlip>): (r: Option<string>)
    ensures r.None? <==>
      && row.status != Some("NEEDS_VERIFICATION")
      && row.slipNumber.Some? && !Text.IsBlank(row.slipNumber.value)
      && row.entryDate.Some?
      && row.totalBags.Some? && row.totalBags.value > 0
      && !IssueExists(slips, row.slipNumber.value)
  {
    var prefix := "Validation Failed: Row SI No " + Shown(row.siNo);
    if row.status == Some("NEEDS_VERIFICATION") then Some(prefix + " requires verification.")
    else if row.slipNumber.None? || Text.IsBlank(row.slipNumber.value) then Some(prefix + " is missing Work Slip No.")
    else if row.entryDate.None? then Some(prefix + " is missing Date.")
    else if row.totalBags.None? || row.totalBags.value <= 0 then Some(prefix + " has invalid Bags count.")
    else if IssueExists(slips, row.slipNumber.value) then
      Some("Duplicate work slip detected: Work Slip No " + row.slipNumber.value + ". Please review.")
    else None
  }

  /** The slip saved for an accepted row. */
  function SlipOf(row: IssueSlipRow): WorkSlip
    requires row.slipNumber.Some? && row.entryDate.Some?
  {
    WorkSlip(row.slipNumber.value, Issue, row.entryDate.value, row.totalBags, "placeholder_path")
  }

  /** The whole save, row by row against the slips saved so far: the new slips, or the first
      rejection. */
  function SaveAll(slips: seq<WorkSlip>, rows: seq<IssueSlipRow>): (r: Result<seq<WorkSlip>, string>)
    ensures r.Success? ==> |r.value| == |slips| + |rows| && r.value[..|slips|] == slips
    ensures r.Success? ==> forall i :: 0 <= i < |rows| ==>
      && Rejection(rows[i], r.value[..|slips| + i]).None?
      && rows[i].slipNumber == Some(r.value[|slips| + i].slipNumber)
      && rows[i].entryDate == Some(r.value[|slips| + i].entryDate)
      && r.value[|slips| + i].category == Issue
    decreases |rows|
  {
    if rows == [] then Success(slips)
    else
      var rejection := Rejection(rows[0], slips);
      if rejection.Some? then Failure(rejection.value)
      else SaveAll(slips + [SlipOf(rows[0])], rows[1..])
  }

  class WorkSlipStore {
    var slips: seq<WorkSlip>

    constructor (initial: seq<WorkSlip>)
      ensures slips == initial
    {
      slips := initial;
    }

    /** `saveIssueData`. The method is transactional: a rejection rolls back the slips saved
        earlier in the same call, so the store is then as it was. */
    method SaveIssueData(rows: seq<IssueSlipRow>) returns (outcome: Result<(), string>)
      modifies this
      ensures SaveAll(old(slips), rows).Success? ==> outcome.Success? && slips == SaveAll(old(slips), rows).value
      ensures SaveAll(old(slips), rows).Failure? ==>
        outcome == Failure(SaveAll(old(slips), rows).error) && slips == old(slips)
    {
      var snapshot := slips;
      var i := 0;
      while i < |rows|
        invariant 0 <= i <= |rows|
        invariant SaveAll(snapshot, rows) == SaveAll(slips, rows[i..])
      {
        var row := rows[i];
        assert rows[i..][0] == row && rows[i..][1..] == rows[i + 1..];
        var rejection := Rejection(row, slips);
        if rejection.Some? {
          slips := snapshot;
          return Failure(rejection.value);
        }
        slips := slips + [SlipOf(row)];
        i := i + 1;
      }
      outcome := Success(());
    }
  }

  /** The checks a row must pass on its own, whatever is stored. */
  predicate Complete(row: IssueSlipRow) {
    && row.status != Some("NEEDS_VERIFICATION")
    && row.slipNumber.Some? && !Text.IsBlank(row.slipNumber.value)
    && row.entryDate.Some?
    && row.totalBags.Some? && row.totalBags.value > 0
  }

  /** The slips a fully accepted batch adds, in row order. */
  function SlipsOf(rows: seq<IssueSlipRow>): (r: seq<WorkSlip>)
    requires forall i :: 0 <= i < |rows| ==> Complete(rows[i])
    ensures |r| == |rows|
  {
    if rows == [] then []
    else
      assert Complete(rows[0]) && forall i :: 0 <= i < |rows[1..]| ==> rows[1..][i] == rows[i + 1];
      [SlipOf(rows[0])] + SlipsOf(rows[1..])
  }

  /** Every row complete, none already an ISSUE slip, no number twice. */
  predicate Acceptable(slips: seq<WorkSlip>, rows: seq<IssueSlipRow>) {
    && (forall i :: 0 <= i < |rows| ==> Complete(rows[i]))
    && (forall i :: 0 <= i < |rows| ==> !IssueExists(slips, rows[i].slipNumber.value))
    && (forall i, j :: 0 <= i < j < |rows| ==> rows[i].slipNumber != rows[j].slipNumber)
  }

  /** A batch is saved exactly when every row is complete, no row's number is already an ISSUE
      slip, and no number appears twice in the batch; the store then gains one ISSUE slip per row,
      in order. Otherwise nothing is saved. */
  lemma SaveAllSucceedsIff(slips: seq<WorkSlip>, rows: seq<IssueSlipRow>)
    ensures SaveAll(slips, rows).Success? <==> Acceptable(slips, rows)
    ensures SaveAll(slips, rows).Success? ==> SaveAll(slips, rows).value == slips + SlipsOf(rows)
  {
    if SaveAll(slips, rows).Success? {
      SaveAllAppends(slips, rows);
    } else if Acceptable(slips, rows) {
      SaveAllAccepts(slips, rows);
    }
  }

  lemma {:induction false} SaveAllAccepts(slips: seq<WorkSlip>, rows: seq<IssueSlipRow>)
    requires Acceptable(slips, rows)
    ensures SaveAll(slips, rows) == Success(slips + SlipsOf(rows))
    decreases |rows|
  {
    if rows == [] {
      assert slips + [] == slips;
    } else {
      AcceptableTail(slips, rows);
      SaveAllAccepts(slips + [SlipOf(rows[0])], rows[1..]);
      SlipsOfCons(slips, rows);
    }
  }

  lemma {:induction false} SaveAllAppends(slips: seq<WorkSlip>, rows: seq<IssueSlipRow>)
    requires SaveAll(slips, rows).Success?
    ensures Acceptable(slips, rows)
    ensures SaveAll(slips, rows).value == slips + SlipsOf(rows)
    decreases |rows|
  {
    if rows == [] {
      assert slips + [] == slips;
    } else {
      assert Rejection(rows[0], slips).None?;
      SaveAllAppends(slips + [SlipOf(rows[0])], rows[1..]);
      AcceptableCons(slips, rows);
      SlipsOfCons(slips, rows);
    }
  }

  /** An ISSUE slip with a given number exists after one more slip is saved exactly when it did
      before or the new slip is it. */
  lemma IssueExistsSnoc(slips: seq<WorkSlip>, slip: WorkSlip, slipNumber: string)
    ensures IssueExists(slips + [slip], slipNumber) <==>
      IssueExists(slips, slipNumber) || (slip.slipNumber == slipNumber && slip.category == Issue)
  {
    var next := slips + [slip];
    if IssueExists(next, slipNumber) && !(slip.slipNumber == slipNumber && slip.category == Issue) {
      var k :| 0 <= k < |next| && next[k].slipNumber == slipNumber && next[k].category == Issue;
      assert k < |slips| && next[k] == slips[k];
    }
    if IssueExists(slips, slipNumber) {
      var k :| 0 <= k < |slips| && slips[k].slipNumber == slipNumber && slips[k].category == Issue;
      assert next[k] == slips[k];
    }
    if slip.slipNumber == slipNumber && slip.category == Issue {
      assert next[|slips|] == slip;
    }
  }

  lemma SlipsOfCons(slips: seq<WorkSlip>, rows: seq<IssueSlipRow>)
    requires rows != [] && Complete(rows[0]) && forall i :: 0 <= i < |rows| ==> Complete(rows[i])
    ensures forall i :: 0 <= i < |rows[1..]| ==> Complete(rows[1..][i])
    ensures slips + [SlipOf(rows[0])] + SlipsOf(rows[1..]) == slips + SlipsOf(rows)
  {
    assert forall i :: 0 <= i < |rows[1..]| ==> rows[1..][i] == rows[i + 1];
    assert SlipsOf(rows) == [SlipOf(rows[0])] + SlipsOf(rows[1..]);
  }

  /** An acceptable batch's first row passes, and the rest is acceptable once it is saved. */
  lemma AcceptableTail(slips: seq<WorkSlip>, rows: seq<IssueSlipRow>)
    requires rows != [] && Acceptable(slips, rows)
    ensures Rejection(rows[0], slips).None?
    ensures Acceptable(slips + [SlipOf(rows[0])], rows[1..])
  {
    var rest := rows[1..];
    assert Complete(rows[0]) && !IssueExists(slips, rows[0].slipNumber.value);
    forall i | 0 <= i < |rest| ensures Complete(rest[i]) && !IssueExists(slips + [SlipOf(rows[0])], rest[i].slipNumber.value) {
      assert rest[i] == rows[i + 1];
      IssueExistsSnoc(slips, SlipOf(rows[0]), rest[i].slipNumber.value);
    }
    forall i, j | 0 <= i < j < |rest| ensures rest[i].slipNumber != rest[j].slipNumber {
      assert rest[i] == rows[i + 1] && rest[j] == rows[j + 1];
    }
  }

  /** A batch whose first row passes and whose rest is acceptable once it is saved is acceptable. */
  lemma AcceptableCons(slips: seq<WorkSlip>, rows: seq<IssueSlipRow>)
    requires rows != [] && Rejection(rows[0], slips).None?
    requires Acceptable(slips + [SlipOf(rows[0])], rows[1..])
    ensures Acceptable(slips, rows)
  {
    var rest := rows[1..];
    forall i | 0 <= i < |rows| ensures Complete(rows[i]) && !IssueExists(slips, rows[i].slipNumber.value) {
      if i > 0 {
        assert rows[i] == rest[i - 1];
        IssueExistsSnoc(slips, SlipOf(rows[0]), rows[i].slipNumber.value);
      }
    }
    forall i, j | 0 <= i < j < |rows| ensures rows[i].slipNumber != rows[j].slipNumber {
      assert rows[j] == rest[j - 1];
      if i == 0 {
        IssueExistsSnoc(slips, SlipOf(rows[0]), rows[j].slipNumber.value);
      } else {
        assert rows[i] == rest[i - 1];
      }
    }
  }
}
