# Payroll automation: a verified model of the payroll backend

This project models the payroll back end of a loading-contractor payroll system. It covers:

- Head-load workers (HL) and casual labourers (CL), paid monthly.
- The statutory calculation of each payroll entry: the wage basis, the EPF and ESI shares of
  member and contractor, the bonus and the net payable.
- The monthly exports: the EPF challan-cum-return text, the ESI contribution sheet and the bank's
  bulk NEFT file.
- The cell values and totals of the four PDF reports: remittance, payment details, wage summary
  and attendance register.
- The wage import and the UTR (bank transfer reference) import from spreadsheets, with the text
  fallbacks for bank statements that are not real workbooks.
- The payroll sheet API (open a month, load it, edit rows, close or reopen it).
- The employee master's bulk upload and its conflict answers.
- The billing module's issue-slip review and save.
- The API request filter and the front end's route guard.
- The front end's casual-attendance grid.
- The fence stripping applied to the language model's JSON answers.

Modelling conventions:

- Money is an exact whole number of paise. Rates are hundredths of a percent. `BigDecimal`'s
  `HALF_UP` rounding and its `longValue` truncation are written out.
- Java's `null` is `Option.None`. A thrown exception is a `Result.Failure` carrying the message.
- Entities are datatypes (`Entities`). The three repositories are one `Store.Repositories` class
  whose sequence fields the operations update in place.
- Each imperative operation of the source is a `method` whose loops carry their invariants. Its
  `ensures` ties the result and the new state to a specification function. The lemmas about that
  function state what the source promises.
- `PayrollEntry.calculate` exists twice. `PayrollCalculator.Calculate` is a method on a
  `PayrollEntry` object with the entity's fields. It is proved equal to the pure
  `PayrollCalculator.Calculated`, which the reports and controllers use.

The member-id comparator that every listing uses is not a total order when numeric and
non-numeric ids are mixed: "2" < "10" < "1a" < "2" (`MemberOrder.MixedIdsCycle`). So every claim
that a listing is sorted assumes that the ids are all numeric or all non-numeric. The listing
itself is modelled for any ids, as the small-list path of Java's TimSort that `List.sort` takes:
the leading run is found (and reversed when strictly descending), then each later element is
binary-inserted. On mixed ids this can leave a list unsorted: `["10", "1a", "2"]` is one ascending
run and stays as it is (`MemberOrder.MixedIdsKeptAsOneRun`).

Where the unit tests and the code disagree, the model follows the code:

- `PayrollCalculatorTest.java:20-27` expects a fresh casual entry's wage to default to days × 541.
  The entity initialises the wage to zero, not null (`PayrollEntry.java:33`), so the default never
  applies (`PayrollCalculator.FreshCasualEntryKeepsZeroWage`).
- `EpfGenerationTest` does not provide the period that `generateEpfTxt` looks up, and it assumes a
  30-day month. The model's worked examples (`EpfReturn.EpfWorkedExamples`) give the period
  explicitly.

## Model

| member | source | states |
|---|---|---|
| Money.RoundHalfUp | backend/src/main/java/com/fci/automation/service/PayrollCalculatorService.java:101 | the quotient rounded to the nearest whole number, ties away from zero (`setScale(0, HALF_UP)`); the sign of the quotient is kept |
| Money.RoundHalfUpUnique | backend/src/main/java/com/fci/automation/service/PayrollCalculatorService.java:101 | the half-up rounding of a quotient is unique: any value meeting the rounding condition is `RoundHalfUp` |
| Money.ApplyRate | backend/src/main/java/com/fci/automation/service/PayrollCalculatorService.java:95-110 | a rate applied to an amount is a whole number of rupees, the half-up rounding of amount × rate; non-negative for non-negative inputs |
| Money.RoundToRupees | backend/src/main/java/com/fci/automation/service/PayrollCalculatorService.java:70 | an amount rounded half-up to whole rupees |
| Money.TruncateToRupees | backend/src/main/java/com/fci/automation/service/ReportService.java:416-422 | `longValue()` keeps the whole rupees and drops the fraction toward zero, for both signs |
| Money.TruncateWholeRupees | backend/src/main/java/com/fci/automation/service/ReportService.java:416-422 | truncating an amount that is already whole rupees gives it back unchanged |
| Money.SumAppend | backend/src/main/java/com/fci/automation/service/ReportService.java:395-448 | the total of two lists of amounts concatenated is the sum of their totals (the running totals of the reports) |
| Cells.IntCast | backend/src/main/java/com/fci/automation/service/PayrollImportService.java:162-165 | `(int)` of a numeric cell: the whole part toward zero, saturating at the `int` range |
| Cells.LongCast | backend/src/main/java/com/fci/automation/controller/EmployeeController.java:209 | `(long)` of a numeric cell: the whole part toward zero, saturating at the `long` range |
| Text.Trim | backend/src/main/java/com/fci/automation/service/PayrollImportService.java:191 | `trim()` removes the code units up to and including space: the result is no longer than the input and has no such unit at either end |
| Text.TrimIsSlice | backend/src/main/java/com/fci/automation/service/PayrollImportService.java:191 | the trim is a slice of the input and everything outside the slice is a unit up to space, so only the ends are removed |
| Text.TrimPadded | backend/src/main/java/com/fci/automation/service/PayrollImportService.java:377 | padding of such units around a piece with other units at both ends is removed, and nothing more |
| Text.IsBlank | backend/src/main/java/com/fci/automation/service/ReportService.java:516 | `isBlank()` holds for the empty string, a blank ASCII string trims to nothing, and a string holding a digit is not blank |
| Text.TrimIdempotent | backend/src/main/java/com/fci/automation/controller/EmployeeController.java:79 | trimming a trimmed string changes nothing |
| Text.TrimEmptyIff | backend/src/main/java/com/fci/automation/service/PayrollImportService.java:118 | `trim().isEmpty()` holds exactly when every code unit is trimmable |
| Text.ToLower | backend/src/main/java/com/fci/automation/service/PayrollImportService.java:403 | `toLowerCase()` maps each character on its own and keeps the length |
| Text.ToUpper | backend/src/main/java/com/fci/automation/controller/EmployeeController.java:166 | `toUpperCase()` maps each character on its own and keeps the length |
| Text.EqualsIgnoreCase | backend/src/main/java/com/fci/automation/controller/PayrollController.java:113 | `equalsIgnoreCase` holds exactly when the strings have the same length and agree character by character once lower-cased; equal strings always match |
| Text.LowerKeepsPart | backend/src/main/java/com/fci/automation/service/PayrollImportService.java:403-404 | a part contained in a string is contained, lower-cased, in the lower-cased string |
| Text.Replace | backend/src/main/java/com/fci/automation/service/PayrollImportService.java:379-384 | `replace` leaves a string without the target unchanged |
| Text.ReplaceFirst | backend/src/main/java/com/fci/automation/service/PayrollImportService.java:379-384 | `replace` keeps the text before the first occurrence of the target, writes the replacement for that occurrence, and resumes just after it |
| Text.JoinSplitAll | backend/src/main/java/com/fci/automation/service/PayrollImportService.java:347 | splitting on a character and joining the pieces with it gives the string back |
| Text.SplitAllJoin | backend/src/main/java/com/fci/automation/service/PayrollImportService.java:352-354 | joining pieces that avoid the separator and splitting again gives the pieces back |
| Text.JavaSplit | backend/src/main/java/com/fci/automation/config/AuthInterceptor.java:35 | Java's `split` on one character: no piece holds the separator, and a string without it is one piece |
| Text.JavaSplitJoin | backend/src/main/java/com/fci/automation/config/AuthInterceptor.java:35 | Java's `split` of a join of two or more separator-free pieces, the last non-empty, gives the pieces back |
| Text.DropTrailingEmpty | backend/src/main/java/com/fci/automation/config/AuthInterceptor.java:35 | `split` drops exactly the trailing empty pieces |
| Text.NatToString | backend/src/main/java/com/fci/automation/service/ReportService.java:416 | a non-negative number prints as a non-empty string of decimal digits |
| Text.NatToStringNoLeadingZero | backend/src/main/java/com/fci/automation/service/ReportService.java:416 | a number prints with a leading zero exactly when it is zero, which prints as "0"; a longer number never starts with '0' |
| Text.IntToString | backend/src/main/java/com/fci/automation/service/ReportService.java:423-424 | `String.valueOf` of a number is non-empty: the digits of the number, with a leading minus sign when it is negative |
| Text.IntToStringUntrimmed | backend/src/main/java/com/fci/automation/service/ReportService.java:423-424 | a printed number has nothing to trim |
| Text.ParseInt | backend/src/main/java/com/fci/automation/service/PayrollImportService.java:233 | `Integer.parseInt` succeeds only with a value in the `int` range |
| Text.ParseIntOfIntToString | backend/src/main/java/com/fci/automation/service/PayrollImportService.java:162-165 | printing an `int` and parsing it back gives the same number |
| Text.DigitsOfNatToString | backend/src/main/java/com/fci/automation/service/ReportService.java:416 | the digits printed for a number read back as that number |
| Text.SaturateInt | backend/src/main/java/com/fci/automation/service/PayrollImportService.java:227 | a `double`-to-`int` cast saturates at the range bounds and keeps in-range values |
| Text.SaturateLong | backend/src/main/java/com/fci/automation/controller/EmployeeController.java:209 | a `double`-to-`long` cast saturates at the range bounds and keeps in-range values |
| Entities.DaysInMonth | backend/src/main/java/com/fci/automation/service/ReportService.java:801 | `YearMonth.lengthOfMonth()`: 28 to 31 days; February has 29 exactly in a leap year; April, June, September and November have 30 |
| Entities.PadDigits | backend/src/main/java/com/fci/automation/service/ReportService.java:442 | a number padded to a fixed width is that many digits reading back as the number |
| Entities.FormatDate | backend/src/main/java/com/fci/automation/service/ReportService.java:442 | `dd/MM/yyyy`: ten characters, slashes at 2 and 5, and the day, month and year reading back from their digit fields |
| Entities.EntriesOfPeriod | backend/src/main/java/com/fci/automation/repository/PayrollEntryRepository.java:9 | `findByPeriodId` returns only entries of that period |
| Entities.EntriesOfPeriodMembers | backend/src/main/java/com/fci/automation/repository/PayrollEntryRepository.java:9 | an entry is in `findByPeriodId` exactly when it is stored and carries the period's id |
| Store.FirstIndex | backend/src/main/java/com/fci/automation/repository/EmployeeRepository.java:9-15 | a `findBy…` lookup finds the first stored element that matches, and finds nothing exactly when none matches |
| Store.FirstIndexAt | backend/src/main/java/com/fci/automation/repository/EmployeeRepository.java:9-15 | the first matching position is the one a lookup finds |
| Store.PeriodWithId | backend/src/main/java/com/fci/automation/service/ReportService.java:335 | `findById(periodId)`: the stored period with that id, and nothing exactly when no stored period has it |
| Store.PeriodWithIdFinds | backend/src/main/java/com/fci/automation/service/ReportService.java:335 | with distinct period ids, looking up a stored period's id answers that period |
| Store.PeriodEntriesHaveEmployees | backend/src/main/java/com/fci/automation/entity/PayrollEntry.java:19-21 | when every stored entry has an employee, so does every entry `findByPeriodId` answers, which is what each report generator requires |
| Store.SaveEmployee | backend/src/main/java/com/fci/automation/controller/EmployeeController.java:183 | `save` of an employee replaces the stored one with the same id, or appends it |
| Store.Rejoined | backend/src/main/java/com/fci/automation/entity/PayrollEntry.java:19-21 | an entry joined by id to a saved employee sees the saved row; every other entry is unchanged, and the list keeps its length |
| Store.SaveEmployeeKeepsCurrent | backend/src/main/java/com/fci/automation/entity/PayrollEntry.java:19-21 | after a save and the rejoin, every entry still sees a stored employee row |
| Store.AppendEmployeeKeepsCurrent | backend/src/main/java/com/fci/automation/entity/PayrollEntry.java:19-21 | after a new employee is added and the entries rejoined, every entry still sees a stored employee row |
| Store.SaveEntry | backend/src/main/java/com/fci/automation/controller/PayrollController.java:189 | `save` of an entry replaces the stored one with the same id, or appends it |
| Store.SavePeriod | backend/src/main/java/com/fci/automation/controller/PayrollController.java:229 | `save` of a period replaces the stored one with the same id, or appends it |
| Store.SaveEntryKeepsIds | backend/src/main/java/com/fci/automation/controller/PayrollController.java:189 | saving an entry keeps entry ids distinct, keeps every other entry, and grows the store by one only for a new id |
| Store.Repositories.FreshId | backend/src/main/java/com/fci/automation/entity/PayrollEntry.java:13 | a generated id is the next unused counter value; nothing else changes |
| Store.Repositories.StoreEntry | backend/src/main/java/com/fci/automation/controller/PayrollController.java:189 | the entry repository becomes `SaveEntry` of the old one; the other repositories are unchanged |
| Store.Repositories.StoreEmployee | backend/src/main/java/com/fci/automation/controller/EmployeeController.java:183 | the employee repository becomes `SaveEmployee` of the old one and every entry joined to that employee sees the saved row; periods and the next id are unchanged |
| Store.Repositories.StorePeriod | backend/src/main/java/com/fci/automation/controller/PayrollController.java:229 | the period repository becomes `SavePeriod` of the old one; the other repositories are unchanged |
| PayrollCalculator.Calculated | backend/src/main/java/com/fci/automation/service/PayrollCalculatorService.java:21-87 | only the wage and the six derived amounts change; the wage is filled with the standard wage only for casual labour with no wage entered |
| PayrollCalculator.EpfContractorCapped | backend/src/main/java/com/fci/automation/service/PayrollCalculatorService.java:91-102 | the contractor's EPF share equals the member's up to 15000 rupees and is the flat 1800 above; it never exceeds the member's share |
| PayrollCalculator.CasualContributions | backend/src/main/java/com/fci/automation/service/PayrollCalculatorService.java:29-44 | for casual labour every contribution comes from days × 541 and the net payable is the wage shown |
| PayrollCalculator.HeadLoadNetPay | backend/src/main/java/com/fci/automation/service/PayrollCalculatorService.java:45-86 | otherwise all five contributions (EPF and ESI member and contractor shares, bonus) come from the wage entered, the wage is kept, and the net payable is the wage less both member shares and the advance |
| PayrollCalculator.CalculateIdempotent | backend/src/main/java/com/fci/automation/service/PayrollCalculatorService.java:21-87 | recalculating a calculated entry changes nothing |
| PayrollCalculator.CasualWageInputIgnoredForContributions | backend/src/main/java/com/fci/automation/service/PayrollCalculatorService.java:32-36 | two casual entries with the same days worked get the same contributions, whatever wages were entered |
| PayrollCalculator.FreshCasualEntryKeepsZeroWage | backend/src/main/java/com/fci/automation/entity/PayrollEntry.java:33 | a new entry's wage is 0, not null, so a fresh casual entry keeps a zero wage and net payable while its contributions come from the standard wage |
| PayrollCalculator.WorkedExamples | backend/src/test/java/com/fci/automation/PayrollCalculatorTest.java:43-131 | concrete figures for a head-load worker, an entry without employee and a casual labourer |
| PayrollCalculator.PayrollEntry.constructor | backend/src/main/java/com/fci/automation/entity/PayrollEntry.java:13-62 | a new entry object holds the given value |
| PayrollCalculator.Calculate | backend/src/main/java/com/fci/automation/service/PayrollCalculatorService.java:21-87 | updating the entry object in place leaves it equal to `Calculated` of its old value |
| PayrollCalculator.WriteShares | backend/src/main/java/com/fci/automation/service/PayrollCalculatorService.java:53-71 | the five contributions are written from the wage basis and nothing else changes |
| PayrollCalculator.FillWage | backend/src/main/java/com/fci/automation/service/PayrollCalculatorService.java:24-51 | the wage basis is returned and only the defaulted wage is written |
| MemberOrder.LexCompare | backend/src/main/java/com/fci/automation/service/ReportService.java:65 | `compareTo` of strings: the sign is 0 exactly for equal strings |
| MemberOrder.LexAntisymmetric | backend/src/main/java/com/fci/automation/service/ReportService.java:65 | swapping the operands of `compareTo` negates its sign |
| MemberOrder.LexTransitive | backend/src/main/java/com/fci/automation/service/ReportService.java:65 | `compareTo` is transitive |
| MemberOrder.CompareIds | backend/src/main/java/com/fci/automation/service/ReportService.java:60-66 | the member-id comparator: numeric comparison when both ids parse as `int`, otherwise `compareTo` |
| MemberOrder.CompareAntisymmetric | backend/src/main/java/com/fci/automation/service/ReportService.java:60-66 | the comparator is antisymmetric |
| MemberOrder.CompareTransitive | backend/src/main/java/com/fci/automation/service/ReportService.java:60-66 | the comparator is transitive on ids that are all numeric or all non-numeric |
| MemberOrder.MixedIdsCycle | backend/src/main/java/com/fci/automation/service/ReportService.java:60-66 | with mixed numeric and non-numeric ids the comparator is cyclic ("2" < "10" < "1a" < "2"), so no order of them is sorted |
| MemberOrder.SortBy | backend/src/main/java/com/fci/automation/service/ReportService.java:60-66 | on fewer than 32 elements `list.sort(comparator)` is the small-list path of Java's TimSort: the leading run, reversed when strictly descending, then each later element binary-inserted; the result is a permutation of the list |
| MemberOrder.MadeAscending | backend/src/main/java/com/fci/automation/service/ReportService.java:60-66 | reversing a strictly descending leading run only reorders the list |
| MemberOrder.MadeAscendingSorted | backend/src/main/java/com/fci/automation/service/ReportService.java:60-66 | on consistently comparable ids the leading run, once made ascending, is in member-id order |
| MemberOrder.InsertionPointSplits | backend/src/main/java/com/fci/automation/service/ReportService.java:60-66 | the binary search finds the point after every element not above the pivot and before every element above it, so equal ids keep their order |
| MemberOrder.InsertionExtendsSorted | backend/src/main/java/com/fci/automation/service/ReportService.java:60-66 | inserting the next element at the point found extends the sorted prefix by one |
| MemberOrder.BinarySort | backend/src/main/java/com/fci/automation/service/ReportService.java:60-66 | binary insertion of the elements after the run only reorders the list |
| MemberOrder.BinarySortSorted | backend/src/main/java/com/fci/automation/service/ReportService.java:60-66 | binary insertion after a sorted prefix sorts the whole list when the ids are consistently comparable |
| MemberOrder.SortBySorted | backend/src/main/java/com/fci/automation/service/ReportService.java:60-66 | sorting yields non-decreasing member ids whenever the comparator is consistent on them |
| MemberOrder.MixedIdsKeptAsOneRun | backend/src/main/java/com/fci/automation/service/ReportService.java:60-66 | on mixed ids `["10", "1a", "2"]` is one ascending run and is left unsorted, as Java leaves it |
| PeriodEntries.SortedByMemberId | backend/src/main/java/com/fci/automation/service/ReportService.java:60-66 | the entries sorted by member id are a permutation of the period's entries |
| PeriodEntries.SortedByMemberIdIsSorted | backend/src/main/java/com/fci/automation/service/ReportService.java:60-66 | the sorted entries are in non-decreasing member-id order |
| PeriodEntries.NetTotalAppend | backend/src/main/java/com/fci/automation/service/ReportService.java:436-439 | the net total of two lists of entries is the sum of their totals |
| PeriodEntries.NetTotalPermutation | backend/src/main/java/com/fci/automation/service/ReportService.java:436-439 | the net total does not depend on the order of the entries |
| PeriodEntries.NetTotalOfSorted | backend/src/main/java/com/fci/automation/service/ReportService.java:436-439 | sorting loses no pay: the total of the sorted entries is the total of the stored ones |
| PeriodEntries.OfCategory | backend/src/main/java/com/fci/automation/service/ReportService.java:41-42 | `groupingBy` category keeps only entries of that category, each one stored |
| PeriodEntries.CategoriesPartition | backend/src/main/java/com/fci/automation/service/ReportService.java:41-42 | when every employee has a category, the head-load and casual groups together hold every entry |
| EpfReturn.GenerateEpfTxt | backend/src/main/java/com/fci/automation/service/ReportService.java:338-426 | the buffer built line by line is exactly the EPF return text of the given entries |
| EpfReturn.GenerateEpfTxtById | backend/src/main/java/com/fci/automation/service/ReportService.java:331-337 | an unknown period id fails with `NoSuchElementException`; otherwise the result is the EPF return of the entries stored for that period, in repository order, and a month outside 1..12 with entries to write fails with `DateTimeException` |
| EpfReturn.EpfLinesStep | backend/src/main/java/com/fci/automation/service/ReportService.java:338-425 | appending one entry's line to the text of a prefix gives the text of the longer prefix |
| EpfReturn.EpfRecordOf | backend/src/main/java/com/fci/automation/service/ReportService.java:340-405 | the UAN and name are the employee's, trimmed; the EPF contribution is 12% of the wage basis; the exempt UAN has no EPS wages or contribution, and every other member's EPS wages equal the EDLI wages |
| EpfReturn.EpfLine | backend/src/main/java/com/fci/automation/service/ReportService.java:414-424 | a line starts with the UAN and name, each followed by `#~#`, and ends with the non-contributory days and the refund, separated by `#~#`, and a line break |
| EpfReturn.EpfLineReadsBack | backend/src/main/java/com/fci/automation/service/ReportService.java:414-424 | a line whose UAN and name hold no '#' ends in a line break; split on '#', the rest gives 21 pieces: the UAN, the name, the seven amounts in whole rupees (`longValue`) in column order, the non-contributory days and the refund, with "~" between every two |
| EpfReturn.EpfLineSplit | backend/src/main/java/com/fci/automation/service/ReportService.java:414-424 | such a line without its break splits on '#' into its eleven columns with "~" marks between them |
| EpfReturn.SplitJoined | backend/src/main/java/com/fci/automation/service/ReportService.java:414-424 | columns without '#', the last not empty, joined with `#~#` split on '#' into the columns with "~" marks between them |
| EpfReturn.EpfRecordBounds | backend/src/main/java/com/fci/automation/service/ReportService.java:349-380 | EPS and EDLI wages never exceed 15000 rupees, the EPS contribution never exceeds 1250, and the non-contributory days are the days not worked, never negative |
| EpfReturn.EpfAboveCeiling | backend/src/main/java/com/fci/automation/service/ReportService.java:371-405 | above 15000 rupees the EPS contribution is 1250 and the difference 550 rupees |
| EpfReturn.EpfUpToCeiling | backend/src/main/java/com/fci/automation/service/ReportService.java:399-405 | up to 15000 rupees the difference is the EPF contribution less the EPS contribution |
| EpfReturn.EpsUpToCeiling | backend/src/main/java/com/fci/automation/service/ReportService.java:371-374 | up to 15000 rupees the EPS share reaches 1250 only at the ceiling, where the EPF share is 1800 |
| EpfReturn.EpfExemptMember | backend/src/main/java/com/fci/automation/service/ReportService.java:382-398 | for the exempt UAN the EPS wages and contribution are 0 and the difference is the capped EPF share |
| EpfReturn.EpfMatchesCalculation | backend/src/main/java/com/fci/automation/service/ReportService.java:340-369 | the return's EPF contribution is the member's EPF share of the stored calculation |
| EpfReturn.EpfWorkedExamples | backend/src/test/java/com/fci/automation/EpfGenerationTest.java:58-79 | the figures of the casual and head-load lines of the EPF test |
| EsiReturn.LastWorkingDayText | backend/src/main/java/com/fci/automation/service/ReportService.java:285-287 | the last working day as `dd/MM/yyyy`, empty exactly when it is not set |
| EsiReturn.EsiRowOf | backend/src/main/java/com/fci/automation/service/ReportService.java:297-321 | a row's wages are the calculation's wage basis and the reason code is "1" exactly when the wages are 0 |
| EsiReturn.GenerateEsiSheet | backend/src/main/java/com/fci/automation/service/ReportService.java:289-322 | writing rows from 1 onward leaves the sheet equal to the template overwritten by one row per entry |
| EsiReturn.GenerateEsiSheetById | backend/src/main/java/com/fci/automation/service/ReportService.java:271-328 | an unknown period id fails with "Error generating ESI Excel"; otherwise the sheet is the template overwritten by one row per entry stored for that period, in repository order |
| EsiReturn.WriteRow | backend/src/main/java/com/fci/automation/service/ReportService.java:297-321 | the cells written for one entry are its ESI row |
| EsiReturn.EsiSheetStep | backend/src/main/java/com/fci/automation/service/ReportService.java:290-322 | one more written row extends the sheet of a prefix to the sheet of the longer prefix |
| EsiReturn.EsiRowMatchesCalculation | backend/src/main/java/com/fci/automation/service/ReportService.java:307-314 | the ESI shares of the stored calculation are 0.75 % and 3.25 % of the row's wages |
| EsiReturn.EsiRowsContents | backend/src/main/java/com/fci/automation/service/ReportService.java:289-322 | the rows written are exactly 1 to the number of entries, row k holding entry k-1 |
| EsiReturn.EsiSheetLayout | backend/src/main/java/com/fci/automation/service/ReportService.java:289-322 | every entry has its row and template rows past the last entry are kept |
| EsiReturn.EsiWorkedExample | backend/src/test/java/com/fci/automation/EsiGenerationTest.java:88-112 | the figures of the three rows of the ESI test |
| BankTransfer.GenerateBulkTxt | backend/src/main/java/com/fci/automation/service/ReportService.java:433-531 | the text built is exactly the bank-transfer file of the given entries: header with the total, then the sorted payable rows |
| BankTransfer.GenerateBulkTxtById | backend/src/main/java/com/fci/automation/service/ReportService.java:429-432 | an unknown period id fails with `NoSuchElementException`; otherwise the text is the bank-transfer file of the entries stored for that period |
| BankTransfer.IfscOf | backend/src/main/java/com/fci/automation/service/ReportService.java:515-517 | the employee's IFSC when present and not blank, the default IFSC otherwise |
| BankTransfer.CreditRow | backend/src/main/java/com/fci/automation/service/ReportService.java:518-527 | a credit row starts with the account as stored, the IFSC and the date in `#`-separated fields and ends with `##NASAR PK#NEFT` and a line break; its account part is not blank |
| BankTransfer.CreditRowReadsBack | backend/src/main/java/com/fci/automation/service/ReportService.java:518-527 | a row whose account, IFSC and date hold no '#' splits on '#' into the account, the IFSC, the date, an empty field, the net pay in whole rupees (`longValue`), an empty field, "NASAR PK" and "NEFT" with the line break |
| BankTransfer.AppendCreditRows | backend/src/main/java/com/fci/automation/service/ReportService.java:465-528 | the loop over the sorted entries appends exactly their credit rows, skipping entries without an account or with zero or null pay |
| BankTransfer.PayableEntries | backend/src/main/java/com/fci/automation/service/ReportService.java:465-479 | the entries that get a row all have an account and a non-zero net pay |
| BankTransfer.CreditRowsArePayableRows | backend/src/main/java/com/fci/automation/service/ReportService.java:465-528 | the rows written are one credit row for each payable entry, in order |
| BankTransfer.HeaderMatchesRows | backend/src/main/java/com/fci/automation/service/ReportService.java:436-479 | when every employee has an account, the header's total debit equals the total of the credited entries |
| ReportText.CellText | backend/src/main/java/com/fci/automation/service/ReportService.java:258-265 | a null cell text, or the text "null", prints as an empty cell; any other text prints as it is |
| ReportText.MonthName | backend/src/main/java/com/fci/automation/service/ReportService.java:267-269 | the month's name, already upper case |
| ReportText.AmountText | backend/src/main/java/com/fci/automation/service/ReportService.java:591 | `String.valueOf` of an amount of scale 2: a minus sign exactly for negatives, a point, and two digits of paise |
| ReportText.AmountTextOfRupees | backend/src/main/java/com/fci/automation/service/ReportService.java:591 | a whole number of rupees prints as the rupees followed by ".00" |
| PaymentDetails.PaymentRowOf | backend/src/main/java/com/fci/automation/service/ReportService.java:587-592 | a row's amount is the entry's net pay, and its UTR shows "-" exactly when none has been imported |
| PaymentDetails.RowsOf | backend/src/main/java/com/fci/automation/service/ReportService.java:585-595 | one row per entry, in order |
| PaymentDetails.GeneratePaymentDetails | backend/src/main/java/com/fci/automation/service/ReportService.java:541-617 | the rows and running total built by the loop are exactly the payment-details report of the given entries |
| PaymentDetails.GeneratePaymentDetailsById | backend/src/main/java/com/fci/automation/service/ReportService.java:533-621 | an unknown period id, and every failure of the report, gives "Error generating Payment Details PDF"; otherwise the report is that of the entries stored for that period |
| PaymentDetails.RowsStep | backend/src/main/java/com/fci/automation/service/ReportService.java:585-594 | one more entry adds its row and its net pay to the total |
| PaymentDetails.ReportListsEveryEntry | backend/src/main/java/com/fci/automation/service/ReportService.java:583-611 | the report lists every entry of the period, whatever the order, and its total is the period's net pay |
| PaymentDetails.RowsPermute | backend/src/main/java/com/fci/automation/service/ReportService.java:543-550 | sorting the entries permutes the report's rows |
| RemittanceReport.RowOf | backend/src/main/java/com/fci/automation/service/ReportService.java:140-195 | a row shows the calculation's wage basis; a head-load entry without a wage cannot be printed (the null wage throws) |
| RemittanceReport.RowCells | backend/src/main/java/com/fci/automation/service/ReportService.java:144-195 | a data row has sixteen cells, as the table has sixteen columns |
| RemittanceReport.TotalCells | backend/src/main/java/com/fci/automation/service/ReportService.java:210-236 | the total row is the label spanning six columns and ten amounts |
| RemittanceReport.RowsOf | backend/src/main/java/com/fci/automation/service/ReportService.java:140-208 | when every row prints, there is one row per entry |
| RemittanceReport.CategoryPages | backend/src/main/java/com/fci/automation/service/ReportService.java:46-57 | a category yields at most one page, and none when it has no entries |
| RemittanceReport.BuildPage | backend/src/main/java/com/fci/automation/service/ReportService.java:124-238 | the rows and the ten running totals built by the loop are exactly that category's page |
| RemittanceReport.GenerateReport | backend/src/main/java/com/fci/automation/service/ReportService.java:39-242 | the pages built from the given entries are exactly the report: the head-load page, then the casual page |
| RemittanceReport.GenerateReportById | backend/src/main/java/com/fci/automation/service/ReportService.java:31-246 | an unknown period id, and every failure of the report, gives "Error generating PDF"; otherwise the pages are the report of the entries stored for that period |
| RemittanceReport.BuildCategory | backend/src/main/java/com/fci/automation/service/ReportService.java:49-67 | one pass of the category loop: its entries sorted by member id as one page, or nothing for an empty category |
| RemittanceReport.RowsOfNoneExtends | backend/src/main/java/com/fci/automation/service/ReportService.java:156-164 | a row that cannot be printed fails the whole report |
| RemittanceReport.TotalsConsistent | backend/src/main/java/com/fci/automation/service/ReportService.java:197-207 | the EPF and ESI totals are the sums of their two shares, and the in-hand total is the wage total less the member shares and advances |
| RemittanceReport.HeadLoadInHandIsNetPay | backend/src/main/java/com/fci/automation/service/ReportService.java:187-193 | for a calculated head-load entry the in-hand salary printed is its net payable |
| RemittanceReport.CasualInHandDeductsContributions | backend/src/main/java/com/fci/automation/service/ReportService.java:187-193 | for casual labour the in-hand salary printed is the net payable less the member's EPF and ESI shares |
| RemittanceReport.RowMatchesCalculation | backend/src/main/java/com/fci/automation/service/ReportService.java:155-180 | every row's EPF and ESI amounts are those of the stored calculation on the wage the row shows |
| RemittanceReport.CategoryPagesShape | backend/src/main/java/com/fci/automation/service/ReportService.java:46-57 | a category's part holds one page of that category with a row per entry of it, or nothing when it has none |
| RemittanceReport.PageOfShape | backend/src/main/java/com/fci/automation/service/ReportService.java:124-208 | a page is labelled with its category and has a row per entry |
| RemittanceReport.RowCountAppend | backend/src/main/java/com/fci/automation/service/ReportService.java:31-246 | the rows of two lists of pages add up |
| RemittanceReport.ReportParts | backend/src/main/java/com/fci/automation/service/ReportService.java:44-57 | the report's pages are the head-load part followed by the casual part |
| RemittanceReport.ReportCoversEntries | backend/src/main/java/com/fci/automation/service/ReportService.java:31-246 | every entry of the period is listed exactly once, on the page of its category |
| WageSummary.AveragePaise | backend/src/main/java/com/fci/automation/service/ReportService.java:697-700 | the average per day is the wage over the days rounded half-up to whole paise |
| WageSummary.RowOf | backend/src/main/java/com/fci/automation/service/ReportService.java:693-709 | a row holds the entry's wage and days; a null day count or wage fails the report |
| WageSummary.RowsOf | backend/src/main/java/com/fci/automation/service/ReportService.java:693-710 | when every row prints, there is one row per entry |
| WageSummary.BuildPage | backend/src/main/java/com/fci/automation/service/ReportService.java:665-728 | the rows and the two running totals built by the loop are exactly the page |
| WageSummary.GenerateSummary | backend/src/main/java/com/fci/automation/service/ReportService.java:631-732 | the pages built from the given entries are exactly the wage summary: one head-load page, or none without head-load entries |
| WageSummary.GenerateSummaryById | backend/src/main/java/com/fci/automation/service/ReportService.java:623-737 | an unknown period id, and every failure of the summary, gives "Error generating Wage Summary PDF"; otherwise the pages are the summary of the entries stored for that period |
| WageSummary.RowsOfNoneExtends | backend/src/main/java/com/fci/automation/service/ReportService.java:694-695 | a row that cannot be printed fails the whole summary |
| WageSummary.AverageIsNearest | backend/src/main/java/com/fci/automation/service/ReportService.java:699 | the printed average times the days is within half a day's worth of a paisa of the wage |
| WageSummary.AverageOfMultiple | backend/src/main/java/com/fci/automation/service/ReportService.java:699 | the average is exact when the days divide the wage |
| WageSummary.SummaryTotals | backend/src/main/java/com/fci/automation/service/ReportService.java:690-726 | the salary total is the sum of the head-load wages and the attendance total the sum of their days, in any stored order |
| WageSummary.TotalsOfRows | backend/src/main/java/com/fci/automation/service/ReportService.java:708-709 | the running totals over the rows are the wage and day totals of the entries |
| WageSummary.WagesPermutation | backend/src/main/java/com/fci/automation/service/ReportService.java:650-657 | the totals do not depend on the order of the entries |
| WageSummary.AverageExamples | backend/src/main/java/com/fci/automation/service/ReportService.java:697-721 | 16000 rupees over 26 days average 615.38 a day; no days prints an average of 0 |
| AttendanceRegister.FirstMarks | backend/src/main/java/com/fci/automation/service/ReportService.java:785-791 | the first table has fifteen day cells per row |
| AttendanceRegister.SecondMarks | backend/src/main/java/com/fci/automation/service/ReportService.java:836-846 | the second table has sixteen day cells per row |
| AttendanceRegister.SecondHeader | backend/src/main/java/com/fci/automation/service/ReportService.java:818-823 | the second table is headed by sixteen day cells, blank past the month |
| AttendanceRegister.SecondRowOf | backend/src/main/java/com/fci/automation/service/ReportService.java:848-853 | a row's attendance is the days worked and its salary 541 rupees a day |
| AttendanceRegister.FirstTable | backend/src/main/java/com/fci/automation/service/ReportService.java:780-792 | the first table has one row per casual entry, in order |
| AttendanceRegister.SecondTable | backend/src/main/java/com/fci/automation/service/ReportService.java:830-857 | when every entry has a day count, the second table has one row per entry |
| AttendanceRegister.SortedByName | backend/src/main/java/com/fci/automation/service/ReportService.java:746-749 | the casual entries sorted by name are a permutation of them |
| AttendanceRegister.MarkFirstHalf | backend/src/main/java/com/fci/automation/service/ReportService.java:785-791 | the day loop of the first table writes exactly the first row's day cells |
| AttendanceRegister.MarkSecondHalf | backend/src/main/java/com/fci/automation/service/ReportService.java:836-846 | the day loop of the second table writes exactly the second row's day cells |
| AttendanceRegister.NumberSecondHalf | backend/src/main/java/com/fci/automation/service/ReportService.java:818-823 | the header loop writes exactly the second table's day numbers |
| AttendanceRegister.BuildFirstTable | backend/src/main/java/com/fci/automation/service/ReportService.java:780-792 | the loop builds exactly the first table |
| AttendanceRegister.BuildSecondTable | backend/src/main/java/com/fci/automation/service/ReportService.java:827-857 | the loop builds exactly the second table, and its grand totals are the sums of the rows |
| AttendanceRegister.BuildSecondRow | backend/src/main/java/com/fci/automation/service/ReportService.java:830-853 | one pass of the loop builds exactly that entry's row |
| AttendanceRegister.GenerateRegister | backend/src/main/java/com/fci/automation/service/ReportService.java:746-872 | the register built from the given entries is exactly the one specified: nothing without casual entries, otherwise both tables |
| AttendanceRegister.GenerateRegisterById | backend/src/main/java/com/fci/automation/service/ReportService.java:739-876 | an unknown period id, and every failure of the register, gives "Error generating Attendance Register PDF"; otherwise the register is that of the entries stored for that period |
| AttendanceRegister.SecondTableNoneExtends | backend/src/main/java/com/fci/automation/service/ReportService.java:849-855 | an entry without a day count fails the whole register |
| AttendanceRegister.DayMarked | backend/src/main/java/com/fci/automation/service/ReportService.java:836-846 | a day is marked exactly when it is an active day and lies in the month; otherwise its cell is blank |
| AttendanceRegister.SalaryIsRateTimesAttendance | backend/src/main/java/com/fci/automation/service/ReportService.java:855-856 | the grand salary is 541 rupees times the grand attendance |
| AttendanceRegister.RegisterLayout | backend/src/main/java/com/fci/automation/service/ReportService.java:746-867 | a register lists every casual entry once in each table, in name order, and its grand salary is the rate times its grand attendance |
| AttendanceRegister.TablesAgree | backend/src/main/java/com/fci/automation/service/ReportService.java:780-857 | both tables list the same entries in the same order |
| AttendanceRegister.RegisterInNameOrder | backend/src/main/java/com/fci/automation/service/ReportService.java:748 | the register's entries are in name order |
| AttendanceRegister.RegisterExamples | backend/src/main/java/com/fci/automation/service/ReportService.java:852 | ten days worked pay 5410 rupees |
| PayrollRecords.LastWorkingDayOf | backend/src/main/java/com/fci/automation/controller/PayrollController.java:44-69 | an absent or empty date gives none; otherwise ISO, then dd/MM/yyyy, then MM/dd/yyyy, and the "Invalid Date Format" answer when none reads it |
| PayrollRecords.CreatePeriod | backend/src/main/java/com/fci/automation/controller/PayrollController.java:35-101 | the answer and the new periods and counter are exactly `PeriodCreation`; employees and entries are unchanged |
| PayrollRecords.PeriodCreation | backend/src/main/java/com/fci/automation/controller/PayrollController.java:35-101 | a missing month or year fails and changes nothing; a failure changes nothing; a success answers a stored period of that month and year, and a new one is OPEN, gets the next id and is appended only when no period of that month and year exists |
| PayrollRecords.CreationKeepsPeriodsWellFormed | backend/src/main/java/com/fci/automation/controller/PayrollController.java:76-91 | creating a period keeps ids below the counter, distinct, and one period per month |
| PayrollRecords.CreationIsFindOrCreate | backend/src/main/java/com/fci/automation/controller/PayrollController.java:76-91 | opening a month answers a period of that month; asking again answers the same period and creates nothing |
| PayrollRecords.LatestIndex | backend/src/main/java/com/fci/automation/controller/PayrollController.java:115-116 | the head of the year-desc, month-desc listing is a stored period no other is newer than, and exists exactly when some period is stored |
| PayrollRecords.LatestIsNewest | backend/src/main/java/com/fci/automation/controller/PayrollController.java:115-116 | with one period per month, the latest period is strictly newer than every other |
| PayrollRecords.LatestIsStored | backend/src/main/java/com/fci/automation/controller/PayrollController.java:113-127 | "latest" names a stored period no stored period is newer than, and only an empty table of periods grows, by an OPEN period of the current month |
| PayrollRecords.IncludedEmployees | backend/src/main/java/com/fci/automation/controller/PayrollController.java:143-149 | the employees put on the sheet come from the employee table, in its order |
| PayrollRecords.IncludedMembers | backend/src/main/java/com/fci/automation/controller/PayrollController.java:143-149 | an employee is put on the sheet exactly when stored and not inactive before the month's first day |
| PayrollRecords.IncludedDistinct | backend/src/main/java/com/fci/automation/controller/PayrollController.java:143-149 | distinct employees stay distinct on the sheet |
| PayrollRecords.Populated | backend/src/main/java/com/fci/automation/controller/PayrollController.java:150-155 | every new entry belongs to the period |
| PayrollRecords.PopulatedEntries | backend/src/main/java/com/fci/automation/controller/PayrollController.java:150-155 | the j-th included employee gets a fresh entry with the j-th new id and all amounts zero |
| PayrollRecords.PopulatedSheet | backend/src/main/java/com/fci/automation/controller/PayrollController.java:135-157 | an employee is on the new sheet exactly when included, once each, with ids from the counter up |
| PayrollRecords.ResolveKeepsWellFormed | backend/src/main/java/com/fci/automation/controller/PayrollController.java:112-130 | resolving a path keeps the periods well formed |
| PayrollRecords.FilledAnswersThePeriod | backend/src/main/java/com/fci/automation/controller/PayrollController.java:132-168 | a successful load answers exactly the period's entries as stored afterwards, sorted by member id |
| PayrollRecords.LoadAnswersThePeriod | backend/src/main/java/com/fci/automation/controller/PayrollController.java:111-169 | `getEntries` answers exactly the entries of the period the path names, as stored afterwards |
| PayrollRecords.AppendFreshEntries | backend/src/main/java/com/fci/automation/controller/PayrollController.java:156 | appending fresh-id entries for a period that had none, one per employee, keeps the entry table well formed |
| PayrollRecords.FilledKeepsWellFormed | backend/src/main/java/com/fci/automation/controller/PayrollController.java:132-157 | populating keeps entry ids distinct and one entry per employee and period |
| PayrollRecords.PopulatedKeepsWellFormed | backend/src/main/java/com/fci/automation/controller/PayrollController.java:132-157 | appending a sheet of fresh entries, each for a stored employee and no employee twice, to a period with no entries keeps the repositories well formed |
| PayrollRecords.LoadKeepsWellFormed | backend/src/main/java/com/fci/automation/controller/PayrollController.java:111-169 | `getEntries` keeps the repositories well formed |
| PayrollRecords.FilledTwice | backend/src/main/java/com/fci/automation/controller/PayrollController.java:135 | loading a populated period again answers the same entries and creates nothing |
| PayrollRecords.LoadTwice | backend/src/main/java/com/fci/automation/controller/PayrollController.java:111-169 | loading a second time answers the same list and creates nothing |
| PayrollRecords.ResolveAgain | backend/src/main/java/com/fci/automation/controller/PayrollController.java:113-130 | resolving the same path again names the same period and creates nothing |
| PayrollRecords.EntriesOfPeriodAppend | backend/src/main/java/com/fci/automation/controller/PayrollController.java:132 | the entries of a period in two concatenated tables are the concatenation of each table's |
| PayrollRecords.LatestPeriod | backend/src/main/java/com/fci/automation/controller/PayrollController.java:115-126 | the period answered and the periods and counter afterwards are exactly `Latest` |
| PayrollRecords.Latest | backend/src/main/java/com/fci/automation/controller/PayrollController.java:115-126 | the answer is a stored period; with periods stored nothing changes, and with none a new period is created with the next id |
| PayrollRecords.ResolvePath | backend/src/main/java/com/fci/automation/controller/PayrollController.java:112-130 | the period id and the periods and counter afterwards are exactly `Resolve` |
| PayrollRecords.Resolve | backend/src/main/java/com/fci/automation/controller/PayrollController.java:112-130 | the path fails with `IllegalArgumentException` exactly when it is neither "latest" (any case) nor an id; only "latest" with no period stored creates one; "latest" resolves to a stored period |
| PayrollRecords.Fill | backend/src/main/java/com/fci/automation/controller/PayrollController.java:132-168 | the answer and the repositories afterwards are exactly `Filled` |
| PayrollRecords.Filled | backend/src/main/java/com/fci/automation/controller/PayrollController.java:132-168 | fails exactly when the period has no entries and is missing or has a month or year out of range; a failure or a period with entries changes nothing; employees and periods are unchanged and the stored entries are kept in front |
| PayrollRecords.GetEntries | backend/src/main/java/com/fci/automation/controller/PayrollController.java:111-169 | the answer and the repositories afterwards are exactly `Loaded` |
| PayrollRecords.Loaded | backend/src/main/java/com/fci/automation/controller/PayrollController.java:111-169 | a failure is an `IllegalArgumentException`, `NoSuchElementException` or `DateTimeException`; employees are unchanged and the stored entries and periods are kept in front |
| PayrollRecords.PopulatedStep | backend/src/main/java/com/fci/automation/controller/PayrollController.java:143-155 | one more employee adds at most their entry, at the end |
| PayrollRecords.Populate | backend/src/main/java/com/fci/automation/controller/PayrollController.java:143-156 | the stream builds exactly the `Populated` entries and draws one id per entry; the repositories are unchanged |
| PayrollRecords.EditTouchesOnlyInputs | backend/src/main/java/com/fci/automation/controller/PayrollController.java:177-186 | an edit keeps the entry's id, period and employee, copies the three inputs, keeps the active days only when they are sent as an explicit null, and recalculates |
| PayrollRecords.DaysNotDerivedFromActiveDays | backend/src/main/java/com/fci/automation/controller/PayrollController.java:200-212 | the day count and the active days are stored as sent, so five days over three active days stay so |
| PayrollRecords.UpdateReplacesInPlace | backend/src/main/java/com/fci/automation/controller/PayrollController.java:173-189 | an update replaces the named entry in place by its edit and leaves every other entry; an unknown id fails and changes nothing |
| PayrollRecords.UpdateKeepsOneEntryPerEmployee | backend/src/main/java/com/fci/automation/controller/PayrollController.java:173-189 | an update keeps one entry per employee and period |
| PayrollRecords.UpdateEntry | backend/src/main/java/com/fci/automation/controller/PayrollController.java:173-189 | the answer and the entries afterwards are exactly `Updated`; the other repositories are unchanged |
| PayrollRecords.Updated | backend/src/main/java/com/fci/automation/controller/PayrollController.java:173-189 | fails with `NoSuchElementException` exactly when no entry has the id, changing nothing; otherwise the answer is the stored entry with that id and the list keeps its length |
| PayrollRecords.EditEntry | backend/src/main/java/com/fci/automation/controller/PayrollController.java:177-186 | the inputs set on the fetched entry object, then the recalculation, give exactly `Edited` |
| PayrollRecords.Edited | backend/src/main/java/com/fci/automation/controller/PayrollController.java:177-186 | an edit keeps the entry's id, period and employee and takes the days worked and the advance from the input |
| PayrollRecords.BulkUpdateShape | backend/src/main/java/com/fci/automation/controller/PayrollController.java:193-220 | a bulk update answers one recalculated entry per input whose id is stored, skips the rest, keeps one entry per employee, and leaves entries no input names unchanged |
| PayrollRecords.BulkStepShape | backend/src/main/java/com/fci/automation/controller/PayrollController.java:196-216 | one input changes at most the entry it names, and answers it recalculated |
| PayrollRecords.BulkUpdatedStep | backend/src/main/java/com/fci/automation/controller/PayrollController.java:196-217 | one more input extends the bulk update by one step |
| PayrollRecords.BulkUpdateEntries | backend/src/main/java/com/fci/automation/controller/PayrollController.java:193-220 | the answer and the entries afterwards are exactly `BulkUpdated`; the other repositories are unchanged |
| PayrollRecords.BulkUpdated | backend/src/main/java/com/fci/automation/controller/PayrollController.java:193-220 | at most one answer per input; every entry keeps its id and period and the list keeps its length |
| PayrollRecords.BulkAnswersFinal | backend/src/main/java/com/fci/automation/controller/PayrollController.java:193-220 | when no id is sent twice, every answered entry is the entry as it stands in the table after the whole update, and names an input's id |
| PayrollRecords.BulkStep | backend/src/main/java/com/fci/automation/controller/PayrollController.java:196-216 | one input adds at most one answer and keeps every entry's id and period |
| PayrollRecords.StatusSetIdempotent | backend/src/main/java/com/fci/automation/controller/PayrollController.java:224-240 | closing or reopening sets only the named period's status, so doing it twice is doing it once; closing then reopening an open period restores the periods |
| PayrollRecords.SetStatus | backend/src/main/java/com/fci/automation/controller/PayrollController.java:224-240 | the answer and the periods afterwards are exactly `StatusSet` |
| PayrollRecords.StatusSet | backend/src/main/java/com/fci/automation/controller/PayrollController.java:224-240 | fails with "Period not found" exactly when no period has the id, changing nothing; otherwise the stored period with that id has the new status and the list keeps its length |
| PayrollRecords.ClosePeriod | backend/src/main/java/com/fci/automation/controller/PayrollController.java:224-230 | `closePeriod` is `StatusSet` with CLOSED |
| PayrollRecords.ReopenPeriod | backend/src/main/java/com/fci/automation/controller/PayrollController.java:234-240 | `reopenPeriod` is `StatusSet` with OPEN |
| PayrollImport.CellAsString | backend/src/main/java/com/fci/automation/service/PayrollImportService.java:156-180 | text as it is, a number as the digits of its `(int)` cast, a formula by its cached number or text, blanks and errors as "" |
| PayrollImport.CellAsDecimal | backend/src/main/java/com/fci/automation/service/PayrollImportService.java:182-219 | a number as it is; blank, error and missing cells and text that trims to nothing are 0 |
| PayrollImport.CellAsInteger | backend/src/main/java/com/fci/automation/service/PayrollImportService.java:221-253 | always in the `int` range; a number is its `(int)` cast; blank, error and missing cells and text that trims to nothing are 0 |
| PayrollImport.IntegerTextReadsBack | backend/src/main/java/com/fci/automation/service/PayrollImportService.java:229-233 | a day count typed as text, with or without surrounding spaces, reads back as itself |
| PayrollImport.TrimmedIntegerReads | backend/src/main/java/com/fci/automation/service/PayrollImportService.java:229-233 | text that trims to a number's digits reads as that number |
| PayrollImport.WholeNumberCells | backend/src/main/java/com/fci/automation/service/PayrollImportService.java:156-227 | a whole number in a number cell reads as its digits in the member-id column and as itself in the day column |
| PayrollImport.UnreadableAmountIsZero | backend/src/main/java/com/fci/automation/service/PayrollImportService.java:194-203 | text no reader accepts, with or without commas, counts as 0 rather than failing the row |
| PayrollImport.CommaGroupedAmount | backend/src/main/java/com/fci/automation/service/PayrollImportService.java:196-200 | text read only once its commas are removed gives the comma-free reading |
| PayrollImport.RowWritesTheMembersEntry | backend/src/main/java/com/fci/automation/service/PayrollImportService.java:111-154 | a known member ends with exactly one entry in the period holding the row's inputs, recalculated, keeping its id when it existed; an unknown member fails with its id in the message and changes nothing; a row without a member id succeeds and changes nothing |
| PayrollImport.KnownRowWrites | backend/src/main/java/com/fci/automation/service/PayrollImportService.java:121-153 | the known-member case: the entry found or created holds the row's inputs, recalculated |
| PayrollImport.RowKeepsWellFormed | backend/src/main/java/com/fci/automation/service/PayrollImportService.java:124-131 | a row keeps the repositories well formed: a new entry only when the member has none in the period, with a fresh id |
| PayrollImport.RewriteKeepsWellFormed | backend/src/main/java/com/fci/automation/service/PayrollImportService.java:125-153 | rewriting a stored entry keeps every entry's id, period and employee, and draws no id |
| PayrollImport.CreateKeepsWellFormed | backend/src/main/java/com/fci/automation/service/PayrollImportService.java:125-131 | a new entry has a fresh id, and its member had no entry in the period |
| PayrollImport.ErrorLine | backend/src/main/java/com/fci/automation/service/PayrollImportService.java:95 | a failure line starts with "Row " and ends with the message |
| PayrollImport.ImportCountsEveryRow | backend/src/main/java/com/fci/automation/service/PayrollImportService.java:88-97 | every data row is counted once, as a success or a failure, and each failure has its "Row" line; the import never stops early |
| PayrollImport.ImportKeepsWellFormed | backend/src/main/java/com/fci/automation/service/PayrollImportService.java:88-97 | the import keeps the repositories well formed and adds no employee and no period |
| PayrollImport.KnownMembersNeverFail | backend/src/main/java/com/fci/automation/service/PayrollImportService.java:88-97 | a sheet whose members are all known has no failures and no error lines |
| PayrollImport.ImportReportsBadRow | backend/src/main/java/com/fci/automation/service/PayrollImportService.java:72-109 | a header, a known row and an unknown "X9" row answer "Success: 1, Failed: 1" with the line "Row 3: Employee not found with Member ID: X9" |
| PayrollImport.ImportedSheet | backend/src/main/java/com/fci/automation/service/PayrollImportService.java:84-86 | the first row is skipped as the header and the rest are imported |
| PayrollImport.ProcessRow | backend/src/main/java/com/fci/automation/service/PayrollImportService.java:111-154 | the answer and the repositories afterwards are exactly `RowProcessed` |
| PayrollImport.RowProcessed | backend/src/main/java/com/fci/automation/service/PayrollImportService.java:111-154 | a row fails exactly when it has a member id no employee holds; a failure or a row without member id changes nothing; employees and periods are never changed |
| PayrollImport.WriteRow | backend/src/main/java/com/fci/automation/service/PayrollImportService.java:124-153 | finding or creating the entry object, setting its inputs, recalculating and saving give exactly `RowWritten` |
| PayrollImport.RowWritten | backend/src/main/java/com/fci/automation/service/PayrollImportService.java:124-153 | afterwards the member has an entry in the period holding the row's days; a new id is used exactly when the member had no entry there; employees and periods are unchanged |
| PayrollImport.FilledEntry | backend/src/main/java/com/fci/automation/service/PayrollImportService.java:133-151 | the entry object with the row's inputs set and recalculated is exactly `RowEntry` |
| PayrollImport.RowEntry | backend/src/main/java/com/fci/automation/service/PayrollImportService.java:133-151 | the entry keeps its id, period, employee, active days and UTR, takes days, wage and advance from cells 2, 3 and 4, and is recalculated |
| PayrollImport.ImportPayroll | backend/src/main/java/com/fci/automation/service/PayrollImportService.java:72-109 | the answer and the repositories afterwards are exactly `PayrollImported` |
| PayrollImport.PayrollImported | backend/src/main/java/com/fci/automation/service/PayrollImportService.java:72-109 | an unknown period and an unreadable workbook fail with their messages; a failure changes nothing; employees and periods are never changed |
| PayrollImport.ImportRows | backend/src/main/java/com/fci/automation/service/PayrollImportService.java:88-97 | the loop's counts, error lines and repositories are exactly `Imported` |
| PayrollImport.Imported | backend/src/main/java/com/fci/automation/service/PayrollImportService.java:88-97 | every row is counted once, as a success or a failure; employees and periods are unchanged |
| UtrImport.ExplicitMentionsUtr | backend/src/main/java/com/fci/automation/service/PayrollImportService.java:409-413 | a "utr number" header also mentions "utr" |
| UtrImport.MentionsAccount | backend/src/main/java/com/fci/automation/service/PayrollImportService.java:403-405 | a header holding "account" or "beneficiary" names the account column, whatever the case of the rest |
| UtrImport.LastWhere | backend/src/main/java/com/fci/automation/service/PayrollImportService.java:402-438 | the last cell of a row that satisfies a test, and none exactly when no cell does |
| UtrImport.RowScanPicks | backend/src/main/java/com/fci/automation/service/PayrollImportService.java:402-438 | within a row the account column is the last account header, and the UTR column the last "utr number" header or, without one, the last weaker UTR keyword; columns the row does not name are kept |
| UtrImport.FindHeader | backend/src/main/java/com/fci/automation/service/PayrollImportService.java:398-443 | the data starts after the row at which the scan stopped |
| UtrImport.SeenStep | backend/src/main/java/com/fci/automation/service/PayrollImportService.java:398-443 | a column is seen in the first i+1 rows exactly when seen in the first i or named in row i |
| UtrImport.FindHeaderFrom | backend/src/main/java/com/fci/automation/service/PayrollImportService.java:398-443 | the scan fails exactly when the rows never name both columns, and otherwise stops at the first row by which both are named |
| UtrImport.FoundAt | backend/src/main/java/com/fci/automation/service/PayrollImportService.java:439-442 | the row that completes both columns ends the scan |
| UtrImport.HeaderScanMeaning | backend/src/main/java/com/fci/automation/service/PayrollImportService.java:393-447 | the header scan from the first row fails exactly when the rows never name an account or a UTR column; otherwise the data starts right after the first row by which both are named, and in that row "utr number" and the last account header win |
| UtrImport.UtrRowEffect | backend/src/main/java/com/fci/automation/service/PayrollImportService.java:450-487 | a data row counts exactly when its trimmed, unmarked account belongs to an employee with an entry in the period; that entry then holds the row's trimmed, unmarked UTR, and nothing else changes |
| UtrImport.Unmarked | backend/src/main/java/com/fci/automation/service/PayrollImportService.java:457-466 | the cell trimmed, with at most its first character dropped, exactly when that is the text mark `'`; nothing trimmable is left at its end |
| UtrImport.UtrRowApplied | backend/src/main/java/com/fci/automation/service/PayrollImportService.java:451-487 | a row that does not count changes nothing; a row that counts has both columns, a non-empty account and an employee holding it; employees, periods and the next id never change |
| UtrImport.UtrTallied | backend/src/main/java/com/fci/automation/service/PayrollImportService.java:450-488 | each row adds at most one to the count, a first row that counts adds one, and employees, periods and the next id never change |
| UtrImport.SameButUtrTransitive | backend/src/main/java/com/fci/automation/service/PayrollImportService.java:480 | entries differing only in UTR numbers, changed again the same way, still differ only in UTR numbers |
| UtrImport.UtrTalliedKeeps | backend/src/main/java/com/fci/automation/service/PayrollImportService.java:450-488 | the data pass counts at most one update per row and changes nothing but UTR numbers |
| UtrImport.NoHeaderNoChange | backend/src/main/java/com/fci/automation/service/PayrollImportService.java:445-447 | without an account header and a UTR header the answer is the "Could not identify" message and nothing changes |
| UtrImport.UtrProcessed | backend/src/main/java/com/fci/automation/service/PayrollImportService.java:388-493 | the answer is the missing-columns message, changing nothing, or an "Import Complete: " summary; employees, periods and the next id never change |
| UtrImport.AnyCellValue | backend/src/main/java/com/fci/automation/service/PayrollImportService.java:495-505 | text as it is, a number as Java prints a double, a boolean spelled out; blank, formula, error and missing cells give "" |
| UtrImport.RowValues | backend/src/main/java/com/fci/automation/service/PayrollImportService.java:264-269 | a workbook row up to its last cell, one text per cell |
| UtrImport.SheetValues | backend/src/main/java/com/fci/automation/service/PayrollImportService.java:263-270 | every row of the first sheet, as text, in order |
| UtrImport.UtrImportKeeps | backend/src/main/java/com/fci/automation/service/PayrollImportService.java:256-287 | whatever the file, the import changes nothing but UTR numbers of existing entries |
| UtrImport.UtrImported | backend/src/main/java/com/fci/automation/service/PayrollImportService.java:256-287 | fails exactly with "Period not found" for an unknown period, changing nothing; a file that cannot be read changes nothing; employees, periods and the next id never change |
| UtrImport.ScanRow | backend/src/main/java/com/fci/automation/service/PayrollImportService.java:402-438 | the cell loop of the header scan computes exactly `RowScanned` |
| UtrImport.ScanHeader | backend/src/main/java/com/fci/automation/service/PayrollImportService.java:398-443 | the row loop of the header scan computes exactly `FindHeader` from the first row |
| UtrImport.ApplyUtrRow | backend/src/main/java/com/fci/automation/service/PayrollImportService.java:451-487 | one data row's count and the repositories afterwards are exactly `UtrRowApplied` |
| UtrImport.UtrTalliedNext | backend/src/main/java/com/fci/automation/service/PayrollImportService.java:450-488 | taking one row off the rows still to do advances the tally by that row |
| UtrImport.ApplyUtrRows | backend/src/main/java/com/fci/automation/service/PayrollImportService.java:450-488 | the data loop's count and repositories are exactly `UtrApplied` over the rows after the header |
| UtrImport.ProcessUtrRows | backend/src/main/java/com/fci/automation/service/PayrollImportService.java:388-493 | the answer and the repositories afterwards are exactly `UtrProcessed` |
| UtrImport.ReadRow | backend/src/main/java/com/fci/automation/service/PayrollImportService.java:265-268 | the cell loop reads exactly `RowValues` |
| UtrImport.ReadSheet | backend/src/main/java/com/fci/automation/service/PayrollImportService.java:264-270 | the row loop reads exactly `SheetValues` |
| UtrImport.ImportUtrData | backend/src/main/java/com/fci/automation/service/PayrollImportService.java:256-287 | the answer and the repositories afterwards are exactly `UtrImported` |
| UtrImportTest.HeaderRow | backend/src/main/java/com/fci/automation/service/PayrollImportService.java:398-443 | a header row of an account header then the "UTR Number" header gives account column 0, UTR column 1 and data from the next row |
| UtrImportTest.UnmarkedMarked | backend/src/main/java/com/fci/automation/service/PayrollImportService.java:457-466 | a value marked as text with a leading quote loses the mark |
| UtrImportTest.OneUpdated | backend/src/main/java/com/fci/automation/service/PayrollImportService.java:490-492 | one update and no errors answer "Import Complete: 1 Updated. " |
| UtrImportTest.StatementRows | backend/src/main/java/com/fci/automation/service/PayrollImportService.java:345-368 | the tab-separated statement reads as its two rows |
| UtrImportTest.TextUploadProcessed | backend/src/main/java/com/fci/automation/service/PayrollImportService.java:271-286 | a file that is not a workbook but reads as a non-empty table is processed like a workbook's rows |
| UtrImportTest.StatementProcessed | backend/src/main/java/com/fci/automation/service/PayrollImportService.java:388-493 | the statement's two rows give one update, of the employee's entry |
| UtrImportTest.StatementUpdatesEntry | backend/src/test/java/com/fci/automation/PayrollImportServiceTest.java:37-74 | a tab-separated statement with a quoted account and UTR sets that employee's entry's UTR to the unquoted UTR and reports "1 Updated" |
| TextTables.StripTags | backend/src/main/java/com/fci/automation/service/PayrollImportService.java:377 | removing tags never lengthens the text |
| TextTables.StripTagsWithin | backend/src/main/java/com/fci/automation/service/PayrollImportService.java:377 | stripping tags only removes: a character absent from the text is absent afterwards |
| TextTables.StripTagsLeavesNoTag | backend/src/main/java/com/fci/automation/service/PayrollImportService.java:377 | after `replaceAll("<[^>]+>", "")` no tag is left in the text |
| TextTables.TagFreeUnchanged | backend/src/main/java/com/fci/automation/service/PayrollImportService.java:377 | text holding no tag is left as it is |
| TextTables.StripTagsIdempotent | backend/src/main/java/com/fci/automation/service/PayrollImportService.java:377 | stripping tags twice gives what stripping once gives |
| TextTables.NoAngleNoTag | backend/src/main/java/com/fci/automation/service/PayrollImportService.java:377 | text without a '<' is left as it is |
| TextTables.CleanTagBytes | backend/src/main/java/com/fci/automation/service/PayrollImportService.java:373-386 | a missing value becomes the empty text |
| TextTables.PaddedCell | backend/src/main/java/com/fci/automation/service/PayrollImportService.java:373-386 | a cell `<td> x </td>`, `x` without '<' and with no trimmable unit at either end, is cleaned to the unescaping of `x` |
| TextTables.CellTagsStripped | backend/src/main/java/com/fci/automation/service/PayrollImportService.java:377 | the tags of `<td>x</td>` are removed and `x` without '<' is kept |
| TextTables.EscapedAngleCell | backend/src/main/java/com/fci/automation/service/PayrollImportService.java:373-386 | `<td> &amp;lt; </td>` is cleaned to `<`: `&amp;` is undone before `&lt;` |
| TextTables.StripTagsKeepsPlain | backend/src/main/java/com/fci/automation/service/PayrollImportService.java:377 | text before the first '<' is kept as it is |
| TextTables.StripTagsDropsTag | backend/src/main/java/com/fci/automation/service/PayrollImportService.java:377 | a tag at the front, a '<', a non-empty inside without '>' and a '>', is removed whole and the search resumes after it |
| TextTables.Unescaped | backend/src/main/java/com/fci/automation/service/PayrollImportService.java:379-384 | text without an `&` is left as it is |
| TextTables.UnescapesNbsp | backend/src/main/java/com/fci/automation/service/PayrollImportService.java:379 | `&nbsp;` between texts without '&' becomes a space |
| TextTables.UnescapesAmp | backend/src/main/java/com/fci/automation/service/PayrollImportService.java:380 | `&amp;` between texts without '&', followed by text without ';', becomes '&' |
| TextTables.UnescapesLt | backend/src/main/java/com/fci/automation/service/PayrollImportService.java:381 | `&lt;` between texts without '&' becomes '<' |
| TextTables.UnescapesGt | backend/src/main/java/com/fci/automation/service/PayrollImportService.java:382 | `&gt;` between texts without '&' becomes '>' |
| TextTables.UnescapesApos | backend/src/main/java/com/fci/automation/service/PayrollImportService.java:383 | `&#39;` between texts without '&' becomes an apostrophe |
| TextTables.UnescapesQuot | backend/src/main/java/com/fci/automation/service/PayrollImportService.java:384 | `&quot;` between texts without '&' becomes a double quote |
| TextTables.AmpThenLt | backend/src/main/java/com/fci/automation/service/PayrollImportService.java:379-384 | `&amp;lt;` is unescaped to `<`, because `&amp;` is replaced before `&lt;` |
| TextTables.EntityOnce | backend/src/main/java/com/fci/automation/service/PayrollImportService.java:379-384 | an entity occurring once, between texts without '&', is replaced and the texts kept |
| TextTables.CleanPlainText | backend/src/main/java/com/fci/automation/service/PayrollImportService.java:373-386 | text with no '<' and no '&' is only trimmed |
| TextTables.BoldCell | backend/src/main/java/com/fci/automation/service/PayrollImportService.java:373-386 | `<b>x</b>` is cleaned to `x` |
| TextTables.Unquoted | backend/src/main/java/com/fci/automation/service/PayrollImportService.java:359-362 | unquoting fails exactly on a value that is a lone double quote, where `substring(1, 0)` throws |
| TextTables.UnquotePlain | backend/src/main/java/com/fci/automation/service/PayrollImportService.java:360-362 | a value that does not start with a quote is kept |
| TextTables.UnquoteQuoted | backend/src/main/java/com/fci/automation/service/PayrollImportService.java:360-362 | a quoted value loses exactly its surrounding quotes |
| TextTables.Columns | backend/src/main/java/com/fci/automation/service/PayrollImportService.java:352-354 | a line that splits on tabs into two or more columns is split on tabs |
| TextTables.ReadCell | backend/src/main/java/com/fci/automation/service/PayrollImportService.java:359-363 | a column's cell fails exactly when it trims to a lone quote |
| TextTables.CellsOf | backend/src/main/java/com/fci/automation/service/PayrollImportService.java:357-364 | a line read without failure has one cell per column |
| TextTables.CellsOfMeaning | backend/src/main/java/com/fci/automation/service/PayrollImportService.java:357-364 | a line's cells are its columns each read, and the line fails exactly when one of its columns fails, with the first failure |
| TextTables.RowsOfLines | backend/src/main/java/com/fci/automation/service/PayrollImportService.java:349-367 | the rows read are no more than the lines, and none is empty |
| TextTables.DelimitedTable | backend/src/main/java/com/fci/automation/service/PayrollImportService.java:347-368 | text of one line gives no rows |
| TextTables.TabLineSplits | backend/src/main/java/com/fci/automation/service/PayrollImportService.java:350-354 | a row of two or more plain cells joined by tabs is not blank and splits back into those cells |
| TextTables.PlainCellRead | backend/src/main/java/com/fci/automation/service/PayrollImportService.java:359-363 | a plain cell is read as it is |
| TextTables.PlainCellsRead | backend/src/main/java/com/fci/automation/service/PayrollImportService.java:357-364 | a line of plain cells is read as those cells |
| TextTables.DelimitedReadsBack | backend/src/main/java/com/fci/automation/service/PayrollImportService.java:347-368 | two or more rows of two or more plain cells, written tab-separated one per line, read back as exactly those rows |
| TextTables.LineRead | backend/src/main/java/com/fci/automation/service/PayrollImportService.java:349-366 | a last line that is not blank and whose columns read as themselves adds that row |
| TextTables.LineFails | backend/src/main/java/com/fci/automation/service/PayrollImportService.java:349-366 | a last line that is not blank and whose cells fail ends the reading with that failure |
| TextTables.LoneQuoteFails | backend/src/main/java/com/fci/automation/service/PayrollImportService.java:347-368 | a listing with a lone `"` cell fails as a whole |
| TextTables.XmlCells | backend/src/main/java/com/fci/automation/service/PayrollImportService.java:306-314 | one cell per matched cell: its cleaned data, or "" when it has no data element |
| TextTables.XmlTable | backend/src/main/java/com/fci/automation/service/PayrollImportService.java:303-317 | one row per matched row that has a cell, in order, and none empty |
| TextTables.HtmlCells | backend/src/main/java/com/fci/automation/service/PayrollImportService.java:334-336 | one cleaned cell per matched cell |
| TextTables.HtmlTable | backend/src/main/java/com/fci/automation/service/PayrollImportService.java:330-340 | one row per matched row that has a cell, in order, and none empty |
| TextTables.NonStandardTable | backend/src/main/java/com/fci/automation/service/PayrollImportService.java:289-371 | no row of the table read is empty |
| TextTables.PlainTextIsDelimited | backend/src/main/java/com/fci/automation/service/PayrollImportService.java:289-371 | text without a '<' is read as a delimited listing |
| TextTables.XmlFirst | backend/src/main/java/com/fci/automation/service/PayrollImportService.java:294-320 | an XML spreadsheet that yields a row is read as XML, whatever else the text holds |
| TextTables.XmlTableKeeps | backend/src/main/java/com/fci/automation/service/PayrollImportService.java:315-319 | a matched row with a cell makes the XML reading non-empty, so it is returned |
| TextTables.XmlTableStep | backend/src/main/java/com/fci/automation/service/PayrollImportService.java:303-317 | one more matched XML row adds its cells when it has any |
| TextTables.HtmlTableStep | backend/src/main/java/com/fci/automation/service/PayrollImportService.java:330-340 | one more matched HTML row adds its cells when it has any |
| TextTables.RowsFailureSticks | backend/src/main/java/com/fci/automation/service/PayrollImportService.java:349-367 | once a line has thrown, the reading ends with that exception |
| TextTables.CellsFailureSticks | backend/src/main/java/com/fci/automation/service/PayrollImportService.java:357-364 | once a cell has thrown, the line ends with that exception |
| TextTables.ParseNonStandardExcel | backend/src/main/java/com/fci/automation/service/PayrollImportService.java:289-371 | the table read is exactly `NonStandardTable` |
| TextTables.ScanXml | backend/src/main/java/com/fci/automation/service/PayrollImportService.java:302-317 | the XML row loop computes exactly `XmlTable` |
| TextTables.XmlRowData | backend/src/main/java/com/fci/automation/service/PayrollImportService.java:304-314 | the XML cell loop computes exactly `XmlCells` |
| TextTables.ScanHtml | backend/src/main/java/com/fci/automation/service/PayrollImportService.java:329-340 | the HTML row loop computes exactly `HtmlTable` |
| TextTables.HtmlRowData | backend/src/main/java/com/fci/automation/service/PayrollImportService.java:332-336 | the HTML cell loop computes exactly `HtmlCells` |
| TextTables.ParseDelimited | backend/src/main/java/com/fci/automation/service/PayrollImportService.java:347-368 | the delimited loop computes exactly `DelimitedTable`, a lone-quote cell throwing out of it |
| TextTables.ReadCells | backend/src/main/java/com/fci/automation/service/PayrollImportService.java:356-364 | the column loop computes exactly `CellsOf` |
| CleanJson.Clean | backend/src/main/java/com/fci/automation/service/GoogleAIStudioService.java:220-233 | a missing answer gives "{}"; any other answer gives text with nothing left to trim |
| CleanJson.StripFences | backend/src/main/java/com/fci/automation/service/GoogleAIStudioService.java:224-231 | cutting the fences never lengthens the text |
| CleanJson.UnfencedIsTrimmed | backend/src/main/java/com/fci/automation/service/GoogleAIStudioService.java:220-233 | an answer with no fence at either end is only trimmed |
| CleanJson.JsonFenceRemoved | backend/src/main/java/com/fci/automation/service/GoogleAIStudioService.java:220-233 | a body fenced as ```json on lines of its own comes back as the trimmed body |
| CleanJson.PlainFenceRemoved | backend/src/main/java/com/fci/automation/service/GoogleAIStudioService.java:220-233 | a body fenced with a bare ``` comes back trimmed, unless it begins with "json", which the ```json test takes for part of the fence |
| Billing.MapResult | backend/src/main/java/com/fci/automation/service/BillingService.java:61-106 | the serial number is kept; a SUCCESS status (any case) gives EXTRACTED, 95, no warning, clause or part, the header's slip number when there is a header, the date when it is answered and parses (else the row's date), and the bag count when it is answered and parses (else the row's count); any other status gives REJECTED, 0 and the status in the warning, the rest unchanged |
| Billing.Rows | backend/src/main/java/com/fci/automation/service/BillingService.java:35-59 | one row per uploaded file |
| Billing.RowFor | backend/src/main/java/com/fci/automation/service/BillingService.java:39-57 | a file's row is numbered with its serial and is EXTRACTED, REJECTED or NEEDS_VERIFICATION, the last exactly when the extraction threw, in which case it carries the error and no slip data |
| Billing.RowsNumbered | backend/src/main/java/com/fci/automation/service/BillingService.java:35-59 | rows are numbered 1, 2, 3, ... in upload order, and a file whose extraction threw comes back as a row needing verification |
| Billing.ExtractIssueData | backend/src/main/java/com/fci/automation/service/BillingService.java:35-59 | the file loop computes exactly `Rows` |
| Billing.RowsStep | backend/src/main/java/com/fci/automation/service/BillingService.java:39-57 | one more file adds exactly its row |
| Billing.Rejection | backend/src/main/java/com/fci/automation/service/BillingService.java:114-138 | a row passes exactly when it needs no verification, has a non-blank slip number, a date, a positive bag count and no ISSUE slip with its number is saved |
| Billing.SaveAllSucceedsIff | backend/src/main/java/com/fci/automation/service/BillingService.java:112-150 | saving succeeds exactly when every row passes against the slips saved before it, and then adds one ISSUE slip per row in order |
| Billing.SaveAll | backend/src/main/java/com/fci/automation/service/BillingService.java:112-150 | a successful save keeps the saved slips in front and adds one ISSUE slip per row, with the row's number and date, each row having passed against the slips saved before it |
| Billing.SaveAllAccepts | backend/src/main/java/com/fci/automation/service/BillingService.java:112-150 | an acceptable batch is saved as one slip per row |
| Billing.SaveAllAppends | backend/src/main/java/com/fci/automation/service/BillingService.java:112-150 | a successful save was of an acceptable batch and appended one slip per row |
| Billing.IssueExistsSnoc | backend/src/main/java/com/fci/automation/service/BillingService.java:134-148 | after one more save an ISSUE slip with a number exists exactly when it existed before or the new slip is it |
| Billing.AcceptableTail | backend/src/main/java/com/fci/automation/service/BillingService.java:114-149 | an acceptable batch's first row passes and the rest is acceptable once it is saved |
| Billing.AcceptableCons | backend/src/main/java/com/fci/automation/service/BillingService.java:114-149 | a first row that passes followed by a rest acceptable after it makes the batch acceptable |
| Billing.SlipsOf | backend/src/main/java/com/fci/automation/service/BillingService.java:141-148 | one slip per accepted row |
| Billing.WorkSlipStore.constructor | backend/src/main/java/com/fci/automation/service/BillingService.java:20-30 | the store starts with the given slips |
| Billing.WorkSlipStore.SaveIssueData | backend/src/main/java/com/fci/automation/service/BillingService.java:112-150 | a batch that `SaveAll` accepts is saved; otherwise the error of the first rejected row is returned and, the method being transactional, nothing is saved |
| AuthInterceptor.RoleOf | backend/src/main/java/com/fci/automation/config/AuthInterceptor.java:46-51 | the admin, user and bill mock tokens, and only they, name the ADMIN, USER and BILL roles |
| AuthInterceptor.Access | backend/src/main/java/com/fci/automation/config/AuthInterceptor.java:66-118 | a request refused by role is answered 403 |
| AuthInterceptor.PreHandle | backend/src/main/java/com/fci/automation/config/AuthInterceptor.java:15-119 | a refused request is answered 401 or 403 |
| AuthInterceptor.MissingOrMalformedToken | backend/src/main/java/com/fci/automation/config/AuthInterceptor.java:21-59 | a request other than OPTIONS without a token, or with an empty one, is answered 401 "Missing Authorization Header"; one whose token has no colon is answered 401 "Invalid Token Format" |
| AuthInterceptor.SplitToken | backend/src/main/java/com/fci/automation/config/AuthInterceptor.java:35-37 | a token built as real token, colon, non-empty session splits back into those two parts |
| AuthInterceptor.CurrentSessionToken | backend/src/main/java/com/fci/automation/config/AuthInterceptor.java:33-64 | a token for the current session reaches the role table; one for another session is answered 401 whatever it names |
| AuthInterceptor.SessionToken | backend/src/main/java/com/fci/automation/config/AuthInterceptor.java:33-118 | on a well-formed token the session part decides first, then the token part, then the role rules |
| AuthInterceptor.PreflightAllowed | backend/src/main/java/com/fci/automation/config/AuthInterceptor.java:20-23 | an OPTIONS request passes, with or without a token |
| AuthInterceptor.AllowedRequests | backend/src/main/java/com/fci/automation/config/AuthInterceptor.java:15-119 | a non-pre-flight request that passes carried a colon token for the current session naming one of the three roles |
| AuthInterceptor.RoleConfinement | backend/src/main/java/com/fci/automation/config/AuthInterceptor.java:66-118 | a passing BILL request is under /api/billing or /api/auth; a passing request under /api/billing is BILL's; a passing non-GET under /api/employees carries the admin token |
| AuthInterceptor.EmployeesApiApart | backend/src/main/java/com/fci/automation/config/AuthInterceptor.java:81-106 | the employee API prefix is neither the billing nor the login prefix |
| AuthInterceptor.UserReadsEmployees | backend/src/main/java/com/fci/automation/config/AuthInterceptor.java:98-118 | a current user token may GET /api/employees |
| AuthInterceptor.UserMayNotUpload | backend/src/main/java/com/fci/automation/config/AuthInterceptor.java:98-103 | a user token may not POST to /api/employees/upload: 403 |
| AuthInterceptor.UserOnEmployees | backend/src/main/java/com/fci/automation/config/AuthInterceptor.java:98-116 | a user may read the employee API and may not write to it |
| AuthInterceptor.StaleAdminRefused | backend/src/main/java/com/fci/automation/config/AuthInterceptor.java:39-44 | an admin token from another server run is answered 401 |
| AuthInterceptor.EmptySessionThrows | backend/src/main/java/com/fci/automation/config/AuthInterceptor.java:35-37 | a token with nothing after its colon splits into one part and the filter throws |
| AuthGuard.HomeOf | frontend/src/app/auth/auth.guard.ts:20-26 | the page a refused user is sent to is never the login page |
| AuthGuard.Guard | frontend/src/app/auth/auth.guard.ts:5-35 | the login page exactly when no role is stored; the route opens exactly when a role is stored and the route lists no roles or lists it; otherwise the role's home page |
| AuthGuard.RedirectSettles | frontend/src/app/auth/auth.guard.ts:14-27 | a user sent to their home page is let in there when that route lists their role or none |
| AuthGuard.GuardExamples | frontend/src/app/auth/auth.guard.ts:5-35 | no role goes to /login; any role opens a route without roles; BILL on an admin/user route goes to /billing; USER on an admin route goes to /user/home |
| CasualAttendance.JsDaysInMonth | frontend/src/app/payroll/casual-attendance.component.ts:199 | `new Date(year, month, 0).getDate()` is between 28 and 31 |
| CasualAttendance.ColumnsMatchCalendar | frontend/src/app/payroll/casual-attendance.component.ts:197-201 | for a month 1..12 of a year outside 0..99 the sheet has one column per day of the month |
| CasualAttendance.MonthRollover | frontend/src/app/payroll/casual-attendance.component.ts:199 | month 13 reads as January of the next year and month 0 as December of the one before |
| CasualAttendance.DayList | frontend/src/app/payroll/casual-attendance.component.ts:200 | the headers are 1..n in order |
| CasualAttendance.IndexOf | frontend/src/app/payroll/casual-attendance.component.ts:209 | -1 exactly when the day is not listed; otherwise the first position holding it |
| CasualAttendance.RemoveOnly | frontend/src/app/payroll/casual-attendance.component.ts:211 | removing a listed day drops only that day, and no day is then listed twice |
| CasualAttendance.AppendOnly | frontend/src/app/payroll/casual-attendance.component.ts:213 | appending an unlisted day adds only that day, and no day is then listed twice |
| CasualAttendance.Toggled | frontend/src/app/payroll/casual-attendance.component.ts:207-215 | a click on a listed day removes one occurrence of it; on an unlisted day it appends it after the others |
| CasualAttendance.ToggleFlips | frontend/src/app/payroll/casual-attendance.component.ts:207-215 | a click flips exactly the clicked day, keeps every other day, moves the count by one and lists no day twice |
| CasualAttendance.ToggleTwice | frontend/src/app/payroll/casual-attendance.component.ts:207-215 | two clicks restore the same days, and the same list when the day was unmarked |
| CasualAttendance.SetDayEffect | frontend/src/app/payroll/casual-attendance.component.ts:231-242 | switching a day on or off for one labourer sets just that day and keeps the list free of repeats |
| CasualAttendance.GloballyToggled | frontend/src/app/payroll/casual-attendance.component.ts:222-243 | a header click changes only the day lists, gives every labourer a list, and marks the day for everybody unless everybody had it |
| CasualAttendance.CasualOnly | frontend/src/app/payroll/casual-attendance.component.ts:187 | every kept entry is a casual labourer's from the input, and every casual labourer's entry is kept |
| CasualAttendance.CasualOnlyAppend | frontend/src/app/payroll/casual-attendance.component.ts:187 | filtering two pieces gives the two filtered pieces in order, so the kept entries keep the order received |
| CasualAttendance.CasualOnlyCounts | frontend/src/app/payroll/casual-attendance.component.ts:187 | each casual labourer's entry is kept as many times as received, and no other entry is kept |
| CasualAttendance.LoadedSheet | frontend/src/app/payroll/casual-attendance.component.ts:181-192 | after loading, the sheet lists every casual labourer and nobody else, each with a day list |
| CasualAttendance.IsDayGloballyActive | frontend/src/app/payroll/casual-attendance.component.ts:217-220 | a day is active for the column exactly when there is a labourer and every labourer has it |
| CasualAttendance.AllHaveDay | frontend/src/app/payroll/casual-attendance.component.ts:219 | `every` holds exactly when each entry has the day |
| CasualAttendance.GlobalToggleFlips | frontend/src/app/payroll/casual-attendance.component.ts:222-243 | a header click flips whether the day is marked for everybody, leaves every other day alone and lists no day twice |
| CasualAttendance.HasValidationErrors | frontend/src/app/payroll/casual-attendance.component.ts:247-249 | there is an error exactly when some labourer's count of marked days differs from the days worked |
| CasualAttendance.AttendanceSheet.constructor | frontend/src/app/payroll/casual-attendance.component.ts:140-144 | the sheet starts with no period, no columns and no entries |
| CasualAttendance.AttendanceSheet.GenerateDays | frontend/src/app/payroll/casual-attendance.component.ts:197-201 | without a period nothing changes; otherwise the columns are 1..days of the period's month |
| CasualAttendance.AttendanceSheet.LoadEntries | frontend/src/app/payroll/casual-attendance.component.ts:181-192 | the entries become the casual labourers, each with a day list, and nothing else changes |
| CasualAttendance.AttendanceSheet.ToggleDay | frontend/src/app/payroll/casual-attendance.component.ts:207-215 | only the clicked labourer's days change, to the toggled list |
| CasualAttendance.AttendanceSheet.ToggleDayGlobally | frontend/src/app/payroll/casual-attendance.component.ts:222-243 | nothing changes on a closed period; otherwise every labourer's days become the column toggle |
| CasualAttendance.FebruaryColumns | frontend/src/app/payroll/casual-attendance.component.ts:197-215 | February has 29 columns in 2024 and 28 in 2023 |
| CasualAttendance.ClickMarked | frontend/src/app/payroll/casual-attendance.component.ts:197-215 | clicking 5 on [3, 5, 7] gives [3, 7] |
| CasualAttendance.ClickUnmarked | frontend/src/app/payroll/casual-attendance.component.ts:197-215 | clicking 5 on [3, 7] gives [3, 7, 5] |
| EmployeeUpload.EmployeesListed | backend/src/main/java/com/fci/automation/controller/EmployeeController.java:36-49 | the listing holds exactly the stored employees, each as often as stored |
| EmployeeUpload.EmployeesListedSorted | backend/src/main/java/com/fci/automation/controller/EmployeeController.java:40-48 | with member ids all numeric or none numeric, the listing is in member-id order |
| EmployeeUpload.LastFiredMeaning | backend/src/main/java/com/fci/automation/controller/EmployeeController.java:21-29 | the message chosen is that of the last constraint the database message names, and the generic text exactly when it names none |
| EmployeeUpload.RewordedByLast | backend/src/main/java/com/fci/automation/controller/EmployeeController.java:21-29 | running the four tests front to back leaves the text of the last one that fired |
| EmployeeUpload.LastFiredDropFirst | backend/src/main/java/com/fci/automation/controller/EmployeeController.java:22-29 | a later test that fires overrides the first one |
| EmployeeUpload.ConflictMessage | backend/src/main/java/com/fci/automation/controller/EmployeeController.java:18-34 | the answer always ends in " (Value already used)" and starts with the text of the last constraint named, or "Duplicate entry detected." when none is |
| EmployeeUpload.BankAccountNameWins | backend/src/main/java/com/fci/automation/controller/EmployeeController.java:28-29 | a message naming BANK_ACCOUNT_NO is answered as a bank-account clash, whatever else it names |
| EmployeeUpload.CellValue | backend/src/main/java/com/fci/automation/controller/EmployeeController.java:202-213 | the text read from a cell has nothing left to trim |
| EmployeeUpload.NumberCellReadsBack | backend/src/main/java/com/fci/automation/controller/EmployeeController.java:208-209 | a number cell reads as the digits of its whole part, which parse back to it |
| EmployeeUpload.HeadersOfCells | backend/src/main/java/com/fci/automation/controller/EmployeeController.java:78-82 | every header comes from a present cell, in increasing column order |
| EmployeeUpload.CellsHaveHeaders | backend/src/main/java/com/fci/automation/controller/EmployeeController.java:78-82 | every present header cell gives a header |
| EmployeeUpload.HeaderNames | backend/src/main/java/com/fci/automation/controller/EmployeeController.java:81 | the found headers are listed in the order read |
| EmployeeUpload.ColumnMapKeepsLast | backend/src/main/java/com/fci/automation/controller/EmployeeController.java:76-82 | the column map holds exactly the headers read, and a header seen twice keeps its right-most column |
| EmployeeUpload.HeaderWith | backend/src/main/java/com/fci/automation/controller/EmployeeController.java:194-197 | the first header in map order that contains the key, and none exactly when no header contains it |
| EmployeeUpload.MatchFrom | backend/src/main/java/com/fci/automation/controller/EmployeeController.java:193-199 | the first key, in priority order, that some header contains, with the first such header in map order; none exactly when no key is contained in any header |
| EmployeeUpload.FindColumn | backend/src/main/java/com/fci/automation/controller/EmployeeController.java:192-200 | -1 exactly when no header contains any of the keys; otherwise the column of the first match |
| EmployeeUpload.MatchedKeyIgnoresOrder | backend/src/main/java/com/fci/automation/controller/EmployeeController.java:192-200 | the map's iteration order decides neither whether a column is found nor by which key |
| EmployeeUpload.MatchMoves | backend/src/main/java/com/fci/automation/controller/EmployeeController.java:192-200 | a match under one iteration order is found under any other, at that key or an earlier one |
| EmployeeUpload.WithIdentifier | backend/src/main/java/com/fci/automation/controller/EmployeeController.java:127-153 | setting one identifier changes that identifier and nothing else |
| EmployeeUpload.IdentifierSet | backend/src/main/java/com/fci/automation/controller/EmployeeController.java:117-155 | an identifier column fails the row exactly when its non-empty value is held by another member id; otherwise the identifier becomes the column's value when the column is present and its value non-empty, and stays as it was otherwise; every other field is kept |
| EmployeeUpload.IdentifiersSet | backend/src/main/java/com/fci/automation/controller/EmployeeController.java:117-155 | the UAN, IP and bank account are each written from their column when present and non-empty, and nothing else changes |
| EmployeeUpload.RowApplication | backend/src/main/java/com/fci/automation/controller/EmployeeController.java:107-178 | a row that passes is written over its base: name and IFSC from their columns when present, the three identifiers when non-empty, the category from the category column; id, member id, status and inactive date kept |
| EmployeeUpload.CategoryNamedIgnoresCase | backend/src/main/java/com/fci/automation/controller/EmployeeController.java:166 | category names are read whatever their case |
| EmployeeUpload.Categorized | backend/src/main/java/com/fci/automation/controller/EmployeeController.java:161-178 | the employee always ends up with a category and nothing else changes; a known name sets it, and otherwise an existing category is kept or CL set |
| EmployeeUpload.RowDraft | backend/src/main/java/com/fci/automation/controller/EmployeeController.java:97-181 | a row is skipped exactly when its member id is blank; otherwise the draft is the stored employee of that member id, or a new ACTIVE one, with the row's columns written over it as `RowApplied` states; it is new exactly when no stored employee has the member id, and a stored one keeps its id, status and inactive date |
| EmployeeUpload.RowDraftRefuses | backend/src/main/java/com/fci/automation/controller/EmployeeController.java:117-155 | a row whose UAN, IP or bank account is held by another member id fails |
| EmployeeUpload.DraftedPrefix | backend/src/main/java/com/fci/automation/controller/EmployeeController.java:97-181 | the drafts so far are kept in front |
| EmployeeUpload.DraftedRowOk | backend/src/main/java/com/fci/automation/controller/EmployeeController.java:97-181 | an upload whose rows all drafted had no failing row |
| EmployeeUpload.DraftedRowFails | backend/src/main/java/com/fci/automation/controller/EmployeeController.java:97-181 | one failing row fails the whole drafting |
| EmployeeUpload.DataRowFails | backend/src/main/java/com/fci/automation/controller/EmployeeController.java:97-181 | a failing data row below the header fails the drafting |
| EmployeeUpload.DataRowKept | backend/src/main/java/com/fci/automation/controller/EmployeeController.java:97-181 | a data row of a successful drafting succeeded, and its draft is kept |
| EmployeeUpload.DraftedHas | backend/src/main/java/com/fci/automation/controller/EmployeeController.java:180 | the draft of each row is in the list |
| EmployeeUpload.DraftedFrom | backend/src/main/java/com/fci/automation/controller/EmployeeController.java:97-181 | every draft in the list is the draft of some row |
| EmployeeUpload.SavedFrom | backend/src/main/java/com/fci/automation/controller/EmployeeController.java:183 | `saveAll` answers one saved employee per draft, each the draft with its id and a stored draft unchanged; periods are unchanged, every stored employee keeps its id, and the entries are rejoined to the saved rows |
| EmployeeUpload.SavedFromTable | backend/src/main/java/com/fci/automation/controller/EmployeeController.java:183 | after `saveAll` the employee table is `EmployeesSaved` (each stored draft written over its row, each new one appended with the next id) and the next id has moved past the new ones |
| EmployeeUpload.EmployeesSavedLayout | backend/src/main/java/com/fci/automation/controller/EmployeeController.java:183 | saving drafts whose stored ids are known keeps every stored employee in its place with its id, leaves one no draft names unchanged, and appends the new employees in draft order with consecutive ids |
| EmployeeUpload.RowsUploadedLayout | backend/src/main/java/com/fci/automation/controller/EmployeeController.java:96-189 | after a successful upload the stored employees stay in place, those no draft names unchanged, and the new employees follow in row order |
| EmployeeUpload.UploadKeepsUnnamed | backend/src/main/java/com/fci/automation/controller/EmployeeController.java:62-190 | a successful upload leaves a stored employee whose member id no data row carries exactly as it was |
| EmployeeUpload.DraftSaved | backend/src/main/java/com/fci/automation/controller/EmployeeController.java:183 | a draft is saved as itself with an id: a new one gets the next id and is appended, a stored one keeps its id and is written over its row, the next id unchanged; periods are unchanged and the entries are rejoined to it |
| EmployeeUpload.Persistable | backend/src/main/java/com/fci/automation/entity/Employee.java:15-28 | employees the table accepts have names, and each is the one found by its member id and by each identifier it holds |
| EmployeeUpload.DistinctMemberIdsFound | backend/src/main/java/com/fci/automation/entity/Employee.java:15-16 | with distinct member ids, each employee is the one found by its own member id |
| EmployeeUpload.DistinctIdentifiersFound | backend/src/main/java/com/fci/automation/entity/Employee.java:21-28 | with distinct identifiers, each employee is the holder found by each identifier it has |
| EmployeeUpload.RowsUploaded | backend/src/main/java/com/fci/automation/controller/EmployeeController.java:96-189 | a failed upload changes nothing; a successful one leaves employees the table accepts, the periods as they were and every entry as it was but joined to its employee's saved row |
| EmployeeUpload.Uploaded | backend/src/main/java/com/fci/automation/controller/EmployeeController.java:62-190 | a failed upload changes nothing; a successful one leaves employees the table accepts, the periods as they were and every entry as it was but joined to its employee's saved row |
| EmployeeUpload.DraftsCategorized | backend/src/main/java/com/fci/automation/controller/EmployeeController.java:161-178 | every draft of an upload has a category |
| EmployeeUpload.DraftsCoverRows | backend/src/main/java/com/fci/automation/controller/EmployeeController.java:97-181 | every data row with a member id drafts successfully, and its draft is in the list |
| EmployeeUpload.SavedAnswers | backend/src/main/java/com/fci/automation/controller/EmployeeController.java:183 | each saved employee is a draft but for its id |
| EmployeeUpload.UploadAnswersEveryRow | backend/src/main/java/com/fci/automation/controller/EmployeeController.java:96-183 | a successful upload answers, for every data row with a member id, an employee with that row's columns written over the stored employee of the member id (keeping its id) or over a new one; every employee answered has a category |
| EmployeeUpload.RowAnswered | backend/src/main/java/com/fci/automation/controller/EmployeeController.java:96-183 | one data row with a member id is answered by the saved form of its draft |
| EmployeeUpload.UploadRefusesTakenIdentifier | backend/src/main/java/com/fci/automation/controller/EmployeeController.java:117-155 | a row with an identifier held by another member id fails the upload, and nothing is saved |
| EmployeeUpload.UploadKeepsStored | backend/src/main/java/com/fci/automation/controller/EmployeeController.java:107-183 | a successful upload removes no stored employee and changes no stored id |
| EmployeeUpload.SavedFromKeepsCurrent | backend/src/main/java/com/fci/automation/controller/EmployeeController.java:183 | saving the drafts keeps every entry joined to a stored employee row |
| EmployeeUpload.UploadKeepsEntriesCurrent | backend/src/main/java/com/fci/automation/controller/EmployeeController.java:62-190 | after any upload every entry sees the current row of its employee |
| EmployeeUpload.DraftSavedKeepsWellFormed | backend/src/main/java/com/fci/automation/controller/EmployeeController.java:183 | saving one draft whose id, if stored, is known keeps the repositories well formed and every stored employee's id |
| EmployeeUpload.SavedFromKeepsWellFormed | backend/src/main/java/com/fci/automation/controller/EmployeeController.java:183 | saving drafts whose stored ids are known keeps the repositories well formed |
| EmployeeUpload.DraftsKnowStoredIds | backend/src/main/java/com/fci/automation/controller/EmployeeController.java:97-181 | every draft that is not new carries the id of a stored employee |
| EmployeeUpload.UploadKeepsWellFormed | backend/src/main/java/com/fci/automation/controller/EmployeeController.java:62-190 | an upload, successful or not, keeps the repositories well formed: distinct ids, ids below the next id, one entry per employee and period, and entries seeing stored employee rows |
| EmployeeUpload.RowsUploadedKeepsWellFormed | backend/src/main/java/com/fci/automation/controller/EmployeeController.java:96-189 | the rows of an upload, saved or refused, leave the repositories well formed |
| EmployeeUpload.ReadHeaders | backend/src/main/java/com/fci/automation/controller/EmployeeController.java:76-82 | the header loop computes exactly `ColumnMap` and the found-header list |
| EmployeeUpload.SheetColumns | backend/src/main/java/com/fci/automation/controller/EmployeeController.java:70-95 | a missing header row fails with "Excel file is empty or missing headers."; otherwise the member-id column is that of a header containing a member-id key, and the upload fails listing the headers found exactly when no header contains one; the key order (`hashOrder`) is any listing of the header keys |
| EmployeeUpload.DraftRow | backend/src/main/java/com/fci/automation/controller/EmployeeController.java:98-180 | the body of the row loop computes exactly `RowDraft` |
| EmployeeUpload.DraftedNext | backend/src/main/java/com/fci/automation/controller/EmployeeController.java:97-181 | one more row taken off the rows still to draft |
| EmployeeUpload.DraftRows | backend/src/main/java/com/fci/automation/controller/EmployeeController.java:97-181 | the row loop computes exactly the drafting of rows 1 to the last |
| EmployeeUpload.SavedNext | backend/src/main/java/com/fci/automation/controller/EmployeeController.java:183 | one more draft taken off the drafts still to save |
| EmployeeUpload.SaveDraft | backend/src/main/java/com/fci/automation/controller/EmployeeController.java:183 | one draft is saved exactly as `DraftSaved` says |
| EmployeeUpload.SaveDrafts | backend/src/main/java/com/fci/automation/controller/EmployeeController.java:183 | `saveAll` saves exactly as `SavedFrom` says |
| EmployeeUpload.UploadEmployees | backend/src/main/java/com/fci/automation/controller/EmployeeController.java:62-190 | the answer and the repositories afterwards are exactly `Uploaded` |
| EmployeeUpload.UploadRows | backend/src/main/java/com/fci/automation/controller/EmployeeController.java:96-189 | the answer and the repositories afterwards are exactly `RowsUploaded` |
| PayrollImport.TwoRowsTally | backend/src/main/java/com/fci/automation/service/PayrollImportService.java:88-96 | a counted row followed by a failing row tallies one success, one failure and that row's error line |
| PayrollImport.OneFailureSummary | backend/src/main/java/com/fci/automation/service/PayrollImportService.java:104-107 | one success and one failure are summarised as "Import Completed. Success: 1, Failed: 1" followed by the error lines |
| PayrollImport.KnownRowCounts | backend/src/main/java/com/fci/automation/service/PayrollImportService.java:88-93 | a row whose member id is known counts as a success and leaves the employees alone |
| PayrollImport.UnknownRowFails | backend/src/main/java/com/fci/automation/service/PayrollImportService.java:119-122 | a row whose member id, with no trimmable unit at either end, is unknown fails with "Employee not found with Member ID: " and that id, and changes nothing |
| PayrollImport.ThirdRowLine | backend/src/main/java/com/fci/automation/service/PayrollImportService.java:95 | the error line of the third sheet row is numbered "Row 3" |
| Store.Repositories.constructor | backend/src/main/java/com/fci/automation/repository/PayrollEntryRepository.java:9-11 | the repositories start with the given contents |
| EsiReturn.LastDayOfNovember | backend/src/main/java/com/fci/automation/service/ReportService.java:283-288 | a last working day of 30 November 2025 is written "30/11/2025" |

## Left out

- PDF and XLS rendering (fonts, widths, page breaks, templates, workbook writing) and `generateTemplate` are not modelled. The reports are modelled as their cells, row order and totals.
- The Excel library is not modelled: workbook parsing, and cells as `double`. A numeric cell is an exact number of paise. `Double.parseDouble`, `BigDecimal` text parsing and the `(int)` of a parsed double are the `NumberSyntax` parameter of the wage import. The printing of a `double` (`"123456.0"`) is the `doubleText` parameter of the UTR import.
- The regular-expression scans of the XML and HTML readings are the `TextTables.Scanners` parameter. The model starts from the matched rows and cells.
- Date parsing is given as parameters: the three `LocalDate.parse` attempts of `createPeriod` and the dd/MM/yyyy parse of the billing module. So is UUID parsing of a path id, and the current date used by "latest".
- Identifiers are drawn from a counter (`Repositories.nextId`) in place of random UUIDs.
- The repositories are sequences in listing order. Transactions are modelled only where the source depends on them: the employee upload's single `saveAll` and the billing save's rollback.
- The database's unique constraints are modelled only at the employee upload's `saveAll`, as the `Persistable` check, with the database's error message as the `dbMessage` parameter. Other saves do not check them.
- Object identity in the employee upload is not modelled. Each row is drafted against the employees stored before the upload, as the source's repository lookups see them. Two rows for the same stored member are saved in turn, so the later row wins. In the source both rows edit the one managed `Employee` that `findByMemberId` answers within the request (`EmployeeController.java:107-178`): a UAN, IP number, bank account or category that the later row leaves blank keeps the earlier row's value there, where the model keeps the stored value, and `saveAll` answers that one object twice. Two rows for the same new member id become two new employees, which the member-id constraint then refuses.
- The order of a `HashMap`'s key set is the `hashOrder` parameter of the employee upload, constrained only to list exactly the keys (`ListsKeys`). Which header is taken when two contain a member-id key depends on that order and is not fixed by the model.
- `createEmployee`, `updateEmployee` and `deleteEmployee` of `EmployeeController` are not modelled. Each is one repository call.
- `getPeriod`, `getAllPeriods` and `getSavedIssueSlips` are not modelled. Each is a plain repository read.
- `GoogleAIStudioService.extractWorkSlip` is not modelled: the language model's answer for each file is an input of `Billing.ExtractIssueData`.
- The confidence score of the billing review row is a `Double` (0.95 or 0.0) in the source; the model keeps it as a whole percentage (95 or 0), with no floating point.
- Case mapping (`toLowerCase`, `toUpperCase`, `equalsIgnoreCase`) is modelled for ASCII letters only.
- Text.ParseInt: accepts ASCII digits only, because `char` classification is modelled for ASCII only. `Integer.parseInt` also accepts the other Unicode decimal digits that `Character.digit` knows.
- MemberOrder.LexCompare: compares characters as Unicode code points, because a `char` here is a scalar value. Java's `compareTo` compares UTF-16 code units, and the two orders differ when a supplementary character (above U+FFFF) meets a character between U+E000 and U+FFFF.
- Logging, the debug `println` of the wage import and `saveDebugFiles` are not modelled. They have no effect on results.
- The `catch` in the data loop of `processUtrRows` is not modelled. Short rows are skipped before the `try`, so only a database failure could throw there, and database failures are not modelled.
- Authentication infrastructure is not modelled: the JWT filter, login, the server session service and the realm routing. The session id is a parameter of `AuthInterceptor.PreHandle`.
- The Angular templates, HTTP calls and dialogs of the casual-attendance page are not modelled: `save`, `lock`, `unlock` and `getDayName`. The page's state is a class with the period, the day columns and the entries.
- AttendanceRegister.GenerateRegister: requires every entry to have an employee, and does not model the null-pointer exception the source would throw otherwise. The entry's employee join column is not nullable (`PayrollEntry.java:19-21`), so no stored entry lacks one.
- EsiReturn.GenerateEsiSheetById: takes the template sheet as a parameter. Loading `ESI.xls` from the class path and its "ESI.xls template not found in classpath" failure (`ReportService.java:272-275`) are not modelled.
- EpfReturn.GenerateEpfTxt: requires every entry to have an employee, and does not model the null-pointer exception the source would throw otherwise. The entry's employee join column is not nullable (`PayrollEntry.java:19-21`), so no stored entry lacks one.
- EsiReturn.GenerateEsiSheet: requires every entry to have an employee, and does not model the null-pointer exception the source would throw otherwise. The entry's employee join column is not nullable (`PayrollEntry.java:19-21`), so no stored entry lacks one.
- BankTransfer.GenerateBulkTxt: requires every entry to have an employee, and does not model the null-pointer exception the source would throw otherwise. The entry's employee join column is not nullable (`PayrollEntry.java:19-21`), so no stored entry lacks one.
- PaymentDetails.GeneratePaymentDetails: requires every entry to have an employee, and does not model the null-pointer exception the source would throw otherwise. The entry's employee join column is not nullable (`PayrollEntry.java:19-21`), so no stored entry lacks one.
- RemittanceReport.GenerateReport: requires every entry to have an employee, and does not model the null-pointer exception the source would throw otherwise. The entry's employee join column is not nullable (`PayrollEntry.java:19-21`), so no stored entry lacks one.
- WageSummary.GenerateSummary: requires every entry to have an employee, and does not model the null-pointer exception the source would throw otherwise. The entry's employee join column is not nullable (`PayrollEntry.java:19-21`), so no stored entry lacks one.
- `MemberOrder.SortBySorted` and the lemmas built on it state sortedness only for ids that are all numeric or all non-numeric, because the comparator is not transitive on mixed ids.
- MemberOrder.SortBy: models only the path Java's TimSort takes for fewer than 32 elements, which it follows exactly, for any ids. With 32 or more elements TimSort merges runs and may throw `IllegalArgumentException` when the comparator is not a total order, as on mixed ids; neither is modelled, and the model keeps using binary insertion there. Under a total order (names, or ids that are all numeric or all non-numeric) both paths give the same stable sorted order, and that is all the sortedness lemmas claim.
- PeriodEntries.SortedByMemberId: on 32 or more mixed ids its order is binary insertion, not TimSort's merge order or its exception (see `MemberOrder.SortBy`).
- RemittanceReport.BuildCategory: on 32 or more mixed ids in one category its row order is binary insertion, not TimSort's merge order or its exception (see `MemberOrder.SortBy`).
- PayrollRecords.Fill: on 32 or more mixed ids the order of the entries answered is binary insertion, not TimSort's merge order or its exception (see `MemberOrder.SortBy`).
- PayrollRecords.FilledAnswersThePeriod: states sortedness only for consistently comparable ids; on 32 or more mixed ids the order is binary insertion (see `MemberOrder.SortBy`).
- PayrollRecords.GetEntries: on 32 or more mixed ids the order of the entries answered is binary insertion, not TimSort's merge order or its exception (see `MemberOrder.SortBy`).
- PayrollRecords.LoadAnswersThePeriod: states sortedness only for consistently comparable ids; on 32 or more mixed ids the order is binary insertion (see `MemberOrder.SortBy`).
- EmployeeUpload.EmployeesListed: on 32 or more mixed member ids the listing order is binary insertion, not TimSort's merge order or its exception (see `MemberOrder.SortBy`).
- BankTransfer.GenerateBulkTxt, PaymentDetails.GeneratePaymentDetails and WageSummary.GenerateSummary: sort through `PeriodEntries.SortedByMemberId` and share its gap on 32 or more mixed ids.
- PayrollRecords.BulkUpdated: answers each edited entry as it stood right after its own edit. The source answers the managed entities themselves, so an entry whose id is sent twice appears twice in its final state. `BulkAnswersFinal` proves the two agree whenever no id is sent twice; a repeated id is not modelled.
- PayrollRecords.BulkUpdateEntries: shares the repeated-id gap of `BulkUpdated`. An input without an id (`findById(null)` throws) cannot be expressed, because the model's ids are natural numbers; the exception is not modelled.
- PayrollRecords.Edited: JSON reading of the body is not modelled. `None` stands for a field sent as an explicit null; a field left out of the body arrives as the entity's initial value (`PayrollEntry.java:27-30`), an empty set of active days or zero, which the caller passes as `Some`.
- Entities.CalendarDate: dates are limited to years 1 to 9999; `LocalDate` also holds years outside that range, and dates there are not modelled.
