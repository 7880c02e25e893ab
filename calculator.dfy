/** The statutory payroll calculation applied to one payroll entry whenever it is created or edited:
    the wage basis, the EPF and ESI shares, the bonus and the net payable. */
module PayrollCalculator {
  import opened Wrappers
  import opened Money
  import opened Entities

  /** 12 %, 0.75 %, 3.25 % and 8.33 %, as hundredths of a percent. */
  const EPF_RATE: int := 1200
  const ESI_MEMBER_RATE: int := 75
  const ESI_CONTRACTOR_RATE: int := 325
  const BONUS_RATE: int := 833
  /** Above 15000 rupees of wages the contractor's EPF share is the flat 1800 rupees. */
  const EPF_CAP_LIMIT: int := 1_500_000
  const EPF_MAX_SHARE: int := 180_000
  /** The standard daily wage of casual labour: 541 rupees. */
  const CASUAL_DAILY_WAGE: int := 54_100

  function EpfMember(wages: int): int { ApplyRate(wages, EPF_RATE) }

  function EpfContractor(wages: int): int {
    if wages > EPF_CAP_LIMIT then EPF_MAX_SHARE else ApplyRate(wages, EPF_RATE)
  }

  function EsiMember(wages: int): int { ApplyRate(wages, ESI_MEMBER_RATE) }

  function EsiContractor(wages: int): int { ApplyRate(wages, ESI_CONTRACTOR_RATE) }

  function Bonus(wages: int): int { ApplyRate(wages, BONUS_RATE) }

  /** The standard wage of a casual labourer: 541 rupees per day worked. */
  function StandardWage(days: int): int { days * CASUAL_DAILY_WAGE }

  /** The wage every contribution is computed from: the standard wage for casual labour
      (a null day count counting as 0), otherwise the wage entered (null counting as 0).
      The calculator and the EPF and ESI returns share this basis. */
  function WageBasis(e: Entry): int {
    if IsCasual(e) then StandardWage(e.daysWorked.GetOr(0)) else e.wagesEarned.GetOr(0)
  }

  /** The entry after `PayrollCalculatorService.calculate`. Only the wage (defaulted for casual
      labour when null) and the six derived amounts change. */
  function Calculated(e: Entry): (r: Entry)
    ensures r.(wagesEarned := e.wagesEarned, epfMemberShare := e.epfMemberShare,
               epfContractorShare := e.epfContractorShare, esiMemberShare := e.esiMemberShare,
               esiContractorShare := e.esiContractorShare, bonusShare := e.bonusShare,
               netPayable := e.netPayable) == e
    ensures r.wagesEarned == if IsCasual(e) && e.wagesEarned.None? then Some(WageBasis(e)) else e.wagesEarned
  {
    var basis := WageBasis(e);
    var wages := if IsCasual(e) && e.wagesEarned.None? then Some(basis) else e.wagesEarned;
    var display := wages.GetOr(0);
    var epfMember := EpfMember(basis);
    var esiMember := EsiMember(basis);
    var advance := e.advanceDeduction.GetOr(0);
    e.(wagesEarned := wages,
       epfMemberShare := epfMember,
       epfContractorShare := EpfContractor(basis),
       esiMemberShare := esiMember,
       esiContractorShare := EsiContractor(basis),
       bonusShare := Bonus(basis),
       netPayable := if IsCasual(e) then display else display - epfMember - esiMember - advance)
  }

  // ---------------------------------------------------------------------------
  // Properties of the calculation
  // ---------------------------------------------------------------------------

  /** The contractor's EPF share never exceeds the member's, is the member's up to the cap,
      and is the flat 1800 rupees above it, which is never more than the member's 12 %. */
  lemma EpfContractorCapped(wages: int)
    requires wages >= 0
    ensures wages <= EPF_CAP_LIMIT ==> EpfContractor(wages) == EpfMember(wages) <= EPF_MAX_SHARE
    ensures wages > EPF_CAP_LIMIT ==> EpfContractor(wages) == EPF_MAX_SHARE < EpfMember(wages) + 100
    ensures EpfContractor(wages) <= EpfMember(wages)
    ensures 0 <= EpfContractor(wages) <= EPF_MAX_SHARE
  {
    var n := wages * EPF_RATE;
    var q := RoundHalfUp(n, RATE_SCALE * PAISE_PER_RUPEE);
    assert EpfMember(wages) == q * 100;
    if wages <= EPF_CAP_LIMIT {
      assert n <= 1800 * 1_000_000;
      assert q <= 1800;
    } else {
      assert n > 1800 * 1_000_000;
      assert q >= 1800;
    }
  }

  /** For casual labour every contribution is taken from the standard wage, whatever wage was
      entered, and the net payable is the wage shown (entered, or defaulted to the standard). */
  lemma CasualContributions(e: Entry)
    requires IsCasual(e)
    ensures var r := Calculated(e);
      var basis := StandardWage(e.daysWorked.GetOr(0));
      && r.epfMemberShare == EpfMember(basis) && r.epfContractorShare == EpfContractor(basis)
      && r.esiMemberShare == EsiMember(basis) && r.esiContractorShare == EsiContractor(basis)
      && r.bonusShare == Bonus(basis)
      && r.wagesEarned == Some(e.wagesEarned.GetOr(basis))
      && r.netPayable == e.wagesEarned.GetOr(basis)
  {
  }

  /** For head-load workers (and entries with no employee or no category) the contributions are
      taken from the wage entered and the net payable is that wage less the member's EPF and ESI
      shares and the advance; it may be negative. */
  lemma HeadLoadNetPay(e: Entry)
    requires !IsCasual(e)
    ensures var r := Calculated(e);
      var wage := e.wagesEarned.GetOr(0);
      && r.wagesEarned == e.wagesEarned
      && r.epfMemberShare == EpfMember(wage) && r.epfContractorShare == EpfContractor(wage)
      && r.esiMemberShare == EsiMember(wage) && r.esiContractorShare == EsiContractor(wage)
      && r.bonusShare == Bonus(wage)
      && r.netPayable == wage - r.epfMemberShare - r.esiMemberShare - e.advanceDeduction.GetOr(0)
  {
  }

  /** Recalculating an already calculated entry changes nothing. */
  lemma CalculateIdempotent(e: Entry)
    ensures Calculated(Calculated(e)) == Calculated(e)
  {
    var r := Calculated(e);
    assert CategoryOf(r) == CategoryOf(e);
    assert WageBasis(r) == WageBasis(e);
  }

  /** Two casual entries with the same days worked get the same contributions, whatever wages
      were entered for them. */
  lemma CasualWageInputIgnoredForContributions(e: Entry, wage: Option<int>)
    requires IsCasual(e)
    ensures var a, b := Calculated(e), Calculated(e.(wagesEarned := wage));
      a.epfMemberShare == b.epfMemberShare && a.epfContractorShare == b.epfContractorShare
      && a.esiMemberShare == b.esiMemberShare && a.esiContractorShare == b.esiContractorShare
      && a.bonusShare == b.bonusShare
  {
    assert IsCasual(e.(wagesEarned := wage));
  }

  /** A fresh casual entry already holds a zero wage, so the standard wage is not filled in:
      10 days give contributions on 5410 rupees but a wage and net payable of 0. */
  lemma FreshCasualEntryKeepsZeroWage(employee: Employee)
    requires employee.category == Some(CL)
    ensures var r := Calculated(NewEntry(0, 0, employee).(daysWorked := Some(10)));
      && r.wagesEarned == Some(0) && r.netPayable == 0
      && r.epfMemberShare == Rupees(649) && r.esiMemberShare == Rupees(41)
      && r.epfContractorShare == Rupees(649) && r.esiContractorShare == Rupees(176)
  {
    var e := NewEntry(0, 0, employee).(daysWorked := Some(10));
    assert WageBasis(e) == 541_000;
  }

  /** The worked figures: 16000 rupees for a head-load worker, 11673 rupees with no employee,
      and a casual labourer with 10 days, an entered wage of 9999 and an advance of 1000. */
  lemma WorkedExamples(hl: Employee, cl: Employee)
    requires hl.category == Some(HL) && cl.category == Some(CL)
    ensures var r := Calculated(NewEntry(0, 0, hl).(wagesEarned := Some(Rupees(16000))));
      && r.epfMemberShare == Rupees(1920) && r.epfContractorShare == Rupees(1800)
      && r.esiContractorShare == Rupees(520) && r.esiMemberShare == Rupees(120)
      && r.netPayable == Rupees(13960)
    ensures var r := Calculated(NewEntry(0, 0, hl).(employee := None, wagesEarned := Some(Rupees(11673))));
      && r.epfMemberShare == Rupees(1401) && r.esiMemberShare == Rupees(88)
      && r.esiContractorShare == Rupees(379) && r.netPayable == Rupees(10184)
    ensures var r := Calculated(NewEntry(0, 0, cl).(daysWorked := Some(10), wagesEarned := Some(Rupees(9999)),
                                                      advanceDeduction := Some(Rupees(1000))));
      && r.wagesEarned == Some(Rupees(9999)) && r.epfMemberShare == Rupees(649)
      && r.netPayable == Rupees(9999)
  {
  }

  // ---------------------------------------------------------------------------
  // The entry object and the in-place calculation
  // ---------------------------------------------------------------------------

  /** A `PayrollEntry` object: the same fields as `Entry`, updated in place by `Calculate`. */
  class PayrollEntry {
    var id: nat
    var periodId: nat
    var employee: Option<Employee>
    var activeDays: set<int>
    var daysWorked: Option<int>
    var wagesEarned: Option<int>
    var advanceDeduction: Option<int>
    var epfMemberShare: int
    var epfContractorShare: int
    var esiMemberShare: int
    var esiContractorShare: int
    var bonusShare: int
    var netPayable: int
    var utrNumber: Option<string>

    function Value(): Entry
      reads this
    {
      Entry(id, periodId, employee, activeDays, daysWorked, wagesEarned, advanceDeduction,
            epfMemberShare, epfContractorShare, esiMemberShare, esiContractorShare, bonusShare,
            netPayable, utrNumber)
    }

    constructor (e: Entry)
      ensures Value() == e
    {
      id, periodId, employee, activeDays := e.id, e.periodId, e.employee, e.activeDays;
      daysWorked, wagesEarned, advanceDeduction := e.daysWorked, e.wagesEarned, e.advanceDeduction;
      epfMemberShare, epfContractorShare := e.epfMemberShare, e.epfContractorShare;
      esiMemberShare, esiContractorShare := e.esiMemberShare, e.esiContractorShare;
      bonusShare, netPayable, utrNumber := e.bonusShare, e.netPayable, e.utrNumber;
    }
  }

  /** `calculate(entry)`: derives the wage basis, writes the shares one by one, then the net pay. */
  method Calculate(entry: PayrollEntry)
    modifies entry
    ensures entry.Value() == Calculated(old(entry.Value()))
  {
    ghost var e := entry.Value();
    var casual := entry.employee.Some? && entry.employee.value.category == Some(CL);
    var taxBaseWages, displayWages := FillWage(entry, casual);
    var epfMember, esiMember := WriteShares(entry, taxBaseWages);
    var deduction := entry.advanceDeduction.GetOr(0);
    var totalDeduction := epfMember + esiMember + deduction;
    if casual {
      entry.netPayable := displayWages;
    } else {
      entry.netPayable := displayWages - totalDeduction;
    }
  }

  /** The middle of `calculate`: the five contributions written one by one from the wage basis. */
  method WriteShares(entry: PayrollEntry, taxBaseWages: int) returns (epfMember: int, esiMember: int)
    modifies entry
    ensures entry.Value() == old(entry.Value()).(epfMemberShare := EpfMember(taxBaseWages),
      epfContractorShare := EpfContractor(taxBaseWages), esiMemberShare := EsiMember(taxBaseWages),
      esiContractorShare := EsiContractor(taxBaseWages), bonusShare := Bonus(taxBaseWages))
    ensures epfMember == EpfMember(taxBaseWages) && esiMember == EsiMember(taxBaseWages)
  {
    epfMember := EpfMember(taxBaseWages);
    var epfContractor := EpfContractor(taxBaseWages);
    entry.epfMemberShare := epfMember;
    entry.epfContractorShare := epfContractor;
    esiMember := EsiMember(taxBaseWages);
    var esiContractor := EsiContractor(taxBaseWages);
    entry.esiMemberShare := esiMember;
    entry.esiContractorShare := esiContractor;
    entry.bonusShare := Bonus(taxBaseWages);
  }

  /** The first half of `calculate`: the wage basis, and for casual labour with no wage entered
      the standard wage written into the entry. */
  method FillWage(entry: PayrollEntry, casual: bool) returns (taxBaseWages: int, displayWages: int)
    requires casual == IsCasual(entry.Value())
    modifies entry
    ensures entry.Value() == old(entry.Value()).(wagesEarned := Calculated(old(entry.Value())).wagesEarned)
    ensures taxBaseWages == WageBasis(old(entry.Value())) && displayWages == entry.wagesEarned.GetOr(0)
  {
    var inputWages := entry.wagesEarned;
    if casual {
      var days := entry.daysWorked.GetOr(0);
      var standardWages := days * CASUAL_DAILY_WAGE;
      taxBaseWages := standardWages;
      if inputWages.None? {
        inputWages := Some(standardWages);
        entry.wagesEarned := inputWages;
      }
      displayWages := inputWages.value;
    } else {
      displayWages := inputWages.GetOr(0);
      taxBaseWages := displayWages;
    }
  }
}
