/** Exact money. Every amount is a whole number of paise (hundredths of a rupee), the scale of the
    payroll tables' money columns; every rate is a whole number of hundredths of a percent. */
module Money {

  const PAISE_PER_RUPEE: int := 100
  /** A rate of `r` means `r / 10000`. */
  const RATE_SCALE: int := 10000

  /** `n` whole rupees, in paise. */
  function Rupees(n: int): int { n * PAISE_PER_RUPEE }

  /** `r` is `num / den` rounded to an integer with halves going away from zero
      (`RoundingMode.HALF_UP`). */
  predicate RoundsHalfUp(r: int, num: int, den: int)
    requires den > 0
  {
    if num >= 0 then 2 * num - den < 2 * r * den <= 2 * num + den
    else 2 * num - den <= 2 * r * den < 2 * num + den
  }

  lemma HalfUpOfNonNegative(num: nat, den: int)
    requires den > 0
    ensures RoundsHalfUp((2 * num + den) / (2 * den), num, den)
    ensures (2 * num + den) / (2 * den) >= 0
  {
    var q := (2 * num + den) / (2 * den);
    var m := (2 * num + den) % (2 * den);
    assert 2 * num + den == q * (2 * den) + m && 0 <= m < 2 * den;
    assert 2 * q * den == q * (2 * den);
  }

  /** `BigDecimal.setScale(0, HALF_UP)` of `num / den`. */
  function RoundHalfUp(num: int, den: int): (r: int)
    requires den > 0
    ensures RoundsHalfUp(r, num, den)
    ensures num >= 0 ==> r >= 0
    ensures num <= 0 ==> r <= 0
  {
    if num >= 0 then
      HalfUpOfNonNegative(num, den);
      (2 * num + den) / (2 * den)
    else
      HalfUpOfNonNegative(-num, den);
      -((2 * -num + den) / (2 * den))
  }

  /** The half-up rounding of a quotient is unique: the contract of `RoundHalfUp` determines it. */
  lemma RoundHalfUpUnique(r: int, num: int, den: int)
    requires den > 0 && RoundsHalfUp(r, num, den)
    ensures r == RoundHalfUp(num, den)
  {
    var q := RoundHalfUp(num, den);
    if r != q {
      var lo, hi := if r < q then r else q, if r < q then q else r;
      MultiplyApart(lo, hi, den);
    }
  }

  lemma MultiplyApart(lo: int, hi: int, den: int)
    requires lo < hi && den > 0
    ensures lo * den + den <= hi * den
  {
    var e: nat := hi - lo - 1;
    assert e * den >= 0;
    assert hi * den - lo * den == (hi - lo) * den;
    assert (hi - lo) * den == e * den + den;
  }

  /** `amount × rate / 10000`, rounded half-up to whole rupees and given back in paise: the
      payroll code's `amount.multiply(RATE).setScale(0, HALF_UP)`. */
  function ApplyRate(amount: int, rate: int): (r: int)
    ensures r % PAISE_PER_RUPEE == 0
    ensures RoundsHalfUp(r / PAISE_PER_RUPEE, amount * rate, RATE_SCALE * PAISE_PER_RUPEE)
    ensures amount >= 0 && rate >= 0 ==> r >= 0
  {
    Rupees(RoundHalfUp(amount * rate, RATE_SCALE * PAISE_PER_RUPEE))
  }

  /** An amount rounded half-up to whole rupees (`setScale(0, HALF_UP)`), as a count of rupees. */
  function RoundToRupees(amount: int): (r: int)
    ensures RoundsHalfUp(r, amount, PAISE_PER_RUPEE)
  {
    RoundHalfUp(amount, PAISE_PER_RUPEE)
  }

  /** `BigDecimal.longValue()`: the whole rupees of an amount, the fraction discarded toward zero. */
  function TruncateToRupees(amount: int): (r: int)
    ensures amount >= 0 ==> 0 <= r * PAISE_PER_RUPEE <= amount < (r + 1) * PAISE_PER_RUPEE
    ensures amount < 0 ==> (r - 1) * PAISE_PER_RUPEE < amount <= r * PAISE_PER_RUPEE <= 0
  {
    if amount >= 0 then amount / PAISE_PER_RUPEE else -((-amount) / PAISE_PER_RUPEE)
  }

  lemma TruncateWholeRupees(n: int)
    ensures TruncateToRupees(Rupees(n)) == n
  {
  }

  function Sum(amounts: seq<int>): int {
    if amounts == [] then 0 else Sum(amounts[..|amounts| - 1]) + amounts[|amounts| - 1]
  }

  lemma {:induction false} SumAppend(a: seq<int>, b: seq<int>)
    ensures Sum(a + b) == Sum(a) + Sum(b)
    decreases |b|
  {
    if b != [] {
      assert (a + b)[..|a + b| - 1] == a + b[..|b| - 1];
      SumAppend(a, b[..|b| - 1]);
    } else {
      assert a + b == a;
    }
  }
}
