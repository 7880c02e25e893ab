/** The text conventions the PDF reports share: how a cell prints a missing value, how a month is
    named and how a `BigDecimal` prints. */
module ReportText {
  import opened Wrappers
  import Text
  import Entities

  /** `addCell`: a null text, or the text "null" that `String.valueOf` makes of a null object,
      prints as an empty cell; anything else prints as it is. */
  function CellText(text: Option<string>): (r: string)
    ensures text.None? ==> r == ""
    ensures text.Some? ==> r == (if text.value == "null" then "" else text.value)
  {
    if text.None? || text.value == "null" then "" else text.value
  }

  /** `Month.of(month).name()`, already upper case; `Month.of` rejects anything outside 1..12. */
  function MonthName(month: int): (r: string)
    requires 1 <= month <= 12
    ensures |r| >= 3 && Text.ToUpper(r) == r
  {
    var names := ["JANUARY", "FEBRUARY", "MARCH", "APRIL", "MAY", "JUNE", "JULY", "AUGUST",
                  "SEPTEMBER", "OCTOBER", "NOVEMBER", "DECEMBER"];
    var r := names[month - 1];
    UpperIsFixed(r);
    r
  }

  lemma UpperIsFixed(s: string)
    requires forall k :: 0 <= k < |s| ==> 'A' <= s[k] <= 'Z'
    ensures Text.ToUpper(s) == s
  {
    var u := Text.ToUpper(s);
    assert forall k :: 0 <= k < |s| ==> u[k] == s[k];
  }

  /** `BigDecimal.toString` of an amount of scale 2 (how every stored money value prints): an
      optional minus sign, the whole rupees, a point and exactly two digits of paise. */
  function AmountText(paise: int): (r: string)
    ensures |r| >= 4 && r[|r| - 3] == '.'
    ensures Text.AllDigits(r[|r| - 2..]) && Text.DigitsValue(r[|r| - 2..]) == (if paise < 0 then -paise else paise) % 100
    ensures (r[0] == '-') <==> paise < 0
  {
    var magnitude: nat := if paise < 0 then -paise else paise;
    assert Text.Pow10(2) == 100;
    var fraction := Entities.PadDigits(magnitude % 100, 2);
    var whole := Text.NatToString(magnitude / 100);
    assert whole[0] != '-' by { assert Text.IsDigit(whole[0]); }
    var r := (if paise < 0 then "-" else "") + whole + "." + fraction;
    assert r[|r| - 2..] == fraction;
    r
  }

  /** A whole number of rupees prints as the rupees followed by ".00". */
  lemma AmountTextOfRupees(n: int)
    ensures AmountText(n * 100) == Text.IntToString(n) + ".00"
  {
    var m: nat := if n < 0 then -n else n;
    var sign := if n < 0 then "-" else "";
    assert (n * 100 < 0) == (n < 0);
    AmountTextParts(n * 100, m, 0);
    assert Text.Pow10(2) == 100;
    var z := Entities.PadDigits(0, 2);
    assert "00"[..1] == "0";
    Text.DigitsDetermine(z, "00");
    var x := sign + Text.NatToString(m);
    assert AmountText(n * 100) == x + "." + "00";
    Text.ConcatAssociative(x, ".", "00");
    assert "." + "00" == ".00";
    assert Text.IntToString(n) == x;
  }

  /** The printed parts of an amount of `whole` rupees and `cents` paise. */
  lemma AmountTextParts(paise: int, whole: nat, cents: nat)
    requires cents < 100 && (if paise < 0 then -paise else paise) == whole * 100 + cents
    ensures Text.Pow10(2) == 100
    ensures AmountText(paise) == (if paise < 0 then "-" else "") + Text.NatToString(whole) + "."
      + Entities.PadDigits(cents, 2)
  {
    var magnitude: nat := if paise < 0 then -paise else paise;
    DivMod100(magnitude, whole, cents);
    assert Text.Pow10(2) == 100;
  }

  lemma DivMod100(x: nat, whole: nat, cents: nat)
    requires cents < 100 && x == whole * 100 + cents
    ensures x / 100 == whole && x % 100 == cents
  {
  }
}
