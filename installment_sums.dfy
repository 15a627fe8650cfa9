/** The sum conversions of the installment template form
    (src/components/installments/ProjectInstallments.tsx): a saved amount
    of cents shown as euros with two decimals, and the text of a sum field
    turned back into the value the API receives. */
module InstallmentSums {

  import opened Wrappers
  import opened Text
  import opened BigDecimal

  /** What `getFormattedSum` returns: a number of cents, or text (the
      big.js rendering of a percentage, or the field text it could not
      read). */
  datatype SumValue = Cents(cents: int) | SumText(text: string)

  /** `(amount / 100).toFixed(2)` for a whole number of cents: the euros,
      a point and exactly two digits of cents, with a minus sign in front
      of a negative amount. */
  function CentsText(n: int): (s: string)
    ensures |s| >= 4 && s[|s| - 3] == '.'
    ensures (n < 0) <==> s[0] == '-'
  {
    var m: nat := if n < 0 then -n else n;
    (if n < 0 then "-" else "") + NatToString(m / 100) + "." + [DigitChar(m / 10 % 10), DigitChar(m % 10)]
  }

  /** `getFormattedSum(sum, asPercentage)`: commas become points; text
      that big.js reads becomes the rounded number of cents, or for a
      percentage the big.js decimal text; any other text is returned as
      it was, commas included. */
  function FormattedSum(sum: string, asPercentage: bool): (v: SumValue)
    ensures Parse(ReplaceChar(sum, ',', '.')).None? ==> v == SumText(sum)
    ensures asPercentage ==> v.SumText?
    ensures !asPercentage && Parse(ReplaceChar(sum, ',', '.')).Some? ==> v.Cents?
  {
    match Parse(ReplaceChar(sum, ',', '.'))
    case None => SumText(sum)
    case Some(x) => if asPercentage then SumText(ToString(x)) else Cents(Hundredths(x))
  }

  predicate NoComma(s: string) {
    forall i :: 0 <= i < |s| ==> s[i] != ','
  }

  /** Replacing commas changes nothing in text that has none. */
  lemma ReplaceWithoutComma(s: string)
    requires NoComma(s)
    ensures ReplaceChar(s, ',', '.') == s
  {
  }

  /** A comma may stand for the decimal point: the sum reads the same once
      its commas are points, wherever the text is a number. */
  lemma CommaIsDecimalPoint(sum: string, asPercentage: bool)
    requires Parse(ReplaceChar(sum, ',', '.')).Some?
    ensures FormattedSum(ReplaceChar(sum, ',', '.'), asPercentage) == FormattedSum(sum, asPercentage)
  {
    var r := ReplaceChar(sum, ',', '.');
    ReplaceWithoutComma(r);
  }

  // ---------------------------------------------------------------------
  // Euros: what the form shows reads back as the saved amount

  /** The euros shown for a saved amount read back as exactly that amount:
      loading and saving a template keeps every amount. */
  lemma EuroRoundTrip(n: int)
    ensures FormattedSum(CentsText(n), false) == Cents(n)
  {
    var m: nat := if n < 0 then -n else n;
    assert Shifted(m, []) == m by {
      assert Pow10(0) == 1 && DigitsValue([]) == 0;
    }
    assert RoundShifted(m, 0) == m;
    assert CentsText(n) + [] == CentsText(n);
    EuroWithDigits(n, [], CentsText(n));
  }

  /** The euros shown for `n` cents followed by further digits read as
      those digits' number of thousandths, tens of thousandths, ...,
      rounded to cents. */
  lemma EuroWithDigits(n: int, extra: string, text: string)
    requires AllDigits(extra) && text == CentsText(n) + extra
    ensures var m: nat := if n < 0 then -n else n;
      var c := Shifted(m, extra);
      var magnitude := RoundShifted(c, -|extra|);
      FormattedSum(text, false) == Cents(if n < 0 then -magnitude else magnitude)
  {
    var m: nat := if n < 0 then -n else n;
    var whole := NatToString(m / 100);
    var cents := [DigitChar(m / 10 % 10), DigitChar(m % 10)];
    var c := Shifted(m, extra);
    var lit := Literal(n < 0, whole + (cents + extra), |whole|, 0);
    assert AllDigits(lit.mantissa) && |lit.mantissa| >= 1 by {
      CentsParse(n, whole, cents, extra);
    }
    assert FormattedSum(text, false) == Cents(Hundredths(Normalize(lit))) by {
      CentsParse(n, whole, cents, extra);
    }
    assert Hundredths(Normalize(lit)) == LiteralHundredths(lit) by {
      NormalizeKeepsHundredths(lit);
    }
    CentsLiteralHundredths(n, whole, cents, extra);
  }

  /** The literal read from the text of `n` cents and `extra` digits
      spells `n` cents shifted by those digits. */
  lemma CentsLiteralHundredths(n: int, whole: string, cents: string, extra: string)
    requires var m: nat := if n < 0 then -n else n;
      whole == NatToString(m / 100) && cents == [DigitChar(m / 10 % 10), DigitChar(m % 10)]
    requires AllDigits(extra)
    ensures AllDigits(whole + (cents + extra))
    ensures var m: nat := if n < 0 then -n else n;
      var c := Shifted(m, extra);
      var lit := Literal(n < 0, whole + (cents + extra), |whole|, 0);
      LiteralHundredths(lit) == if n < 0 then -RoundShifted(c, -|extra|) else RoundShifted(c, -|extra|)
  {
    var m: nat := if n < 0 then -n else n;
    var c := Shifted(m, extra);
    var lit := Literal(n < 0, whole + (cents + extra), |whole|, 0);
    WholeAndCents(m, whole, cents, extra);
    LiteralMagnitude(lit, c, -|extra|);
  }

  /** `m` cents followed by the digits `extra`, as a number of the
      smallest unit those digits reach. */
  function Shifted(m: nat, extra: string): (c: nat)
    requires AllDigits(extra)
  {
    m * Pow10(|extra|) + DigitsValue(extra)
  }

  /** The hundredths of a literal whose digits spell `c` and whose point
      sits `shift - 2` places right of its last digit. */
  lemma LiteralMagnitude(lit: Literal, c: nat, shift: int)
    requires AllDigits(lit.mantissa) && DigitsValue(lit.mantissa) == c
    requires lit.point + lit.exponent - |lit.mantissa| + 2 == shift
    ensures LiteralHundredths(lit) == if lit.negative then -RoundShifted(c, shift) else RoundShifted(c, shift)
  {
  }

  /** The text of `n` cents with further digits `extra` after it parses
      as one literal. */
  lemma CentsParse(n: int, whole: string, cents: string, extra: string)
    requires var m: nat := if n < 0 then -n else n;
      whole == NatToString(m / 100) && cents == [DigitChar(m / 10 % 10), DigitChar(m % 10)]
    requires AllDigits(extra)
    ensures AllDigits(whole + (cents + extra))
    ensures Parse(ReplaceChar(CentsText(n) + extra, ',', '.'))
      == Some(Normalize(Literal(n < 0, whole + (cents + extra), |whole|, 0)))
  {
    var sign: string := if n < 0 then "-" else "";
    var body := whole + "." + (cents + extra);
    var t := CentsText(n) + extra;
    assert t == sign + body;
    assert sign + body == if n < 0 then "-" + body else body;
    AllDigitsConcat(cents, extra);
    AllDigitsConcat(whole, cents + extra);
    assert NoComma(t) by {
      DigitsHaveNoComma(whole);
      DigitsHaveNoComma(cents + extra);
      NoCommaConcat(sign, whole);
      NoCommaConcat(sign + whole, ".");
      NoCommaConcat(sign + whole + ".", cents + extra);
      assert sign + body == sign + whole + "." + (cents + extra);
    }
    ReplaceWithoutComma(t);
    ParsePlain(whole, cents + extra, true);
    var plain := Literal(false, whole + (cents + extra), |whole|, 0);
    ParseSigned(n < 0, body, plain);
    var lit := plain.(negative := n < 0);
    assert ParseLiteral(t) == Some(lit);
    assert Parse(t) == Some(Normalize(lit));
  }

  lemma NoCommaConcat(a: string, b: string)
    requires NoComma(a) && NoComma(b)
    ensures NoComma(a + b)
  {
  }

  /** The whole euros, the two cent digits and the extra digit spell `m`
      cents shifted by the extra digit. */
  lemma WholeAndCents(m: nat, whole: string, cents: string, extra: string)
    requires whole == NatToString(m / 100) && cents == [DigitChar(m / 10 % 10), DigitChar(m % 10)]
    requires AllDigits(extra)
    ensures AllDigits(whole + (cents + extra))
    ensures DigitsValue(whole + (cents + extra)) == Shifted(m, extra)
  {
    NatToStringValue(m / 100);
    assert DigitsValue(cents) == (m / 10 % 10) * 10 + m % 10 by {
      TwoDigitsValue(m / 10 % 10, m % 10);
    }
    assert m / 100 * 100 + (m / 10 % 10) * 10 + m % 10 == m;
    DigitsValueAppend(cents, extra);
    DigitsValueAppend(whole, cents + extra);
    Pow10Add(2, |extra|);
    assert DigitsValue(whole) * Pow10(|cents + extra|) + DigitsValue(cents + extra)
      == (m / 100 * 100 + (m / 10 % 10) * 10 + m % 10) * Pow10(|extra|) + DigitsValue(extra) by {
      assert Pow10(|cents + extra|) == 100 * Pow10(|extra|);
      ShiftCents(m / 100, DigitsValue(cents), Pow10(|extra|), DigitsValue(extra));
    }
  }

  lemma TwoDigitsValue(a: nat, b: nat)
    requires a < 10 && b < 10
    ensures DigitsValue([DigitChar(a), DigitChar(b)]) == a * 10 + b
  {
    var s := [DigitChar(a), DigitChar(b)];
    assert s[..1] == [DigitChar(a)];
    assert s[..1][..0] == [];
    assert DigitsValue(s[..1]) == a;
  }

  lemma ShiftCents(w: int, c: int, p: int, e: int)
    ensures w * (100 * p) + (c * p + e) == (w * 100 + c) * p + e
  {
    assert w * (100 * p) == (w * 100) * p;
  }

  /** A third decimal rounds half away from zero: a digit of five or more
      adds one cent to the amount's size, a smaller digit is dropped. */
  lemma EuroRoundsHalfAwayFromZero(n: int, d: nat)
    requires d < 10
    ensures var up := if d >= 5 then 1 else 0;
      FormattedSum(CentsText(n) + [DigitChar(d)], false) == Cents(if n < 0 then n - up else n + up)
  {
    var m: nat := if n < 0 then -n else n;
    var extra := [DigitChar(d)];
    assert Shifted(m, extra) == m * 10 + d by {
      assert extra[..0] == [];
      assert DigitsValue(extra) == d;
      assert Pow10(1) == 10;
    }
    assert RoundShifted(Shifted(m, extra), -1) == m + if d >= 5 then 1 else 0 by {
      RoundTenths(m, d);
    }
    EuroWithDigits(n, extra, CentsText(n) + extra);
  }

  lemma RoundTenths(m: nat, d: nat)
    requires d < 10
    ensures RoundShifted(m * 10 + d, -1) == m + if d >= 5 then 1 else 0
  {
    var c := m * 10 + d;
    assert Pow10(1) == 10;
    DivModUnique(c, 10, m, d);
  }

  // ---------------------------------------------------------------------
  // Percentages: formatting is idempotent

  /** The characters big.js prints: digits, the point, the exponent mark
      and signs. */
  lemma NumberTextHasNoComma(x: Big)
    requires IsNormal(x)
    ensures NoComma(ToString(x))
  {
    var u := Unsigned(x);
    assert NoComma(u) by {
      UnsignedHasNoComma(x);
    }
    NoCommaConcat("-", u);
  }

  lemma UnsignedHasNoComma(x: Big)
    requires IsNormal(x)
    ensures NoComma(Unsigned(x))
  {
    var digits := x.digits;
    var n := |digits|;
    var e := x.exponent;
    DigitsHaveNoComma(digits);
    if IsExponential(x) {
      var fraction := if n > 1 then "." + digits[1..] else "";
      var mark := if e < 0 then "e" else "e+";
      IntToStringHasNoComma(e);
      NoCommaConcat([digits[0]], fraction);
      NoCommaConcat([digits[0]] + fraction, mark);
      NoCommaConcat([digits[0]] + fraction + mark, IntToString(e));
    } else if e < 0 {
      DigitsOfZeros(-e - 1);
      DigitsHaveNoComma(Zeros(-e - 1));
      NoCommaConcat(Zeros(-e - 1), digits);
      NoCommaConcat("0" + ".", Zeros(-e - 1) + digits);
    } else if e > 0 && e + 1 > n {
      DigitsOfZeros(e + 1 - n);
      DigitsHaveNoComma(Zeros(e + 1 - n));
      NoCommaConcat(digits, Zeros(e + 1 - n));
    } else if e > 0 && e + 1 < n {
      NoCommaConcat(digits[..e + 1] + ".", digits[e + 1..]);
    } else if e == 0 && n > 1 {
      NoCommaConcat([digits[0]] + ".", digits[1..]);
    }
  }

  lemma DigitsHaveNoComma(s: string)
    requires AllDigits(s)
    ensures NoComma(s)
  {
  }

  lemma IntToStringHasNoComma(e: int)
    ensures NoComma(IntToString(e))
  {
    DigitsHaveNoComma(NatToString(if e < 0 then -e else e));
  }

  /** Formatting a percentage that was already formatted gives the same
      text: the value the form sends is stable under a second pass. */
  lemma PercentageIdempotent(sum: string)
    ensures FormattedSum(FormattedSum(sum, true).text, true) == FormattedSum(sum, true)
  {
    match Parse(ReplaceChar(sum, ',', '.'))
    case None =>
    case Some(x) =>
      var t := ToString(x);
      NumberTextHasNoComma(x);
      ReplaceWithoutComma(t);
      if IsZero(x) && x.negative {
        var zero := Big(false, "0", 0);
        assert t == ToString(zero);
        ParseToString(zero);
      } else {
        ParseToString(x);
      }
  }
}
