/** The part of the big.js arbitrary-precision decimal library (version 6)
    that the installment form uses: `new Big(text)`, `mul(100).round()`
    read back as a number, and `toString()`. A big.js number is a sign, a
    string of coefficient digits without leading or trailing zeros, and the
    decimal exponent of its first digit. */
module BigDecimal {

  import opened Wrappers
  import opened Text

  datatype Big = Big(negative: bool, digits: string, exponent: int)

  /** The shape `new Big` gives every number: zero is the single digit "0"
      with exponent 0; any other coefficient starts and ends with a non-zero
      digit. */
  predicate IsNormal(x: Big) {
    |x.digits| >= 1 && AllDigits(x.digits)
    && (if x.digits == "0" then x.exponent == 0
        else x.digits[0] != '0' && x.digits[|x.digits| - 1] != '0')
  }

  predicate IsZero(x: Big) {
    x.digits == "0"
  }

  function Zeros(k: nat): (z: string)
    ensures |z| == k && forall i :: 0 <= i < k ==> z[i] == '0'
  {
    seq(k, _ => '0')
  }

  function Pow10(k: nat): (p: nat)
    ensures p >= 1
  {
    if k == 0 then 1 else 10 * Pow10(k - 1)
  }

  // ---------------------------------------------------------------------
  // Parsing

  /** A numeric literal `-?(\d+(\.\d*)?|\.\d+)(e[+-]?\d+)?` (the `e` in
      either case), taken apart: the sign, the digits without the point,
      the number of digits before the point, and the exponent. */
  datatype Literal = Literal(negative: bool, mantissa: string, point: nat, exponent: int)

  /** The first position of `c` in `s`, or `|s|`. */
  function IndexOfChar(s: string, c: char): (k: nat)
    ensures k <= |s| && c !in s[..k]
    ensures k < |s| ==> s[k] == c
  {
    if s == [] then 0
    else if s[0] == c then 0
    else
      var k := 1 + IndexOfChar(s[1..], c);
      assert s[..k] == [s[0]] + s[1..][..k - 1];
      k
  }

  predicate IsExponentMark(c: char) {
    c == 'e' || c == 'E'
  }

  /** The first position of an exponent mark in `s`, or `|s|`. */
  function IndexOfExponentMark(s: string): (k: nat)
    ensures k <= |s| && forall i :: 0 <= i < k ==> !IsExponentMark(s[i])
    ensures k < |s| ==> IsExponentMark(s[k])
  {
    if s == [] then 0
    else if IsExponentMark(s[0]) then 0
    else 1 + IndexOfExponentMark(s[1..])
  }

  /** The exponent after the mark: an optional sign and one or more
      digits. */
  function ParseExponent(s: string): Option<int> {
    if |s| >= 2 && s[0] == '+' && AllDigits(s[1..]) then Some(DigitsValue(s[1..]))
    else if |s| >= 2 && s[0] == '-' && AllDigits(s[1..]) then Some(-(DigitsValue(s[1..]) as int))
    else if |s| >= 1 && AllDigits(s) then Some(DigitsValue(s))
    else None
  }

  /** The digits of a mantissa and the number of them before the point: at
      least one digit, at most one point. */
  function ParseMantissa(m: string): Option<(string, nat)> {
    var dot := IndexOfChar(m, '.');
    if dot == |m| then
      if |m| >= 1 && AllDigits(m) then Some((m, |m|)) else None
    else
      var left := m[..dot];
      var right := m[dot + 1..];
      if AllDigits(left) && AllDigits(right) && |left| + |right| >= 1
      then Some((left + right, |left|)) else None
  }

  /** Recognises the literals `new Big` accepts; any other text throws. */
  function ParseLiteral(t: string): (lit: Option<Literal>)
    ensures lit.Some? ==> AllDigits(lit.value.mantissa) && |lit.value.mantissa| >= 1
  {
    var negative := |t| >= 1 && t[0] == '-';
    var u := if negative then t[1..] else t;
    var mark := IndexOfExponentMark(u);
    var exponent := if mark == |u| then Some(0) else ParseExponent(u[mark + 1..]);
    var mantissa := ParseMantissa(u[..mark]);
    if exponent.None? || mantissa.None? then None
    else
      AllDigitsAppend(u[..mark]);
      Some(Literal(negative, mantissa.value.0, mantissa.value.1, exponent.value))
  }

  lemma AllDigitsAppend(m: string)
    ensures var dot := IndexOfChar(m, '.');
      dot < |m| && AllDigits(m[..dot]) && AllDigits(m[dot + 1..]) ==> AllDigits(m[..dot] + m[dot + 1..])
  {
  }

  function LeadingZeros(d: string): (k: nat)
    ensures k <= |d| && forall i :: 0 <= i < k ==> d[i] == '0'
    ensures k < |d| ==> d[k] != '0'
  {
    if d == [] || d[0] != '0' then 0 else 1 + LeadingZeros(d[1..])
  }

  function TrailingZeros(d: string): (k: nat)
    ensures k <= |d| && forall i :: |d| - k <= i < |d| ==> d[i] == '0'
    ensures k < |d| ==> d[|d| - 1 - k] != '0'
  {
    if d == [] || d[|d| - 1] != '0' then 0 else 1 + TrailingZeros(d[..|d| - 1])
  }

  /** big.js's `parse`: drops the leading and trailing zeros of the digits
      and works out the exponent of the first remaining digit; all zeros
      give zero, which keeps its sign. */
  function Normalize(lit: Literal): (x: Big)
    requires AllDigits(lit.mantissa) && |lit.mantissa| >= 1
    ensures IsNormal(x) && x.negative == lit.negative
  {
    var d := lit.mantissa;
    var lead := LeadingZeros(d);
    if lead == |d| then Big(lit.negative, "0", 0)
    else
      var trail := TrailingZeros(d);
      assert d[|d| - 1 - trail] != '0' && lead <= |d| - 1 - trail;
      var kept := d[lead..|d| - trail];
      AllDigitsSlice(d, lead, |d| - trail);
      assert kept[0] == d[lead] && kept[|kept| - 1] == d[|d| - 1 - trail];
      Big(lit.negative, kept, lit.point + lit.exponent - lead - 1)
  }

  lemma AllDigitsSlice(d: string, lo: nat, hi: nat)
    requires AllDigits(d) && lo <= hi <= |d|
    ensures AllDigits(d[lo..hi])
  {
    forall i | 0 <= i < hi - lo
      ensures IsDigit(d[lo..hi][i])
    {
      assert d[lo..hi][i] == d[lo + i];
    }
  }

  /** `new Big(t)`: `None` where the constructor throws. */
  function Parse(t: string): (x: Option<Big>)
    ensures x.Some? ==> IsNormal(x.value)
  {
    match ParseLiteral(t)
    case None => None
    case Some(lit) => Some(Normalize(lit))
  }

  // ---------------------------------------------------------------------
  // Rounding to hundredths

  /** `c * 10^shift` rounded to an integer, halves away from zero. */
  function RoundShifted(c: nat, shift: int): int {
    if shift >= 0 then c * Pow10(shift)
    else
      var d := Pow10(-shift);
      c / d + if 2 * (c % d) >= d then 1 else 0
  }

  /** `x.mul(100).round().toNumber()`: the number of hundredths, rounded
      half away from zero (big.js's default rounding mode). */
  function Hundredths(x: Big): int
    requires IsNormal(x)
  {
    var magnitude: int := RoundShifted(DigitsValue(x.digits), x.exponent - (|x.digits| - 1) + 2);
    if x.negative then -magnitude else magnitude
  }

  /** The same number read straight from the literal. */
  function LiteralHundredths(lit: Literal): int
    requires AllDigits(lit.mantissa)
  {
    var magnitude: int := RoundShifted(DigitsValue(lit.mantissa), lit.point + lit.exponent - |lit.mantissa| + 2);
    if lit.negative then -magnitude else magnitude
  }

  /** Dropping zeros does not change the number. */
  lemma NormalizeKeepsHundredths(lit: Literal)
    requires AllDigits(lit.mantissa) && |lit.mantissa| >= 1
    ensures Hundredths(Normalize(lit)) == LiteralHundredths(lit)
  {
    var d := lit.mantissa;
    var lead := LeadingZeros(d);
    if lead == |d| {
      assert d == Zeros(|d|);
      DigitsOfZeros(|d|);
      assert DigitsValue("0") == 0;
      RoundShiftedOfZero(lit.point + lit.exponent - |d| + 2);
      RoundShiftedOfZero(2);
    } else {
      var trail := TrailingZeros(d);
      var c := d[lead..|d| - trail];
      SplitZeros(d, lead, trail);
      RoundShiftedScale(DigitsValue(c), trail, lit.point + lit.exponent - lead - 1 - (|c| - 1) + 2);
    }
  }

  lemma RoundShiftedOfZero(shift: int)
    ensures RoundShifted(0, shift) == 0
  {
  }

  /** Digits with `lead` leading and `trail` trailing zeros spell the
      significant part shifted by `trail` places. */
  lemma SplitZeros(d: string, lead: nat, trail: nat)
    requires AllDigits(d) && lead + trail <= |d|
    requires forall i :: 0 <= i < lead ==> d[i] == '0'
    requires forall i :: |d| - trail <= i < |d| ==> d[i] == '0'
    ensures AllDigits(d[lead..|d| - trail])
    ensures DigitsValue(d) == DigitsValue(d[lead..|d| - trail]) * Pow10(trail)
  {
    var c := d[lead..|d| - trail];
    assert d == Zeros(lead) + (c + Zeros(trail));
    DigitsOfZeros(lead);
    DigitsOfZeros(trail);
    DigitsValueAppend(c, Zeros(trail));
    DigitsValueAppend(Zeros(lead), c + Zeros(trail));
  }

  lemma AllDigitsConcat(a: string, b: string)
    requires AllDigits(a) && AllDigits(b)
    ensures AllDigits(a + b)
  {
    var ab := a + b;
    forall i | 0 <= i < |ab|
      ensures IsDigit(ab[i])
    {
      if i < |a| { assert ab[i] == a[i]; } else { assert ab[i] == b[i - |a|]; }
    }
  }

  lemma {:induction false} DigitsOfZeros(k: nat)
    ensures AllDigits(Zeros(k)) && DigitsValue(Zeros(k)) == 0
  {
    if k > 0 {
      assert Zeros(k)[..k - 1] == Zeros(k - 1);
      DigitsOfZeros(k - 1);
    }
  }

  /** The digits of `a + b` spell `a` shifted by the length of `b`, plus
      `b`. */
  lemma {:induction false} DigitsValueAppend(a: string, b: string)
    requires AllDigits(a) && AllDigits(b)
    ensures AllDigits(a + b)
    ensures DigitsValue(a + b) == DigitsValue(a) * Pow10(|b|) + DigitsValue(b)
    decreases |b|
  {
    var ab := a + b;
    AllDigitsConcat(a, b);
    if b == [] {
      assert ab == a;
    } else {
      var b' := b[..|b| - 1];
      var last := DigitValue(b[|b| - 1]);
      assert ab[..|ab| - 1] == a + b';
      assert ab[|ab| - 1] == b[|b| - 1];
      DigitsValueAppend(a, b');
      var va, vb, p := DigitsValue(a), DigitsValue(b'), Pow10(|b'|);
      assert DigitsValue(ab) == (va * p + vb) * 10 + last;
      assert DigitsValue(b) == vb * 10 + last;
      assert Pow10(|b|) == 10 * p;
      Distribute(va, p, vb);
    }
  }

  lemma Distribute(a: int, p: int, b: int)
    ensures (a * p + b) * 10 == a * (10 * p) + b * 10
  {
  }

  lemma {:induction false} Pow10Add(m: nat, n: nat)
    ensures Pow10(m + n) == Pow10(m) * Pow10(n)
  {
    if n > 0 {
      Pow10Add(m, n - 1);
      assert Pow10(m) * Pow10(n) == Pow10(m) * (10 * Pow10(n - 1));
    }
  }

  /** A coefficient with `t` more zeros and an exponent `t` lower rounds
      the same. */
  lemma RoundShiftedScale(c: nat, t: nat, shift: int)
    ensures RoundShifted(c * Pow10(t), shift - t) == RoundShifted(c, shift)
  {
    if shift - t >= 0 {
      RoundScaleExact(c, t, shift);
    } else if shift >= 0 {
      RoundScaleBetween(c, t, shift);
    } else {
      RoundScaleBelow(c, t, shift);
    }
  }

  lemma RoundScaleExact(c: nat, t: nat, shift: int)
    requires shift - t >= 0
    ensures RoundShifted(c * Pow10(t), shift - t) == RoundShifted(c, shift)
  {
    var k, p := Pow10(t), Pow10(shift - t);
    Pow10Add(t, shift - t);
    assert Pow10(shift) == k * p;
    Associate(c, k, p);
  }

  lemma Associate(a: int, b: int, c: int)
    ensures a * b * c == a * (b * c)
  {
  }

  lemma RoundScaleBetween(c: nat, t: nat, shift: int)
    requires shift - t < 0 <= shift
    ensures RoundShifted(c * Pow10(t), shift - t) == RoundShifted(c, shift)
  {
    var d, p := Pow10(t - shift), Pow10(shift);
    Pow10Add(shift, t - shift);
    assert Pow10(t) == p * d;
    Associate(c, p, d);
    DivModOfMultiple(c * p, d);
  }

  lemma RoundScaleBelow(c: nat, t: nat, shift: int)
    requires shift < 0
    ensures RoundShifted(c * Pow10(t), shift - t) == RoundShifted(c, shift)
  {
    var d, k := Pow10(-shift), Pow10(t);
    Pow10Add(t, -shift);
    DivModScaled(c, d, k);
    assert 2 * ((c % d) * k) >= k * d <==> 2 * (c % d) >= d by {
      HalfScaled(c % d, d, k);
    }
  }

  lemma HalfScaled(r: int, d: int, k: int)
    requires k > 0
    ensures 2 * (r * k) >= k * d <==> 2 * r >= d
  {
    assert 2 * (r * k) - k * d == (2 * r - d) * k;
    SignOfProduct(2 * r - d, k);
  }

  lemma SignOfProduct(a: int, k: int)
    requires k > 0
    ensures a >= 0 <==> a * k >= 0
  {
    if a < 0 {
      MulBelowZero(-a, k);
    }
  }

  lemma {:induction false} MulBelowZero(a: nat, k: nat)
    requires a > 0 && k > 0
    ensures a * k > 0
  {
    if a > 1 {
      MulBelowZero(a - 1, k);
      assert a * k == (a - 1) * k + k;
    }
  }

  /** `q` times `b` is at least `b` when `q` is positive. */
  lemma {:induction false} MulAtLeast(q: int, b: int)
    requires q >= 1 && b > 0
    ensures q * b >= b
  {
    if q > 1 {
      MulAtLeast(q - 1, b);
      assert q * b == (q - 1) * b + b;
    }
  }

  lemma DivModUnique(a: int, b: int, q: int, r: int)
    requires b > 0 && a == q * b + r && 0 <= r < b
    ensures a / b == q && a % b == r
  {
    var q', r' := a / b, a % b;
    assert a == q' * b + r';
    MulDiffAtLeast(q', q, b);
    MulDiffAtLeast(q, q', b);
  }

  /** Products by `b` of integers that differ differ by at least `b`. */
  lemma MulDiffAtLeast(x: int, y: int, b: int)
    requires b > 0
    ensures x > y ==> x * b - y * b >= b
  {
    if x > y {
      MulAtLeast(x - y, b);
      assert (x - y) * b == x * b - y * b;
    }
  }

  lemma DivModOfMultiple(a: nat, d: nat)
    requires d > 0
    ensures (a * d) / d == a && (a * d) % d == 0
  {
    DivModUnique(a * d, d, a, 0);
  }

  lemma DivModScaled(c: nat, d: nat, k: nat)
    requires d > 0 && k > 0
    ensures (c * k) / (k * d) == c / d
    ensures (c * k) % (k * d) == (c % d) * k
  {
    var q, r := c / d, c % d;
    assert c == q * d + r;
    assert c * k == q * (k * d) + r * k by {
      assert c * k == (q * d + r) * k;
    }
    assert r * k < k * d by {
      assert k * d - r * k == (d - r) * k;
      MulBelowZero(d - r, k);
    }
    assert 0 <= r * k by {
      if r > 0 { MulBelowZero(r, k); }
    }
    assert k * d > 0 by {
      MulBelowZero(d, k);
    }
    DivModUnique(c * k, k * d, q, r * k);
  }

  // ---------------------------------------------------------------------
  // Printing

  /** big.js's `toString()`: plain notation while the exponent is between
      -7 and 21 exclusive, exponential notation otherwise; zero never shows
      its sign. */
  function ToString(x: Big): (s: string)
    requires IsNormal(x)
    ensures s == Unsigned(x) || s == "-" + Unsigned(x)
  {
    if x.negative && x.digits[0] != '0' then "-" + Unsigned(x) else Unsigned(x)
  }

  predicate IsExponential(x: Big) {
    x.exponent <= -7 || x.exponent >= 21
  }

  /** Exponential notation: the first digit, the other digits after a
      point, then `e`, the sign of the exponent (`+` when it is not
      negative) and its digits. */
  function ExponentialText(digits: string, e: int): string
    requires |digits| >= 1
  {
    var mantissa := if |digits| > 1 then [digits[0]] + "." + digits[1..] else [digits[0]];
    mantissa + (if e < 0 then "e" else "e+") + IntToString(e)
  }

  /** Plain notation: zeros after `0.` for a negative exponent, trailing
      zeros up to the exponent, or the point after the digit the exponent
      names. */
  function PlainText(digits: string, e: int): string
    requires |digits| >= 1
  {
    var n := |digits|;
    if e < 0 then "0" + "." + (Zeros(-e - 1) + digits)
    else if e > 0 then
      if e + 1 > n then digits + Zeros(e + 1 - n)
      else if e + 1 < n then digits[..e + 1] + "." + digits[e + 1..]
      else digits
    else if n > 1 then [digits[0]] + "." + digits[1..]
    else digits
  }

  /** The printed magnitude. */
  function Unsigned(x: Big): string
    requires IsNormal(x)
  {
    if IsExponential(x) then ExponentialText(x.digits, x.exponent) else PlainText(x.digits, x.exponent)
  }

  /** `t` starts with a digit or the point, reads as `lit`, and `lit`
      normalizes back to the magnitude of `x`. */
  predicate ReadsAs(t: string, x: Big, lit: Literal)
    requires IsNormal(x)
  {
    t != [] && t[0] != '-' && ParseLiteral(t) == Some(lit) && !lit.negative
    && Normalize(lit) == x.(negative := false)
  }

  /** Reading back what `toString()` prints gives the same number, except
      that negative zero comes back as zero. */
  lemma ParseToString(x: Big)
    requires IsNormal(x) && !(IsZero(x) && x.negative)
    ensures Parse(ToString(x)) == Some(x)
  {
    var lit: Literal;
    if IsExponential(x) {
      lit := ParseExponential(x);
    } else {
      lit := ParsePlainText(x);
    }
    assert ReadsAs(Unsigned(x), x, lit);
    ParseSigned(x.negative, Unsigned(x), lit);
    assert ToString(x) == if x.negative then "-" + Unsigned(x) else Unsigned(x);
    NormalizeSign(lit, x.negative);
  }

  /** Plain notation reads back as the number, case by case. */
  lemma ParsePlainText(x: Big) returns (lit: Literal)
    requires IsNormal(x)
    ensures ReadsAs(PlainText(x.digits, x.exponent), x, lit)
  {
    var n, e := |x.digits|, x.exponent;
    if IsZero(x) {
      lit := ParseWhole(x);
    } else if e < 0 {
      lit := ParseSmall(x);
    } else if e + 1 > n {
      lit := ParsePadded(x);
    } else if e + 1 < n {
      lit := ParsePointed(x);
    } else {
      lit := ParseWhole(x);
    }
  }

  lemma NormalizeSign(lit: Literal, negative: bool)
    requires AllDigits(lit.mantissa) && |lit.mantissa| >= 1
    ensures Normalize(lit.(negative := negative)) == Normalize(lit).(negative := negative)
  {
  }

  /** A leading minus sign only sets the sign. */
  lemma ParseSigned(negative: bool, body: string, lit: Literal)
    requires body != [] && body[0] != '-'
    requires ParseLiteral(body) == Some(lit) && !lit.negative
    ensures ParseLiteral(if negative then "-" + body else body) == Some(lit.(negative := negative))
  {
    if negative {
      assert ("-" + body)[1..] == body;
    }
  }

  /** Digits with or without a point read as a literal. */
  lemma ParsePlain(left: string, right: string, withPoint: bool)
    requires |left| >= 1 && AllDigits(left) && AllDigits(right)
    requires !withPoint ==> right == []
    ensures var t := if withPoint then left + "." + right else left;
      ParseLiteral(t) == Some(Literal(false, left + right, |left|, 0))
  {
    var t := if withPoint then left + "." + right else left;
    assert t[0] != '-';
    NoMarkIn(t);
    MantissaWithPoint(left, right, withPoint);
    assert t[..|t|] == t;
  }

  /** Digits without a point read as a literal. */
  lemma ParseDigits(body: string)
    requires |body| >= 1 && AllDigits(body)
    ensures ParseLiteral(body) == Some(Literal(false, body, |body|, 0))
  {
    ParsePlain(body, "", false);
    assert body + "" == body;
  }

  /** Digits with a point read as a literal. */
  lemma ParseDigitsWithPoint(left: string, right: string)
    requires |left| >= 1 && AllDigits(left) && AllDigits(right)
    ensures ParseLiteral(left + "." + right) == Some(Literal(false, left + right, |left|, 0))
  {
    ParsePlain(left, right, true);
  }

  /** `ParseDigitsWithPoint` for a text known to be the digits with the
      point. */
  lemma ParsePointText(left: string, right: string, text: string)
    requires |left| >= 1 && AllDigits(left) && AllDigits(right)
    requires text == left + "." + right
    ensures ParseLiteral(text) == Some(Literal(false, left + right, |left|, 0))
  {
    ParseDigitsWithPoint(left, right);
  }

  /** A mantissa followed by an exponent reads as a literal. */
  lemma ParseWithExponent(left: string, right: string, withPoint: bool, e: int)
    requires |left| >= 1 && AllDigits(left) && AllDigits(right)
    requires !withPoint ==> right == []
    ensures var m := if withPoint then left + "." + right else left;
      var t := m + (if e < 0 then "e" else "e+") + IntToString(e);
      ParseLiteral(t) == Some(Literal(false, left + right, |left|, e))
  {
    var m := if withPoint then left + "." + right else left;
    var expText := if e < 0 then IntToString(e) else "+" + IntToString(e);
    var t := m + "e" + expText;
    assert t == m + (if e < 0 then "e" else "e+") + IntToString(e);
    MantissaWithPoint(left, right, withPoint);
    ExponentText(e);
    ParseMarked(m, expText, left + right, |left|, e);
  }

  /** A mantissa, the mark and an exponent text read as a literal. */
  lemma ParseMarked(m: string, expText: string, digits: string, point: nat, e: int)
    requires forall i :: 0 <= i < |m| ==> IsDigit(m[i]) || m[i] == '.'
    requires ParseMantissa(m) == Some((digits, point))
    requires ParseExponent(expText) == Some(e)
    ensures ParseLiteral(m + "e" + expText) == Some(Literal(false, digits, point, e))
  {
    var t := m + "e" + expText;
    assert t[0] != '-';
    NoMarkIn(m);
    MarkAt(m, expText);
    assert t[..|m|] == m;
    assert t[|m| + 1..] == expText;
  }

  /** Significant digits in exponential notation read back as those
      digits and that exponent. */
  lemma ParseExponentialDigits(digits: string, e: int) returns (lit: Literal)
    requires |digits| >= 1 && AllDigits(digits) && digits[0] != '0' && digits[|digits| - 1] != '0'
    ensures ParseLiteral(ExponentialText(digits, e)) == Some(lit) && !lit.negative
    ensures Normalize(lit) == Big(false, digits, e)
  {
    var n := |digits|;
    var left, right := [digits[0]], digits[1..];
    assert left + right == digits;
    assert forall i :: 0 <= i < |left| ==> IsDigit(left[i]);
    lit := Literal(false, digits, 1, e);
    NormalizeSignificantWhole(lit);
    ParseWithExponent(left, right, n > 1, e);
  }

  lemma ParseExponential(x: Big) returns (lit: Literal)
    requires IsNormal(x) && !IsZero(x)
    ensures ReadsAs(ExponentialText(x.digits, x.exponent), x, lit)
  {
    lit := ParseExponentialDigits(x.digits, x.exponent);
    assert ExponentialText(x.digits, x.exponent)[0] == x.digits[0];
  }

  /** Significant digits behind `0.` and zeros read back as those digits
      with a negative exponent. */
  lemma ParseSmallDigits(digits: string, k: nat) returns (lit: Literal)
    requires |digits| >= 1 && AllDigits(digits) && digits[0] != '0' && digits[|digits| - 1] != '0'
    requires k >= 1
    ensures ParseLiteral("0" + "." + (Zeros(k - 1) + digits)) == Some(lit) && !lit.negative
    ensures Normalize(lit) == Big(false, digits, -(k as int))
  {
    lit := Literal(false, Zeros(k) + digits, 1, 0);
    NormalizeBehindZeros(lit, k, digits);
    ParseSmallText(digits, k);
  }

  lemma ParseSmall(x: Big) returns (lit: Literal)
    requires IsNormal(x) && !IsZero(x) && x.exponent < 0
    ensures ReadsAs(PlainText(x.digits, x.exponent), x, lit)
  {
    lit := ParseSmallDigits(x.digits, -x.exponent);
    assert PlainText(x.digits, x.exponent)[0] == '0';
  }

  lemma ParseSmallText(digits: string, k: nat)
    requires k >= 1 && AllDigits(digits)
    ensures ParseLiteral("0" + "." + (Zeros(k - 1) + digits)) == Some(Literal(false, Zeros(k) + digits, 1, 0))
  {
    var right := Zeros(k - 1) + digits;
    DigitsOfZeros(k - 1);
    AllDigitsConcat(Zeros(k - 1), digits);
    ZerosBefore(k, digits);
    ParseDigitsWithPoint("0", right);
  }

  /** One more zero in front of `k - 1` zeros and the digits makes `k`
      zeros and the digits. */
  lemma ZerosBefore(k: nat, digits: string)
    requires k >= 1
    ensures "0" + (Zeros(k - 1) + digits) == Zeros(k) + digits
  {
    assert "0" + Zeros(k - 1) == Zeros(k);
    assert "0" + (Zeros(k - 1) + digits) == ("0" + Zeros(k - 1)) + digits;
  }

  /** Zeros before significant digits only lower the exponent. */
  lemma NormalizeBehindZeros(lit: Literal, k: nat, digits: string)
    requires lit.mantissa == Zeros(k) + digits
    requires |digits| >= 1 && AllDigits(digits) && digits[0] != '0' && digits[|digits| - 1] != '0'
    ensures AllDigits(lit.mantissa)
    ensures Normalize(lit) == Big(lit.negative, digits, lit.point + lit.exponent - k - 1)
  {
    var m := lit.mantissa;
    DigitsOfZeros(k);
    AllDigitsConcat(Zeros(k), digits);
    assert m[k] == digits[0];
    assert m[|m| - 1] == digits[|digits| - 1];
    NormalizeSignificant(lit, k, 0);
    assert m[k..|m|] == digits;
  }

  /** Significant digits padded with zeros read back as those digits. */
  lemma ParsePaddedDigits(digits: string, e: nat, text: string) returns (lit: Literal)
    requires |digits| >= 1 && AllDigits(digits) && digits[0] != '0' && digits[|digits| - 1] != '0'
    requires e + 1 > |digits| && text == digits + Zeros(e + 1 - |digits|)
    ensures ParseLiteral(text) == Some(lit) && !lit.negative
    ensures Normalize(lit) == Big(false, digits, e)
  {
    var n := |digits|;
    var pad := e + 1 - n;
    var body := digits + Zeros(pad);
    assert |body| == e + 1;
    DigitsOfZeros(pad);
    AllDigitsConcat(digits, Zeros(pad));
    lit := Literal(false, body, |body|, 0);
    assert body[0] == digits[0] && body[|body| - 1 - pad] == digits[n - 1];
    NormalizeSignificant(lit, 0, pad);
    assert body[0..|body| - pad] == digits;
    ParseDigits(body);
  }

  lemma ParsePadded(x: Big) returns (lit: Literal)
    requires IsNormal(x) && !IsZero(x) && x.exponent >= 0
    requires x.exponent + 1 > |x.digits|
    ensures ReadsAs(PlainText(x.digits, x.exponent), x, lit)
  {
    var text := PlainText(x.digits, x.exponent);
    assert text == x.digits + Zeros(x.exponent + 1 - |x.digits|);
    assert text[0] == x.digits[0];
    assert x.(negative := false) == Big(false, x.digits, x.exponent);
    lit := ParsePaddedDigits(x.digits, x.exponent, text);
  }

  /** Significant digits with a point inside read back as those digits. */
  lemma ParsePointedDigits(digits: string, e: nat, text: string) returns (lit: Literal)
    requires |digits| >= 1 && AllDigits(digits) && digits[0] != '0' && digits[|digits| - 1] != '0'
    requires e + 1 < |digits| && text == digits[..e + 1] + "." + digits[e + 1..]
    ensures ParseLiteral(text) == Some(lit) && !lit.negative
    ensures Normalize(lit) == Big(false, digits, e)
  {
    var left, right := digits[..e + 1], digits[e + 1..];
    assert left + right == digits && |left| == e + 1;
    AllDigitsSlice(digits, 0, e + 1);
    AllDigitsSlice(digits, e + 1, |digits|);
    assert digits[0..e + 1] == left && digits[e + 1..|digits|] == right;
    lit := Literal(false, digits, e + 1, 0);
    NormalizeSignificantWhole(lit);
    ParsePointText(left, right, text);
  }

  lemma ParsePointed(x: Big) returns (lit: Literal)
    requires IsNormal(x) && !IsZero(x) && x.exponent >= 0
    requires x.exponent + 1 < |x.digits|
    ensures ReadsAs(PlainText(x.digits, x.exponent), x, lit)
  {
    var text := PlainText(x.digits, x.exponent);
    assert text == x.digits[..x.exponent + 1] + "." + x.digits[x.exponent + 1..];
    assert text[0] == x.digits[0];
    assert x.(negative := false) == Big(false, x.digits, x.exponent);
    lit := ParsePointedDigits(x.digits, x.exponent, text);
  }

  lemma ParseWhole(x: Big) returns (lit: Literal)
    requires IsNormal(x) && x.exponent >= 0
    requires x.exponent + 1 == |x.digits| || x.exponent == 0
    ensures ReadsAs(PlainText(x.digits, x.exponent), x, lit)
  {
    var digits, n, e := x.digits, |x.digits|, x.exponent;
    if e == 0 && n > 1 {
      assert PlainText(digits, e) == [digits[0]] + "." + digits[1..];
      ParsePlain([digits[0]], digits[1..], true);
      assert [digits[0]] + digits[1..] == digits;
      lit := Literal(false, digits, 1, 0);
    } else {
      assert PlainText(digits, e) == digits;
      ParsePlain(digits, "", false);
      assert digits + "" == digits;
      lit := Literal(false, digits, n, 0);
    }
    if IsZero(x) {
      assert LeadingZeros(digits) == 1;
    } else {
      NormalizeSignificantWhole(lit);
    }
  }

  /** Digits and points hold no exponent mark. */
  lemma NoMarkIn(m: string)
    requires forall i :: 0 <= i < |m| ==> IsDigit(m[i]) || m[i] == '.'
    ensures IndexOfExponentMark(m) == |m|
  {
    if m != [] {
      NoMarkIn(m[1..]);
    }
  }

  lemma MarkAt(m: string, expText: string)
    requires IndexOfExponentMark(m) == |m|
    ensures IndexOfExponentMark(m + "e" + expText) == |m|
  {
    if m != [] {
      assert (m + "e" + expText)[1..] == m[1..] + "e" + expText;
      MarkAt(m[1..], expText);
    }
  }

  /** The exponent big.js prints reads back as that exponent. */
  lemma ExponentText(e: int)
    ensures e < 0 ==> ParseExponent(IntToString(e)) == Some(e)
    ensures e >= 0 ==> ParseExponent("+" + IntToString(e)) == Some(e)
  {
    if e < 0 {
      var d := NatToString(-e);
      NatToStringValue(-e);
      var t := IntToString(e);
      assert t == "-" + d;
      assert t[0] == '-' && t[1..] == d;
    } else {
      var d := NatToString(e);
      NatToStringValue(e);
      var t := "+" + IntToString(e);
      assert t == "+" + d;
      assert t[0] == '+' && t[1..] == d;
    }
  }

  lemma MantissaWithoutPoint(m: string)
    requires |m| >= 1 && AllDigits(m)
    ensures ParseMantissa(m) == Some((m, |m|))
  {
    NoPointIn(m);
  }

  lemma NoPointIn(m: string)
    requires AllDigits(m)
    ensures IndexOfChar(m, '.') == |m|
  {
    if m != [] {
      NoPointIn(m[1..]);
    }
  }

  lemma MantissaWithPoint(left: string, right: string, withPoint: bool)
    requires |left| >= 1 && AllDigits(left) && AllDigits(right)
    requires !withPoint ==> right == []
    ensures ParseMantissa(if withPoint then left + "." + right else left) == Some((left + right, |left|))
  {
    NoPointIn(left);
    if withPoint {
      PointAt(left, right);
      var m := left + "." + right;
      assert m[..|left|] == left;
      assert m[|left| + 1..] == right;
    } else {
      assert left + right == left;
    }
  }

  lemma PointAt(left: string, right: string)
    requires IndexOfChar(left, '.') == |left|
    ensures IndexOfChar(left + "." + right, '.') == |left|
  {
    if left != [] {
      assert (left + "." + right)[1..] == left[1..] + "." + right;
      PointAt(left[1..], right);
    }
  }

  /** Normalizing digits made of `lead` zeros, a significant part and
      `trail` zeros keeps the significant part. */
  lemma NormalizeSignificant(lit: Literal, lead: nat, trail: nat)
    requires AllDigits(lit.mantissa) && lead + trail < |lit.mantissa|
    requires forall i :: 0 <= i < lead ==> lit.mantissa[i] == '0'
    requires lit.mantissa[lead] != '0' && lit.mantissa[|lit.mantissa| - 1 - trail] != '0'
    requires forall i :: |lit.mantissa| - trail <= i < |lit.mantissa| ==> lit.mantissa[i] == '0'
    ensures Normalize(lit) ==
      Big(lit.negative, lit.mantissa[lead..|lit.mantissa| - trail], lit.point + lit.exponent - lead - 1)
  {
    LeadingZerosAre(lit.mantissa, lead);
    TrailingZerosAre(lit.mantissa, trail);
  }

  /** Digits that start and end with a non-zero digit are kept whole. */
  lemma NormalizeSignificantWhole(lit: Literal)
    requires AllDigits(lit.mantissa) && |lit.mantissa| >= 1
    requires lit.mantissa[0] != '0' && lit.mantissa[|lit.mantissa| - 1] != '0'
    ensures Normalize(lit) == Big(lit.negative, lit.mantissa, lit.point + lit.exponent - 1)
  {
    NormalizeSignificant(lit, 0, 0);
    assert lit.mantissa[0..|lit.mantissa|] == lit.mantissa;
  }

  lemma LeadingZerosAre(d: string, k: nat)
    requires k < |d| && d[k] != '0' && forall i :: 0 <= i < k ==> d[i] == '0'
    ensures LeadingZeros(d) == k
  {
    if k > 0 {
      LeadingZerosAre(d[1..], k - 1);
    }
  }

  lemma TrailingZerosAre(d: string, k: nat)
    requires k < |d| && d[|d| - 1 - k] != '0' && forall i :: |d| - k <= i < |d| ==> d[i] == '0'
    ensures TrailingZeros(d) == k
  {
    if k > 0 {
      TrailingZerosAre(d[..|d| - 1], k - 1);
    }
  }
}
