/** Decimals, a mantissa and a power of ten, written out as text: when the text still means the number. */
module Decimals {
  import opened Texts
  import opened Wrappers

  const MOST_NEGATIVE: int := -0x8000_0000_0000_0000

  predicate Int64(n: int) {
    -0x8000_0000_0000_0000 <= n < 0x8000_0000_0000_0000
  }

  /** Negation in 64 bits. */
  function Negated(n: int): int {
    if n == MOST_NEGATIVE then n else -n
  }

  function FormatInt(n: int): string {
    if n < 0 then "-" + Decimal(-n) else Decimal(n)
  }

  function Zeros(k: nat): (zeros: string)
    ensures |zeros| == k
  {
    if k == 0 then "" else Zeros(k - 1) + "0"
  }

  // ----- what a text means

  /** How many characters stand before the first point. */
  function BeforePoint(text: string): (n: nat)
    ensures n <= |text|
  {
    if text == "" || text[0] == '.' then 0 else 1 + BeforePoint(text[1..])
  }

  /** A number divided by a power of ten. */
  datatype Scaled = Scaled(number: int, scale: nat)

  function Unsigned(text: string): Option<Scaled> {
    var n := BeforePoint(text);
    var whole, fraction := text[..n], if n < |text| then text[n + 1..] else "";
    if whole + fraction != "" && AllDigits(whole + fraction) then Some(Scaled(Number(whole + fraction), |fraction|)) else None
  }

  /** The meaning of digits with at most one point, and a minus sign before them if any. */
  function Meaning(text: string): Option<Scaled> {
    if text != "" && text[0] == '-' then
      match Unsigned(text[1..])
      case Some(s) => Some(Scaled(-s.number, s.scale))
      case None => None
    else Unsigned(text)
  }

  function Power(k: nat): (p: nat)
    ensures p > 0
  {
    if k == 0 then 1 else 10 * Power(k - 1)
  }

  /** The text means mantissa times ten to the exponent. */
  predicate Denotes(text: string, mantissa: int, exponent: int) {
    match Meaning(text)
    case None => false
    case Some(s) =>
      if exponent >= 0 then s.number == mantissa * Power(exponent) * Power(s.scale)
      else s.number * Power(-exponent) == mantissa * Power(s.scale)
  }

  // ----- the rendering

  function Rendered(digits: string, exponent: int): string {
    if exponent >= 0 then digits + Zeros(exponent)
    else if |digits| > -exponent then digits[..|digits| + exponent] + "." + digits[|digits| + exponent..]
    else "." + Zeros(-exponent - 1) + digits
  }

  method DecimalToString(mantissa: int, exponent: int) returns (text: string)
    requires Int64(mantissa) && Int64(exponent) && exponent != MOST_NEGATIVE
    ensures text == Text(mantissa, exponent)
    ensures Denotes(text, mantissa, exponent) <==> Faithful(mantissa, exponent)
  {
    FaithfulIff(mantissa, exponent);
    hide Denotes;
    hide Faithful;
    hide FormatInt;
    hide Rendered;
    var negative := mantissa < 0;
    var res := Shift(FormatInt(if negative then Negated(mantissa) else mantissa), exponent);
    text := if negative then "-" + res else res;
  }

  /** Zeros are added behind the digits, or the point is set. */
  method Shift(digits: string, exponent: int) returns (res: string)
    ensures res == Rendered(digits, exponent)
  {
    hide Zeros;
    if exponent >= 0 {
      var zeros := MakeZeros("", exponent);
      assert "" + Zeros(exponent) == Zeros(exponent);
      res := digits + zeros;
    } else {
      var places := -exponent;
      if |digits| > places {
        res := digits[..|digits| - places] + "." + digits[|digits| - places..];
      } else {
        var zeros := MakeZeros(".", places - 1);
        res := zeros + digits;
      }
    }
  }

  method MakeZeros(start: string, k: nat) returns (zeros: string)
    ensures zeros == start + Zeros(k)
  {
    zeros := start;
    for i := 0 to k
      invariant zeros == start + Zeros(i)
    {
      zeros := zeros + "0";
    }
  }

  // ----- when it is right

  /** The exponent adds zeros, or the point falls among the digits, or there is only one digit. */
  predicate Faithful(mantissa: int, exponent: int) {
    && mantissa != -0x8000_0000_0000_0000
    && (exponent >= 0 || |FormatInt(if mantissa < 0 then -mantissa else mantissa)| > -exponent
        || -10 < mantissa < 10)
  }

  function Text(mantissa: int, exponent: int): string {
    if mantissa < 0 then "-" + Rendered(FormatInt(Negated(mantissa)), exponent) else Rendered(FormatInt(mantissa), exponent)
  }

  lemma FaithfulIff(mantissa: int, exponent: int)
    requires Int64(mantissa)
    ensures Denotes(Text(mantissa, exponent), mantissa, exponent) <==> Faithful(mantissa, exponent)
  {
    var n: nat := if mantissa < 0 then -mantissa else mantissa;
    DecimalNumber(n);
    var rendered := Rendered(FormatInt(if mantissa < 0 then Negated(mantissa) else mantissa), exponent);
    assert mantissa < 0 ==> ("-" + rendered)[1..] == rendered;
    if mantissa == MOST_NEGATIVE {
      NotANumber(Decimal(n), exponent);
    } else {
      RenderedMeans(Decimal(n), exponent);
      hide *;
      SignedMeaning(mantissa, n, exponent);
      RightScale(mantissa, n, exponent);
    }
  }

  /** The meaning of the text, sign included. */
  lemma SignedMeaning(mantissa: int, n: nat, exponent: int)
    requires n == (if mantissa < 0 then -mantissa else mantissa) && mantissa != MOST_NEGATIVE
    requires var text := Rendered(Decimal(n), exponent);
             && text != "" && text[0] != '-'
             && Unsigned(text) == Some(Scaled(if exponent >= 0 then n * Power(exponent) else n, ScaleOf(Decimal(n), exponent)))
    ensures Meaning(Text(mantissa, exponent))
      == Some(Scaled(if exponent >= 0 then mantissa * Power(exponent) else mantissa, ScaleOf(Decimal(n), exponent)))
  {
    hide Decimal;
    hide Rendered;
    hide Unsigned;
    hide Power;
    hide ScaleOf;
    var rendered := Rendered(Decimal(n), exponent);
    assert ("-" + rendered)[1..] == rendered;
    assert Text(mantissa, exponent) == if mantissa < 0 then "-" + rendered else rendered;
    hide Text;
    if exponent >= 0 {
      NegatedProduct(n, Power(exponent));
    }
  }

  lemma NegatedProduct(n: int, p: int)
    ensures -(n * p) == -n * p
  {
  }

  lemma RightScale(mantissa: int, n: nat, exponent: int)
    requires n == (if mantissa < 0 then -mantissa else mantissa) && mantissa != MOST_NEGATIVE
    requires Meaning(Text(mantissa, exponent))
      == Some(Scaled(if exponent >= 0 then mantissa * Power(exponent) else mantissa, ScaleOf(Decimal(n), exponent)))
    ensures Denotes(Text(mantissa, exponent), mantissa, exponent) <==> Faithful(mantissa, exponent)
  {
    hide Text;
    hide Meaning;
    if exponent < 0 {
      ScaleRight(n, Decimal(n), exponent);
      NegatedProduct(n, Power(-exponent));
      NegatedProduct(n, Power(ScaleOf(Decimal(n), exponent)));
      OneDigit(n);
    }
    hide Decimal;
    hide Power;
    hide ScaleOf;
  }

  lemma {:induction false} PointAfter(whole: string, rest: string)
    requires AllDigits(whole) && (rest == "" || rest[0] == '.')
    ensures BeforePoint(whole + rest) == |whole|
  {
    if whole == "" {
      assert whole + rest == rest;
    } else {
      assert IsDigit(whole[0]) && (whole + rest)[1..] == whole[1..] + rest;
      PointAfter(whole[1..], rest);
    }
  }

  lemma NumberMore(text: string, c: char)
    requires AllDigits(text) && IsDigit(c)
    ensures AllDigits(text + [c]) && Number(text + [c]) == 10 * Number(text) + (c as int - '0' as int)
  {
    assert (text + [c])[..|text|] == text;
  }

  lemma NoDigits()
    ensures AllDigits("") && Number("") == 0 && Zeros(0) == "" && Power(0) == 1
  {
  }

  lemma OneZeroMore(k: nat)
    requires k > 0
    ensures Zeros(k) == Zeros(k - 1) + ['0'] && Power(k) == 10 * Power(k - 1) && IsDigit('0')
  {
  }

  lemma {:induction false} ZerosAfter(digits: string, k: nat)
    requires AllDigits(digits)
    ensures AllDigits(digits + Zeros(k)) && Number(digits + Zeros(k)) == Number(digits) * Power(k)
  {
    hide *;
    if k == 0 {
      NoDigits();
      assert digits + "" == digits;
    } else {
      ZerosAfter(digits, k - 1);
      OneZeroMore(k);
      NumberMore(digits + Zeros(k - 1), '0');
      assert digits + Zeros(k) == digits + Zeros(k - 1) + ['0'];
      TenTimes(Number(digits), Power(k - 1));
    }
  }

  lemma TenTimes(a: nat, b: nat)
    ensures 10 * (a * b) == a * (10 * b)
  {
  }

  lemma {:induction false} ZerosBefore(k: nat, digits: string)
    requires AllDigits(digits)
    ensures AllDigits(Zeros(k) + digits) && Number(Zeros(k) + digits) == Number(digits)
  {
    hide *;
    if digits == "" {
      NoDigits();
      ZerosAfter("", k);
      assert "" + Zeros(k) == Zeros(k) && Zeros(k) + "" == Zeros(k);
    } else {
      var n := |digits| - 1;
      DigitsSplit(digits);
      ZerosBefore(k, digits[..n]);
      NumberMore(digits[..n], digits[n]);
      NumberMore(Zeros(k) + digits[..n], digits[n]);
      assert digits[..n] + [digits[n]] == digits;
      assert Zeros(k) + digits[..n] + [digits[n]] == Zeros(k) + digits;
    }
  }

  lemma DigitsSplit(digits: string)
    requires AllDigits(digits) && digits != ""
    ensures AllDigits(digits[..|digits| - 1]) && IsDigit(digits[|digits| - 1])
  {
  }

  /** How many digits stand behind the point. */
  function ScaleOf(digits: string, exponent: int): nat {
    if exponent >= 0 then 0 else if |digits| > -exponent then -exponent else -exponent - 1 + |digits|
  }

  lemma RenderedMeans(digits: string, exponent: int)
    requires digits != "" && AllDigits(digits)
    ensures var text := Rendered(digits, exponent);
            && text != "" && text[0] != '-'
            && Unsigned(text) == Some(Scaled(if exponent >= 0 then Number(digits) * Power(exponent) else Number(digits),
                                             ScaleOf(digits, exponent)))
  {
    hide Number;
    hide Power;
    var text := Rendered(digits, exponent);
    assert IsDigit(digits[0]);
    if exponent >= 0 {
      ZerosAfter(digits, exponent);
      PointAfter(text, "");
      assert text + "" == text && text[..|text|] == text;
    } else if |digits| > -exponent {
      var whole, fraction := digits[..|digits| + exponent], digits[|digits| + exponent..];
      PointAfter(whole, "." + fraction);
      assert text == whole + ("." + fraction) && text[..|whole|] == whole && text[|whole| + 1..] == fraction;
      assert whole + fraction == digits;
    } else {
      var zeros := Zeros(-exponent - 1);
      ZerosBefore(-exponent - 1, digits);
      assert text[..0] + text[1..] == zeros + digits;
    }
  }

  lemma Dash(text: string)
    requires '-' in text
    ensures Unsigned(text).None?
  {
    var n := BeforePoint(text);
    var whole, fraction := text[..n], if n < |text| then text[n + 1..] else "";
    PointThere(text);
    var i :| 0 <= i < |text| && text[i] == '-';
    assert (whole + fraction)[if i < n then i else i - 1] == '-';
    assert !IsDigit('-');
  }

  lemma {:induction false} PointThere(text: string)
    ensures BeforePoint(text) < |text| ==> text[BeforePoint(text)] == '.'
  {
    if text != "" && text[0] != '.' {
      PointThere(text[1..]);
    }
  }

  /** The minus sign of the one number that has no negation is printed twice, or among the digits. */
  lemma NotANumber(digits: string, exponent: int)
    ensures Meaning("-" + Rendered("-" + digits, exponent)).None?
  {
    var inner, rendered := "-" + digits, Rendered("-" + digits, exponent);
    assert inner[0] == '-';
    if exponent >= 0 {
      assert rendered[0] == '-';
    } else if |inner| > -exponent {
      assert rendered[0] == '-';
    } else {
      assert rendered[-exponent] == '-';
    }
    Dash(rendered);
    assert ("-" + rendered)[1..] == rendered;
  }

  lemma {:induction false} PowerGrows(a: nat, b: nat)
    ensures a < b ==> Power(a) < Power(b)
    decreases b
  {
    if a < b {
      PowerGrows(a, b - 1);
    }
  }

  /** Numbers of two digits or more have a text of two characters or more. */
  lemma OneDigit(n: nat)
    ensures |Decimal(n)| >= 1 && (|Decimal(n)| == 1 <==> n < 10)
  {
    if n >= 10 {
      DecimalNumber(n / 10);
    }
  }

  lemma ScaleRight(n: nat, digits: string, exponent: int)
    requires digits == Decimal(n) && exponent < 0
    ensures n * Power(-exponent) == n * Power(ScaleOf(digits, exponent)) <==> |digits| > -exponent || n < 10
  {
    OneDigit(n);
    var a, b := -exponent, ScaleOf(digits, exponent);
    if a < b {
      PowerGrows(a, b);
      if n > 0 {
        Cancels(n, Power(a), Power(b));
      }
    }
  }

  lemma Cancels(n: nat, a: nat, b: nat)
    requires n > 0 && a < b
    ensures n * a < n * b
  {
  }
}
