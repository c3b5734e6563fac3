/** Decimal text for the two numeric fields of a stored expense: the id, a
    32-bit Java int, and the amount, kept here as a whole number of cents. */
module Numbers {
  import opened Results
  import opened Text

  const MinInt32: int := -0x8000_0000
  const MaxInt32: int := 0x7FFF_FFFF

  /** The range of a Java `int`. */
  predicate IsInt32(x: int) {
    MinInt32 <= x <= MaxInt32
  }

  predicate IsDigit(c: char) {
    '0' <= c <= '9'
  }

  predicate AllDigits(s: string) {
    forall k :: 0 <= k < |s| ==> IsDigit(s[k])
  }

  function DigitChar(d: nat): (c: char)
    requires d < 10
    ensures IsDigit(c) && DigitValue(c) == d
  {
    ('0' as int + d) as char
  }

  function DigitValue(c: char): (d: nat)
    requires IsDigit(c)
    ensures d < 10
  {
    c as int - '0' as int
  }

  /** The decimal digits of `n`, most significant first, with no leading zero. */
  function NatToDigits(n: nat): (r: string)
    ensures |r| >= 1 && AllDigits(r)
    ensures |r| > 1 ==> r[0] != '0'
    decreases n
  {
    if n < 10 then [DigitChar(n)] else NatToDigits(n / 10) + [DigitChar(n % 10)]
  }

  /** The value of a digit string (leading zeros allowed); "" reads as 0. */
  function DigitsToNat(s: string): nat
    requires AllDigits(s)
    decreases |s|
  {
    if |s| == 0 then 0 else DigitsToNat(s[..|s| - 1]) * 10 + DigitValue(s[|s| - 1])
  }

  /** Reading back the digits of a number gives the number. */
  lemma {:induction false} DigitsToNatOfNatToDigits(n: nat)
    ensures DigitsToNat(NatToDigits(n)) == n
    decreases n
  {
    if n >= 10 {
      DigitsToNatOfNatToDigits(n / 10);
      var s := NatToDigits(n);
      assert s[..|s| - 1] == NatToDigits(n / 10);
    }
  }

  /** Numbers from 10^(w-1) up to 10^w - 1 are written with exactly w digits. */
  lemma {:induction false} NatToDigitsLength(n: nat, w: nat)
    requires 1 <= w
    requires Pow10(w - 1) <= n < Pow10(w)
    ensures |NatToDigits(n)| == w
    decreases w
  {
    if w > 1 {
      NatToDigitsLength(n / 10, w - 1);
    }
  }

  function Pow10(w: nat): (p: nat)
    ensures p >= 1
  {
    if w == 0 then 1 else 10 * Pow10(w - 1)
  }

  /** Integer.toString: a minus sign for negative values, then the digits. */
  function IntToString(n: int): (r: string)
    ensures |r| >= 1 && IsDigit(r[|r| - 1])
    ensures r[0] == '-' || IsDigit(r[0])
    ensures forall k :: 1 <= k < |r| ==> IsDigit(r[k])
  {
    if n < 0 then "-" + NatToDigits(-n) else NatToDigits(n)
  }

  /** Integer.parseInt: an optional '+' or '-', at least one digit, and a
      value inside the int range; anything else is a NumberFormatException. */
  function ParseInt32(s: string): (r: Option<int>)
    ensures r.Some? ==> IsInt32(r.value)
    ensures r.Some? ==> |s| >= 1 && (s[0] == '-' || s[0] == '+' || IsDigit(s[0]))
  {
    if |s| == 0 then None
    else
      var digits := if s[0] == '-' || s[0] == '+' then s[1..] else s;
      if |digits| == 0 || !AllDigits(digits) then None
      else
        var v: int := if s[0] == '-' then -(DigitsToNat(digits) as int) else DigitsToNat(digits);
        if IsInt32(v) then Some(v) else None
  }

  /** Every int written by Integer.toString is read back by Integer.parseInt. */
  lemma ParseInt32OfIntToString(n: int)
    requires IsInt32(n)
    ensures ParseInt32(IntToString(n)) == Some(n)
  {
    if n < 0 {
      var m: nat := -n;
      var digits := NatToDigits(m);
      assert IntToString(n) == "-" + digits;
      DigitsToNatOfNatToDigits(m);
      ParseMinusDigits(digits, m);
    } else {
      var m: nat := n;
      assert IntToString(n) == NatToDigits(m);
      DigitsToNatOfNatToDigits(m);
      assert IsDigit(NatToDigits(m)[0]);
    }
  }

  /** A minus sign before digits whose value is in range negates it. */
  lemma ParseMinusDigits(digits: string, m: nat)
    requires |digits| >= 1 && AllDigits(digits) && DigitsToNat(digits) == m
    requires IsInt32(-(m as int))
    ensures ParseInt32("-" + digits) == Some(-(m as int))
  {
    var s := "-" + digits;
    assert s[0] == '-' && s[1..] == digits;
  }

  /** Text that both number writers produce: digits, a sign and a point. */
  predicate IsNumeral(c: char) {
    IsDigit(c) || c == '-' || c == '.'
  }

  /** The digits after the point in Double.toString: one digit when the
      hundredths are zero ("3.0", "3.5"), otherwise two ("3.05"). */
  function FractionDigits(hundredths: nat): (r: string)
    requires hundredths < 100
    ensures 1 <= |r| <= 2 && AllDigits(r)
  {
    if hundredths % 10 == 0 then [DigitChar(hundredths / 10)]
    else [DigitChar(hundredths / 10), DigitChar(hundredths % 10)]
  }

  /** The unsigned text of an amount: whole part, point, shortest fraction. */
  function UnsignedAmountText(cents: nat): (r: string)
    ensures |r| >= 3 && IsDigit(r[0]) && IsDigit(r[|r| - 1])
    ensures forall k :: 0 <= k < |r| ==> IsNumeral(r[k])
  {
    NatToDigits(cents / 100) + "." + FractionDigits(cents % 100)
  }

  /** The amount as Double.toString writes a value with at most two decimals
      below ten million: a minus sign when negative, then the unsigned text. */
  function FormatAmount(cents: int): (r: string)
    ensures |r| >= 3 && IsDigit(r[|r| - 1])
    ensures r[0] == '-' || IsDigit(r[0])
    ensures r[0] == '-' <==> cents < 0
    ensures forall k :: 0 <= k < |r| ==> IsNumeral(r[k])
  {
    if cents < 0 then "-" + UnsignedAmountText(-cents) else UnsignedAmountText(cents)
  }

  /** A written amount holds exactly one point, and a minus sign only in
      front, exactly when the amount is negative. */
  lemma FormatAmountPointAndSign(cents: int)
    ensures var r := FormatAmount(cents);
      && multiset(r)['.'] == 1
      && multiset(r)['-'] == (if cents < 0 then 1 else 0)
      && (r[0] == '-' <==> cents < 0)
  {
    var m: nat := if cents < 0 then -cents else cents;
    var t := UnsignedAmountText(m);
    UnsignedAmountPoint(m);
    if cents < 0 {
      assert FormatAmount(cents) == "-" + t;
      assert multiset("-" + t) == multiset("-") + multiset(t);
    } else {
      assert FormatAmount(cents) == t;
    }
  }

  /** The unsigned text has one point and no minus sign. */
  lemma UnsignedAmountPoint(m: nat)
    ensures multiset(UnsignedAmountText(m))['.'] == 1
    ensures multiset(UnsignedAmountText(m))['-'] == 0
  {
    var whole := NatToDigits(m / 100);
    var fraction := FractionDigits(m % 100);
    assert '.' !in whole && '-' !in whole;
    assert '.' !in fraction && '-' !in fraction;
    assert multiset(whole + "." + fraction) == multiset(whole) + multiset(".") + multiset(fraction);
  }

  /** Reads "digits" or "digits.d" or "digits.dd" as a whole number of cents. */
  function ParseUnsignedAmount(s: string): (r: Option<nat>)
  {
    if '.' !in s then
      if |s| > 0 && AllDigits(s) then Some(DigitsToNat(s) * 100) else None
    else
      var k := IndexOf(s, '.');
      var whole := s[..k];
      var fraction := s[k + 1..];
      if |whole| == 0 || !AllDigits(whole) || !(1 <= |fraction| <= 2) || !AllDigits(fraction) then None
      else if |fraction| == 1 then Some(DigitsToNat(whole) * 100 + DigitValue(fraction[0]) * 10)
      else Some(DigitsToNat(whole) * 100 + DigitsToNat(fraction))
  }

  /** Double.parseDouble restricted to plain decimals with at most two
      fractional digits and an optional sign, giving cents. */
  function ParseAmount(s: string): (r: Option<int>)
    ensures r.Some? ==> |s| >= 1 && s[|s| - 1] != '.'
    ensures r.Some? && r.value < 0 ==> s[0] == '-'
  {
    if |s| > 0 && (s[0] == '-' || s[0] == '+') then
      match ParseUnsignedAmount(s[1..])
      case None => None
      case Some(m) =>
        var signed: int := if s[0] == '-' then -(m as int) else m;
        Some(signed)
    else
      ParseUnsignedAmount(s)
  }

  /** The fraction digits read back as the hundredths they were written from. */
  lemma FractionDigitsValue(hundredths: nat)
    requires hundredths < 100
    ensures var r := FractionDigits(hundredths);
      (|r| == 1 ==> DigitValue(r[0]) * 10 == hundredths) && (|r| == 2 ==> DigitsToNat(r) == hundredths)
  {
    var r := FractionDigits(hundredths);
    if |r| == 2 {
      var head := r[..1];
      assert head[..0] == [];
      assert DigitsToNat(head) == DigitValue(r[0]) == hundredths / 10;
      assert DigitsToNat(r) == DigitsToNat(head) * 10 + DigitValue(r[1]);
    }
  }

  lemma ParseUnsignedAmountOfText(cents: nat)
    ensures ParseUnsignedAmount(UnsignedAmountText(cents)) == Some(cents)
  {
    var whole := NatToDigits(cents / 100);
    var fraction := FractionDigits(cents % 100);
    var body := whole + "." + fraction;
    assert '.' !in whole;
    IndexOfAfterPrefix(whole, '.', fraction);
    var k := IndexOf(body, '.');
    assert body[..k] == whole;
    assert body[k + 1..] == fraction;
    DigitsToNatOfNatToDigits(cents / 100);
    FractionDigitsValue(cents % 100);
  }

  /** Every amount written by the formatter is read back unchanged. */
  lemma ParseAmountOfFormatAmount(cents: int)
    ensures ParseAmount(FormatAmount(cents)) == Some(cents)
  {
    if cents < 0 {
      ParseNegativeAmount(cents);
    } else {
      ParseNonNegativeAmount(cents);
    }
  }

  lemma ParseNegativeAmount(cents: int)
    requires cents < 0
    ensures ParseAmount(FormatAmount(cents)) == Some(cents)
  {
    var m: nat := -cents;
    var t := UnsignedAmountText(m);
    assert FormatAmount(cents) == "-" + t;
    ParseUnsignedAmountOfText(m);
    assert ParseUnsignedAmount(t) == Some(m);
    ParseMinusPrefixed(t, m);
  }

  /** A minus sign before an accepted unsigned amount negates it. */
  lemma ParseMinusPrefixed(t: string, m: nat)
    requires ParseUnsignedAmount(t) == Some(m)
    ensures ParseAmount("-" + t) == Some(-(m as int))
  {
    var s := "-" + t;
    assert s[0] == '-' && s[1..] == t;
  }

  lemma ParseNonNegativeAmount(cents: int)
    requires cents >= 0
    ensures ParseAmount(FormatAmount(cents)) == Some(cents)
  {
    var s := FormatAmount(cents);
    assert s == UnsignedAmountText(cents) && IsDigit(s[0]);
    ParseUnsignedAmountOfText(cents);
  }
}
