/** Calendar dates as LocalDate keeps them, written and read in the ISO 8601
    calendar-date extended form YYYY-MM-DD (the full-date production of
    section 5.6 of RFC 3339). */
module Dates {
  import opened Results
  import opened Numbers

  datatype Date = Date(year: int, month: int, day: int)

  /** The proleptic Gregorian rule of IsoChronology.isLeapYear. */
  predicate IsLeapYear(year: int) {
    year % 4 == 0 && (year % 100 != 0 || year % 400 == 0)
  }

  function DaysInMonth(year: int, month: int): (n: int)
    requires 1 <= month <= 12
    ensures 28 <= n <= 31
  {
    if month == 2 then (if IsLeapYear(year) then 29 else 28)
    else if month == 4 || month == 6 || month == 9 || month == 11 then 30
    else 31
  }

  /** A day that exists in the calendar. */
  predicate IsValidDate(d: Date) {
    1 <= d.month <= 12 && 1 <= d.day <= DaysInMonth(d.year, d.month)
  }

  /** A valid date whose year has four digits and no sign. */
  predicate IsFullDate(d: Date) {
    IsValidDate(d) && 0 <= d.year <= 9999
  }

  /** `n` written with exactly `width` digits, zero-padded on the left. */
  function Pad(n: nat, width: nat): (r: string)
    ensures |r| == width && AllDigits(r)
  {
    if width == 0 then "" else Pad(n / 10, width - 1) + [DigitChar(n % 10)]
  }

  /** Padding keeps the value of any number that fits in the width. */
  lemma {:induction false} PadValue(n: nat, width: nat)
    requires n < Pow10(width)
    ensures DigitsToNat(Pad(n, width)) == n
    decreases width
  {
    if width > 0 {
      PadValue(n / 10, width - 1);
      var r := Pad(n, width);
      assert r[..width - 1] == Pad(n / 10, width - 1);
    }
  }

  lemma FourDigitBounds()
    ensures Pow10(3) == 1000 && Pow10(4) == 10000
  {
    assert Pow10(1) == 10;
    assert Pow10(2) == 100;
  }

  /** The year as LocalDate.toString writes it: four digits, zero-padded,
      below 1000 in magnitude (with '-' before negative ones); '+' before
      years above 9999; otherwise Integer.toString. */
  function FormatYear(year: int): string
  {
    if -1000 < year < 1000 then
      if year < 0 then "-" + Pad(-year, 4) else Pad(year, 4)
    else if year > 9999 then "+" + IntToString(year)
    else IntToString(year)
  }

  /** Years 0..9999 take exactly four digits that read back as the year. */
  lemma FormatYearOfFullYear(year: int)
    requires 0 <= year <= 9999
    ensures var r := FormatYear(year); |r| == 4 && AllDigits(r) && DigitsToNat(r) == year
  {
    FourDigitBounds();
    if year < 1000 {
      PadValue(year, 4);
    } else {
      NatToDigitsLength(year, 4);
      DigitsToNatOfNatToDigits(year);
    }
  }

  /** Month and day fields: a '0' before values below ten. */
  function FormatTwoDigits(v: int): string
  {
    if v < 10 then "0" + IntToString(v) else IntToString(v)
  }

  lemma FormatTwoDigitsValue(v: int)
    requires 0 <= v < 100
    ensures var r := FormatTwoDigits(v); |r| == 2 && AllDigits(r) && DigitsToNat(r) == v
  {
    var r := FormatTwoDigits(v);
    if v < 10 {
      var zero := r[..1];
      assert zero == "0" && zero[..0] == "";
      assert DigitsToNat(zero) == 0;
      assert DigitsToNat(r) == DigitsToNat(zero) * 10 + DigitValue(r[1]);
    } else {
      assert Pow10(1) == 10 && Pow10(2) == 100;
      NatToDigitsLength(v, 2);
      DigitsToNatOfNatToDigits(v);
    }
  }

  /** LocalDate.toString: year, month and day joined by '-'. */
  function FormatDate(d: Date): (r: string)
  {
    FormatYear(d.year) + "-" + FormatTwoDigits(d.month) + "-" + FormatTwoDigits(d.day)
  }

  /** LocalDate.parse for unsigned four-digit years: "YYYY-MM-DD" with ASCII
      digits, rejected unless it names a day of the calendar. */
  function ParseDate(s: string): (r: Option<Date>)
    ensures r.Some? ==> IsFullDate(r.value)
    ensures r.Some? ==> |s| == 10 && IsDigit(s[0]) && IsDigit(s[9])
  {
    if |s| == 10 && s[4] == '-' && s[7] == '-'
       && AllDigits(s[..4]) && AllDigits(s[5..7]) && AllDigits(s[8..])
    then
      var d := Date(DigitsToNat(s[..4]), DigitsToNat(s[5..7]), DigitsToNat(s[8..]));
      assert DigitsToNat(s[..4]) <= 9999 by { DigitsBound(s[..4]); }
      assert IsDigit(s[..4][0]) && IsDigit(s[8..][1]);
      if IsValidDate(d) then Some(d) else None
    else None
  }

  lemma {:induction false} DigitsBound(s: string)
    requires AllDigits(s)
    ensures DigitsToNat(s) < Pow10(|s|)
    decreases |s|
  {
    if |s| > 0 {
      DigitsBound(s[..|s| - 1]);
    }
  }

  /** A written full date is parsed back to the same date. */
  lemma ParseFormatDate(d: Date)
    requires IsFullDate(d)
    ensures ParseDate(FormatDate(d)) == Some(d)
  {
    var y := FormatYear(d.year);
    var m := FormatTwoDigits(d.month);
    var dd := FormatTwoDigits(d.day);
    var s := FormatDate(d);
    assert s == y + "-" + m + "-" + dd;
    FormatYearOfFullYear(d.year);
    FormatTwoDigitsValue(d.month);
    FormatTwoDigitsValue(d.day);
    assert s[..4] == y && s[5..7] == m && s[8..] == dd;
  }
}
