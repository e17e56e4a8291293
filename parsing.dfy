/**
 The two text conversions the cleaning applies cell by cell: pd.to_numeric on
 the Salary column and pd.to_datetime with format '%Y-%m-%d' on the
 Date_of_Birth column, both with errors='coerce', so a failed parse is a
 missing value rather than an exception. Beside each parser sits the writer
 that DataFrame.to_csv uses for the converted value, and a round-trip lemma.
 */
module Parsing {
  import opened Frame

  predicate IsDigit(c: char)
  {
    '0' <= c <= '9'
  }

  predicate AllDigits(s: string)
  {
    forall i :: 0 <= i < |s| ==> IsDigit(s[i])
  }

  function DigitValue(c: char): (d: nat)
    requires IsDigit(c)
    ensures d < 10
  {
    c as int - '0' as int
  }

  function DigitChar(d: nat): (c: char)
    requires d < 10
    ensures IsDigit(c) && DigitValue(c) == d
  {
    ('0' as int + d) as char
  }

  /** The value of a string of decimal digits, most significant digit first. */
  function DigitsValue(s: string): nat
    requires AllDigits(s)
  {
    if s == [] then 0 else DigitsValue(s[..|s| - 1]) * 10 + DigitValue(s[|s| - 1])
  }

  /** The value of the digits written after a decimal point. */
  function FractionValue(s: string): (r: real)
    requires AllDigits(s)
    ensures 0.0 <= r < 1.0
  {
    if s == [] then 0.0 else (DigitValue(s[0]) as real + FractionValue(s[1..])) / 10.0
  }

  /** The position of the first `c` in `s`, or |s| when there is none. */
  function IndexOf(s: string, c: char): (k: nat)
    ensures k <= |s|
    ensures k < |s| ==> s[k] == c
    ensures forall j :: 0 <= j < k ==> s[j] != c
  {
    if s == [] then 0 else if s[0] == c then 0 else 1 + IndexOf(s[1..], c)
  }

  // ---------------------------------------------------------------------
  // pd.to_numeric(..., errors='coerce') on one text cell (API.py:56)
  // ---------------------------------------------------------------------

  /** A number written as an optional sign, decimal digits and at most one
      decimal point, with at least one digit; any other text is not a number. */
  function ParseNumber(s: string): (r: Option<real>)
    ensures r.Some? ==> |s| > 0
    ensures r.Some? && r.value < 0.0 ==> s[0] == '-'
  {
    if |s| > 0 && s[0] == '-' then
      match ParseUnsigned(s[1..])
      case Some(x) => Some(-x)
      case None => None
    else if |s| > 0 && s[0] == '+' then ParseUnsigned(s[1..])
    else ParseUnsigned(s)
  }

  /** Digits with at most one decimal point and at least one digit. */
  function ParseUnsigned(body: string): (r: Option<real>)
    ensures r.Some? ==> |body| > 0 && r.value >= 0.0
  {
    var dot := IndexOf(body, '.');
    var whole := body[..dot];
    var fraction := if dot < |body| then body[dot + 1..] else [];
    if AllDigits(whole) && AllDigits(fraction) && |whole| + |fraction| > 0 then
      Some(DigitsValue(whole) as real + FractionValue(fraction))
    else
      None
  }

  /** Decimal digits of a natural number, without leading zeros. */
  function NatText(n: nat): (s: string)
    ensures |s| > 0 && AllDigits(s)
  {
    if n < 10 then [DigitChar(n)] else NatText(n / 10) + [DigitChar(n % 10)]
  }

  /** How to_csv writes a whole-number value: its digits, with '-' when negative. */
  function IntText(x: int): string
  {
    if x < 0 then "-" + NatText(-x) else NatText(x)
  }

  lemma {:induction false} NatTextValue(n: nat)
    ensures DigitsValue(NatText(n)) == n
  {
    if n >= 10 {
      var s := NatText(n);
      assert s[..|s| - 1] == NatText(n / 10);
      NatTextValue(n / 10);
    }
  }

  /** The unsigned part of a whole number as to_csv writes it, with or without
      the trailing ".0" of a float column. */
  lemma UnsignedRoundTrip(n: nat)
    ensures ParseUnsigned(NatText(n)) == Some(n as real)
    ensures ParseUnsigned(NatText(n) + ".0") == Some(n as real)
  {
    var digits := NatText(n);
    NatTextValue(n);
    assert IndexOf(digits, '.') == |digits| by {
      assert forall j :: 0 <= j < |digits| ==> digits[j] != '.';
    }
    assert digits[..|digits|] == digits;
    var withDot := digits + ".0";
    assert IndexOf(withDot, '.') == |digits| by {
      assert withDot[|digits|] == '.';
      assert forall j :: 0 <= j < |digits| ==> withDot[j] == digits[j] != '.';
    }
    assert withDot[..|digits|] == digits;
    assert |withDot| == |digits| + 2 && withDot[|digits| + 1] == '0';
    assert withDot[|digits| + 1..] == "0";
    assert FractionValue("0") == 0.0 by {
      assert "0"[1..] == [];
    }
  }

  /** Reading back a whole number as to_csv writes it, with or without the
      trailing ".0" of a float column, gives the number again. */
  lemma NumberRoundTrip(x: int)
    ensures ParseNumber(IntText(x)) == Some(x as real)
    ensures ParseNumber(IntText(x) + ".0") == Some(x as real)
  {
    var m: nat := if x < 0 then -x else x;
    var digits := NatText(m);
    UnsignedRoundTrip(m);
    if x < 0 {
      assert IntText(x)[1..] == digits;
      assert (IntText(x) + ".0")[1..] == digits + ".0";
    } else {
      assert IntText(x) == digits && IsDigit(digits[0]);
      assert (digits + ".0")[0] == digits[0];
    }
  }

  // ---------------------------------------------------------------------
  // pd.to_datetime(..., format='%Y-%m-%d', errors='coerce') (API.py:42)
  // ---------------------------------------------------------------------

  predicate IsLeapYear(y: int)
  {
    y % 4 == 0 && (y % 100 != 0 || y % 400 == 0)
  }

  function DaysInMonth(y: int, m: int): (n: int)
    requires 1 <= m <= 12
    ensures 28 <= n <= 31
  {
    if m == 2 then (if IsLeapYear(y) then 29 else 28)
    else if m == 4 || m == 6 || m == 9 || m == 11 then 30
    else 31
  }

  /** A day that exists in the proleptic Gregorian calendar. */
  predicate ValidDate(d: Date)
  {
    1 <= d.month <= 12 && 1 <= d.day <= DaysInMonth(d.year, d.month)
  }

  /** `a` is the same day as `b` or a later one. */
  predicate NotBefore(a: Date, b: Date)
  {
    a.year > b.year
    || (a.year == b.year && (a.month > b.month || (a.month == b.month && a.day >= b.day)))
  }

  /** The first and the last midnight a nanosecond pandas Timestamp can hold;
      a date outside them is coerced to NaT. */
  const FIRST_TIMESTAMP_DATE: Date := Date(1677, 9, 22)
  const LAST_TIMESTAMP_DATE: Date := Date(2262, 4, 11)

  predicate InTimestampRange(d: Date)
  {
    NotBefore(d, FIRST_TIMESTAMP_DATE) && NotBefore(LAST_TIMESTAMP_DATE, d)
  }

  /** '%Y-%m-%d' as strptime matches it: four year digits, a month and a day of
      one or two digits each, separated by '-', and nothing else; the date must
      exist and fit a Timestamp. */
  function ParseDate(s: string): (r: Option<Date>)
    ensures r.Some? ==> ValidDate(r.value) && InTimestampRange(r.value)
    ensures r.Some? ==> 8 <= |s| <= 10 && AllDigits(s[..4]) && s[4] == '-'
  {
    if |s| < 8 || s[4] != '-' then None
    else
      var rest := s[5..];
      var sep := IndexOf(rest, '-');
      var year, month := s[..4], rest[..sep];
      var day := if sep < |rest| then rest[sep + 1..] else [];
      if sep < |rest| && AllDigits(year) && AllDigits(month) && AllDigits(day)
         && 1 <= |month| <= 2 && 1 <= |day| <= 2
      then
        var d := Date(DigitsValue(year), DigitsValue(month), DigitsValue(day));
        if ValidDate(d) && InTimestampRange(d) then Some(d) else None
      else
        None
  }

  function Pow10(w: nat): (p: nat)
    ensures p >= 1
  {
    if w == 0 then 1 else 10 * Pow10(w - 1)
  }

  /** The last `w` decimal digits of `n`, zero-padded on the left. */
  function Padded(n: nat, w: nat): (s: string)
    requires n < Pow10(w)
    ensures |s| == w && AllDigits(s)
  {
    if w == 0 then [] else Padded(n / 10, w - 1) + [DigitChar(n % 10)]
  }

  lemma {:induction false} PaddedValue(n: nat, w: nat)
    requires n < Pow10(w)
    ensures DigitsValue(Padded(n, w)) == n
  {
    if w > 0 {
      var s := Padded(n, w);
      assert s[..|s| - 1] == Padded(n / 10, w - 1);
      PaddedValue(n / 10, w - 1);
    }
  }

  /** How to_csv writes a datetime column whose values are all midnights. */
  function FormatDate(d: Date): string
    requires ValidDate(d) && InTimestampRange(d)
  {
    Padded(d.year, 4) + "-" + Padded(d.month, 2) + "-" + Padded(d.day, 2)
  }

  /** Reading back a date that to_csv wrote gives the same date. */
  lemma DateRoundTrip(d: Date)
    requires ValidDate(d) && InTimestampRange(d)
    ensures ParseDate(FormatDate(d)) == Some(d)
  {
    var y, m, dd := Padded(d.year, 4), Padded(d.month, 2), Padded(d.day, 2);
    PaddedValue(d.year, 4);
    PaddedValue(d.month, 2);
    PaddedValue(d.day, 2);
    var s := FormatDate(d);
    assert s[..4] == y;
    var rest := s[5..];
    assert rest == m + "-" + dd;
    assert IsDigit(rest[0]) && IsDigit(rest[1]) && rest[2] == '-';
    assert IndexOf(rest, '-') == 2 by {
      assert rest[0] != '-' && rest[1] != '-';
      assert IndexOf(rest[1..], '-') == 1 by {
        assert rest[1..][0] == rest[1];
        assert rest[1..][1..] == rest[2..];
      }
    }
    assert rest[..2] == m;
    assert rest[3..] == dd;
  }
}
