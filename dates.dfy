/**
 * The calendar dates and times the handlers use. The listing filter of
 * internal/handlers/handlers.go parses `release_date` with Go's layout
 * "2006-01-02": four year digits, a hyphen, two month digits, a hyphen, two
 * day digits and nothing more, with the month in 1..12 and the day within the
 * month (the `full-date` of section 5.6 of RFC 3339, with the limits of
 * section 5.7, leap years included).
 */
module Dates {
  import opened Wrappers

  datatype Date = Date(year: int, month: int, day: int)

  /**
   * time.Time as the handlers see it: a date and an offset into the day in
   * nanoseconds, in UTC. Only equality and the zero value are used.
   */
  datatype Time = Time(date: Date, clock: nat)

  /** Go's zero time, January 1 of year 1 at midnight. */
  const ZeroTime: Time := Time(Date(1, 1, 1), 0)

  /** time.Time.IsZero. */
  predicate IsZero(t: Time)
  {
    t == ZeroTime
  }

  /** The time time.Parse returns for a date-only layout: midnight UTC of that date. */
  function Midnight(d: Date): Time
  {
    Time(d, 0)
  }

  /** The Gregorian leap-year rule. */
  predicate IsLeap(year: int)
  {
    year % 4 == 0 && (year % 100 != 0 || year % 400 == 0)
  }

  /** The number of days in a month of a year. */
  function DaysIn(month: int, year: int): (n: int)
    requires 1 <= month <= 12
    ensures 28 <= n <= 31
    ensures n == 29 <==> month == 2 && IsLeap(year)
  {
    if month == 2 then (if IsLeap(year) then 29 else 28)
    else if month == 4 || month == 6 || month == 9 || month == 11 then 30
    else 31
  }

  /** A date the layout can spell: a four-digit year and a day that exists in its month. */
  predicate ValidDate(d: Date)
  {
    0 <= d.year <= 9999 && 1 <= d.month <= 12 && 1 <= d.day <= DaysIn(d.month, d.year)
  }

  predicate IsDigit(c: char)
  {
    '0' <= c <= '9'
  }

  predicate AllDigits(s: string)
  {
    forall i :: 0 <= i < |s| ==> IsDigit(s[i])
  }

  function Pow10(n: nat): (p: nat)
    ensures p >= 1
  {
    if n == 0 then 1 else 10 * Pow10(n - 1)
  }

  /** The value of a string of decimal digits. */
  function Number(s: string): (n: nat)
    requires AllDigits(s)
    ensures n < Pow10(|s|)
  {
    if s == [] then 0
    else Number(s[..|s| - 1]) * 10 + ((s[|s| - 1] as int) - ('0' as int))
  }

  /** `n` in exactly `width` decimal digits, zero-padded on the left. */
  function Digits(n: nat, width: nat): (s: string)
    ensures |s| == width && AllDigits(s)
  {
    if width == 0 then []
    else Digits(n / 10, width - 1) + [(('0' as int) + n % 10) as char]
  }

  /** Reading back `width` padded digits gives the number, when it fits. */
  lemma {:induction false} NumberOfDigits(n: nat, width: nat)
    requires n < Pow10(width)
    ensures Number(Digits(n, width)) == n
  {
    if width > 0 {
      var s := Digits(n, width);
      assert s[..|s| - 1] == Digits(n / 10, width - 1);
      NumberOfDigits(n / 10, width - 1);
    }
  }

  /** Appending a digit `d` to the digits of `n` gives a number whose quotient is `n` and remainder `d`. */
  lemma LastDigit(n: nat, d: int)
    requires 0 <= d < 10
    ensures (n * 10 + d) / 10 == n && (n * 10 + d) % 10 == d
  {
  }

  /** Padding the value of a digit string to its own length gives the string back. */
  lemma {:induction false} DigitsOfNumber(s: string)
    requires AllDigits(s)
    ensures Digits(Number(s), |s|) == s
  {
    if s != [] {
      var init := s[..|s| - 1];
      DigitsOfNumber(init);
      var n, d := Number(init), (s[|s| - 1] as int) - ('0' as int);
      assert IsDigit(s[|s| - 1]);
      LastDigit(n, d);
      assert s == init + [s[|s| - 1]];
    }
  }

  /** The shape of the layout: digits everywhere except the two hyphens. */
  predicate LayoutShape(s: string)
  {
    |s| == 10 && s[4] == '-' && s[7] == '-' &&
    AllDigits(s[..4]) && AllDigits(s[5..7]) && AllDigits(s[8..])
  }

  /** time.Parse("2006-01-02", s); None stands for a parse error. */
  function ParseDate(s: string): (r: Option<Date>)
    ensures r.Some? ==> LayoutShape(s) && ValidDate(r.value)
  {
    if !LayoutShape(s) then None
    else
      var d := Date(Number(s[..4]), Number(s[5..7]), Number(s[8..]));
      if 1 <= d.month <= 12 && 1 <= d.day <= DaysIn(d.month, d.year) then Some(d) else None
  }

  /** time.Time.Format("2006-01-02") of a date. */
  function FormatDate(d: Date): (s: string)
    requires ValidDate(d)
    ensures LayoutShape(s)
  {
    var s := Digits(d.year, 4) + "-" + Digits(d.month, 2) + "-" + Digits(d.day, 2);
    assert s[..4] == Digits(d.year, 4) && s[5..7] == Digits(d.month, 2) && s[8..] == Digits(d.day, 2);
    s
  }

  /** Every date the layout can spell parses back to itself. */
  lemma ParseFormat(d: Date)
    requires ValidDate(d)
    ensures ParseDate(FormatDate(d)) == Some(d)
  {
    var s := FormatDate(d);
    assert s[..4] == Digits(d.year, 4) && s[5..7] == Digits(d.month, 2) && s[8..] == Digits(d.day, 2);
    NumberOfDigits(d.year, 4);
    NumberOfDigits(d.month, 2);
    NumberOfDigits(d.day, 2);
  }

  /** Every string that parses is the canonical spelling of its date. */
  lemma FormatParse(s: string)
    requires ParseDate(s).Some?
    ensures FormatDate(ParseDate(s).value) == s
  {
    var d := ParseDate(s).value;
    assert d == Date(Number(s[..4]), Number(s[5..7]), Number(s[8..]));
    DigitsOfNumber(s[..4]);
    DigitsOfNumber(s[5..7]);
    DigitsOfNumber(s[8..]);
    var t := FormatDate(d);
    FormatPieces(d);
    SamePieces(t, s);
  }

  /** The formatting is the padded year, month and day with a hyphen between them. */
  lemma FormatPieces(d: Date)
    requires ValidDate(d)
    ensures var t := FormatDate(d);
      t[..4] == Digits(d.year, 4) && t[4] == '-' && t[5..7] == Digits(d.month, 2) && t[7] == '-' && t[8..] == Digits(d.day, 2)
  {
  }

  /** Two strings of the layout's length agree when their digit groups and their hyphen positions do. */
  lemma SamePieces(t: string, s: string)
    requires |t| == 10 && |s| == 10 && t[4] == s[4] && t[7] == s[7]
    requires t[..4] == s[..4] && t[5..7] == s[5..7] && t[8..] == s[8..]
    ensures t == s
  {
    forall i | 0 <= i < 10 ensures t[i] == s[i] {
      if i < 4 {
        assert t[i] == t[..4][i];
      } else if 4 < i < 7 {
        assert t[i] == t[5..7][i - 5];
      } else if 7 < i {
        assert t[i] == t[8..][i - 8];
      }
    }
  }

  /** February 29 of a four-digit year parses exactly in leap years, and then gives that date. */
  lemma LeapDay(year: nat)
    requires year <= 9999
    ensures ValidDate(Date(year, 2, 29)) <==> IsLeap(year)
    ensures ParseDate(Digits(year, 4) + "-02-29") == if IsLeap(year) then Some(Date(year, 2, 29)) else None
  {
    var s := Digits(year, 4) + "-02-29";
    assert s[..4] == Digits(year, 4) && s[5..7] == "02" && s[8..] == "29" && s[4] == '-' && s[7] == '-';
    NumberOfDigits(year, 4);
    assert Number("02") == 2 && Number("29") == 29;
  }
}
