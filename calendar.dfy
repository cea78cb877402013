/**
 * The proleptic Gregorian calendar and the `%Y%m%d` layout. A date becomes a
 * day number (days since 0001-01-01), so the difference of two timestamps at
 * midnight, in whole days, is a difference of day numbers.
 */
module Calendar {
  import opened Wrappers
  import opened Text

  /** Leap years follow the 4/100/400 rule. */
  predicate IsLeapYear(y: int)
  {
    y % 4 == 0 && (y % 100 != 0 || y % 400 == 0)
  }

  function DaysInYear(y: int): int
  {
    if IsLeapYear(y) then 366 else 365
  }

  function DaysInMonth(y: int, m: int): int
    requires 1 <= m <= 12
  {
    if m == 2 then (if IsLeapYear(y) then 29 else 28)
    else if m == 4 || m == 6 || m == 9 || m == 11 then 30
    else 31
  }

  /** A calendar date that Python's `datetime` accepts (years 1 to 9999). */
  predicate ValidDate(y: int, m: int, d: int)
  {
    1 <= y <= 9999 && 1 <= m <= 12 && 1 <= d <= DaysInMonth(y, m)
  }

  /** Days in the years before `y`, counted from year 1. */
  function DaysBeforeYear(y: int): int
    requires y >= 1
  {
    var p := y - 1;
    365 * p + p / 4 - p / 100 + p / 400
  }

  /** Days in the months of year `y` before month `m` (month 13 stands for the year's end). */
  function DaysBeforeMonth(y: int, m: int): int
    requires 1 <= m <= 13
  {
    var common :=
      if m == 1 then 0 else if m == 2 then 31 else if m == 3 then 59
      else if m == 4 then 90 else if m == 5 then 120 else if m == 6 then 151
      else if m == 7 then 181 else if m == 8 then 212 else if m == 9 then 243
      else if m == 10 then 273 else if m == 11 then 304 else if m == 12 then 334
      else 365;
    common + (if m > 2 && IsLeapYear(y) then 1 else 0)
  }

  /** Day number of a date: 0 for 0001-01-01. */
  function DayNumber(y: int, m: int, d: int): int
    requires ValidDate(y, m, d)
  {
    DaysBeforeYear(y) + DaysBeforeMonth(y, m) + d - 1
  }

  /** The cumulative month table agrees with the month lengths. */
  lemma MonthTiling(y: int, m: int)
    requires 1 <= m <= 12
    ensures DaysBeforeMonth(y, m + 1) == DaysBeforeMonth(y, m) + DaysInMonth(y, m)
    ensures DaysBeforeMonth(y, 13) == DaysInYear(y)
  {
  }

  lemma DivStep(p: int, k: int)
    requires p >= 0 && (k == 4 || k == 100 || k == 400)
    ensures (p + 1) / k - p / k == if (p + 1) % k == 0 then 1 else 0
  {
  }

  /** A multiple of 400 is a multiple of 100, and a multiple of 100 one of 4. */
  lemma DivisorChain(y: int)
    ensures y % 400 == 0 ==> y % 100 == 0
    ensures y % 100 == 0 ==> y % 4 == 0
  {
    if y % 400 == 0 {
      MultipleMod(y / 400, 4, 100);
    }
    if y % 100 == 0 {
      MultipleMod(y / 100, 25, 4);
    }
  }

  lemma MultipleMod(q: int, c: int, k: int)
    requires (c == 4 && k == 100) || (c == 25 && k == 4)
    ensures (q * c * k) % k == 0
  {
    var n := q * c;
    assert n * k == q * c * k;
    assert (n * k) / k == n;
  }

  /** Consecutive years are `DaysInYear` apart. */
  lemma YearStep(y: int)
    requires y >= 1
    ensures DaysBeforeYear(y + 1) == DaysBeforeYear(y) + DaysInYear(y)
  {
    var p := y - 1;
    var a, b, c := y / 4 - p / 4, y / 100 - p / 100, y / 400 - p / 400;
    DivStep(p, 4);
    DivStep(p, 100);
    DivStep(p, 400);
    DivisorChain(y);
    assert DaysBeforeYear(y + 1) - DaysBeforeYear(y) == 365 + a - b + c;
    assert IsLeapYear(y) <==> a - b + c == 1;
  }

  lemma {:induction false} DaysBeforeYearMonotone(y: int, z: int)
    requires 1 <= y <= z
    ensures DaysBeforeYear(y) + (z - y) * 365 <= DaysBeforeYear(z)
    decreases z - y
  {
    if y < z {
      DaysBeforeYearMonotone(y, z - 1);
      YearStep(z - 1);
    }
  }

  lemma {:induction false} DaysBeforeMonthMonotone(y: int, m: int, n: int)
    requires 1 <= m <= n <= 13
    ensures DaysBeforeMonth(y, m) + (n - m) * 28 <= DaysBeforeMonth(y, n)
    decreases n - m
  {
    if m < n {
      DaysBeforeMonthMonotone(y, m, n - 1);
      MonthTiling(y, n - 1);
    }
  }

  /** A date's day number lies inside its year and inside its month. */
  lemma DayNumberBounds(y: int, m: int, d: int)
    requires ValidDate(y, m, d)
    ensures DaysBeforeYear(y) <= DayNumber(y, m, d) < DaysBeforeYear(y + 1)
    ensures DaysBeforeYear(y) + DaysBeforeMonth(y, m) <= DayNumber(y, m, d)
    ensures DayNumber(y, m, d) < DaysBeforeYear(y) + DaysBeforeMonth(y, m + 1)
  {
    MonthTiling(y, m);
    DaysBeforeMonthMonotone(y, m + 1, 13);
    YearStep(y);
  }

  predicate DateBefore(y: int, m: int, d: int, y': int, m': int, d': int)
  {
    y < y' || (y == y' && (m < m' || (m == m' && d < d')))
  }

  /** Every date of an earlier year has a smaller day number. */
  lemma EarlierYear(y: int, m: int, d: int, y': int, m': int, d': int)
    requires ValidDate(y, m, d) && ValidDate(y', m', d') && y < y'
    ensures DayNumber(y, m, d) < DayNumber(y', m', d')
  {
    DayNumberBounds(y, m, d);
    DayNumberBounds(y', m', d');
    DaysBeforeYearMonotone(y + 1, y');
  }

  /** Within a year, every date of an earlier month has a smaller day number. */
  lemma EarlierMonth(y: int, m: int, d: int, m': int, d': int)
    requires ValidDate(y, m, d) && ValidDate(y, m', d') && m < m'
    ensures DayNumber(y, m, d) < DayNumber(y, m', d')
  {
    DayNumberBounds(y, m, d);
    DaysBeforeMonthMonotone(y, m + 1, m');
  }

  /**
   * Day numbers order dates exactly as the calendar does; in particular two
   * valid dates share a day number only when they are the same date.
   */
  lemma DayNumberOrder(y: int, m: int, d: int, y': int, m': int, d': int)
    requires ValidDate(y, m, d) && ValidDate(y', m', d')
    ensures DateBefore(y, m, d, y', m', d') <==> DayNumber(y, m, d) < DayNumber(y', m', d')
    ensures DayNumber(y, m, d) == DayNumber(y', m', d') ==> y == y' && m == m' && d == d'
  {
    if y < y' {
      EarlierYear(y, m, d, y', m', d');
    } else if y' < y {
      EarlierYear(y', m', d', y, m, d);
    } else if m < m' {
      EarlierMonth(y, m, d, m', d');
    } else if m' < m {
      EarlierMonth(y, m', d', m, d);
    }
  }

  /** The calendar successor of a date. */
  function NextDay(y: int, m: int, d: int): (int, int, int)
    requires ValidDate(y, m, d)
  {
    if d < DaysInMonth(y, m) then (y, m, d + 1)
    else if m < 12 then (y, m + 1, 1)
    else (y + 1, 1, 1)
  }

  /** Consecutive calendar days have consecutive day numbers. */
  lemma NextDayIsOneLater(y: int, m: int, d: int)
    requires ValidDate(y, m, d) && !(y == 9999 && m == 12 && d == 31)
    ensures var (y', m', d') := NextDay(y, m, d);
      ValidDate(y', m', d') && DayNumber(y', m', d') == DayNumber(y, m, d) + 1
  {
    MonthTiling(y, m);
    if d == DaysInMonth(y, m) && m == 12 {
      YearStep(y);
    }
  }

  /**
   * `%Y%m%d` on an eight-digit string: digits 1-4 are the year, 5-6 the month
   * and 7-8 the day; a combination that names no calendar date is missing.
   */
  function ParseYmd(s: string): Option<int>
    requires IsEightDigits(s)
  {
    var y, m, d := DigitsValue(s[..4]), DigitsValue(s[4..6]), DigitsValue(s[6..]);
    if ValidDate(y, m, d) then Some(DayNumber(y, m, d)) else None
  }

  /** `%Y%m%d` reads the year, month and day from the three fields of the string. */
  lemma ParseYmdOf(s: string, y: int, m: int, d: int)
    requires IsEightDigits(s)
    requires DigitsValue(s[..4]) == y && DigitsValue(s[4..6]) == m && DigitsValue(s[6..]) == d
    ensures ParseYmd(s) == if ValidDate(y, m, d) then Some(DayNumber(y, m, d)) else None
  {
  }

  lemma SplitUnique(a: int, b: int, c: int, e: int, k: int)
    requires k == 100 || k == 10000
    requires 0 <= b < k && 0 <= e < k && a * k + b == c * k + e
    ensures a == c && b == e
  {
  }

  /**
   * A date stored as the integer YYYYMMDD (a four-digit year) passes the
   * eight-digit pattern once rendered, and `%Y%m%d` reads it back as that date.
   */
  lemma {:induction false} StoredDateRoundTrip(y: int, m: int, d: int)
    requires ValidDate(y, m, d) && y >= 1000
    ensures IsEightDigits(IntToString(y * 10000 + m * 100 + d))
    ensures ParseYmd(IntToString(y * 10000 + m * 100 + d)) == Some(DayNumber(y, m, d))
  {
    var n := y * 10000 + m * 100 + d;
    EightDigitsIff(n);
    var s := IntToString(n);
    assert s == NatToString(n);
    assert Pow10(2) == 100 && Pow10(4) == 10000 by {
      assert Pow10(1) == 10;
    }
    DigitsValueSplit(s, 4);
    var tail := s[4..];
    DigitsValueSplit(tail, 2);
    assert tail[..2] == s[4..6] && tail[2..] == s[6..];
    SplitUnique(DigitsValue(s[..4]), DigitsValue(tail), y, m * 100 + d, 10000);
    SplitUnique(DigitsValue(s[4..6]), DigitsValue(s[6..]), m, d, 100);
  }

  /**
   * The other direction: an eight-digit string without a leading zero that
   * `%Y%m%d` reads as a date is exactly the rendering of that date stored as
   * the integer YYYYMMDD.
   */
  lemma ParseYmdRendersBack(s: string)
    requires IsEightDigits(s) && s[0] != '0' && ParseYmd(s).Some?
    ensures var y, m, d := DigitsValue(s[..4]), DigitsValue(s[4..6]), DigitsValue(s[6..]);
      && ValidDate(y, m, d) && y >= 1000
      && ParseYmd(s) == Some(DayNumber(y, m, d))
      && IntToString(y * 10000 + m * 100 + d) == s
  {
    EightDigitFields(s);
    assert s[..4][0] == s[0];
    LeadingDigitBound(s[..4]);
    assert Pow10(3) == 1000 by {
      assert Pow10(1) == 10;
    }
    NatToStringOfDigits(s);
  }

  /**
   * `%Y%m%d` on a rendered eight-digit integer: it yields a date exactly when
   * the integer is YYYYMMDD for some calendar date, and then that date.
   */
  lemma ParseStoredInteger(n: int)
    requires 10000000 <= n <= 99999999
    ensures IsEightDigits(IntToString(n))
    ensures ParseYmd(IntToString(n)).Some? <==> exists y, m, d :: ValidDate(y, m, d) && n == y * 10000 + m * 100 + d
    ensures forall y, m, d :: ValidDate(y, m, d) && n == y * 10000 + m * 100 + d ==>
      ParseYmd(IntToString(n)) == Some(DayNumber(y, m, d))
  {
    EightDigitsIff(n);
    if ParseYmd(IntToString(n)).Some? {
      ParsedStoredIsDate(n);
    }
    forall y, m, d | ValidDate(y, m, d) && n == y * 10000 + m * 100 + d
      ensures ParseYmd(IntToString(n)) == Some(DayNumber(y, m, d))
    {
      StoredDateRoundTrip(y, m, d);
    }
  }

  /** A rendered eight-digit integer that `%Y%m%d` reads as a date is that date stored as YYYYMMDD. */
  lemma ParsedStoredIsDate(n: int)
    requires 10000000 <= n <= 99999999
    requires IsEightDigits(IntToString(n)) && ParseYmd(IntToString(n)).Some?
    ensures exists y, m, d :: ValidDate(y, m, d) && n == y * 10000 + m * 100 + d
  {
    var s := IntToString(n);
    assert s[0] != '0' by {
      assert s == NatToString(n);
    }
    ParseYmdRendersBack(s);
    var y, m, d := DigitsValue(s[..4]), DigitsValue(s[4..6]), DigitsValue(s[6..]);
    IntToStringInjective(n, y * 10000 + m * 100 + d);
  }

  /** Two integers with the same rendering are equal. */
  lemma IntToStringInjective(a: int, b: int)
    requires IntToString(a) == IntToString(b)
    ensures a == b
  {
    ParseIntToString(a);
    ParseIntToString(b);
  }

  /** The value of eight digits is the year, month and day fields placed positionally. */
  lemma EightDigitFields(s: string)
    requires IsEightDigits(s)
    ensures DigitsValue(s) == DigitsValue(s[..4]) * 10000 + DigitsValue(s[4..6]) * 100 + DigitsValue(s[6..])
  {
    assert Pow10(2) == 100 && Pow10(4) == 10000 by {
      assert Pow10(1) == 10;
    }
    DigitsValueSplit(s, 4);
    var tail := s[4..];
    DigitsValueSplit(tail, 2);
    assert tail[..2] == s[4..6] && tail[2..] == s[6..];
  }

  /** Digits with a non-zero first digit are worth at least the matching power of ten. */
  lemma LeadingDigitBound(s: string)
    requires |s| >= 1 && AllDigits(s) && s[0] != '0'
    ensures DigitsValue(s) >= Pow10(|s| - 1)
  {
    DigitsValueSplit(s, 1);
    var h := s[..1];
    assert h[..0] == [] && h[0] == s[0];
    assert DigitsValue(h) >= 1;
    MultiplyAtLeast(DigitsValue(h), Pow10(|s| - 1));
  }

  lemma MultiplyAtLeast(a: nat, p: nat)
    requires a >= 1
    ensures a * p >= p
  {
  }
}
