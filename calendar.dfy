/** Calendar dates as Python's `datetime.date` sees them: a proleptic Gregorian
    day ordinal (1 is 0001-01-01, the largest is 9999-12-31), the weekday with
    Monday = 0, and the `YYYY-MM-DD` rendering used for labels, bounds and the
    publish marker. */
module Calendar {

  /** Ordinal of 9999-12-31, Python's `date.max`. */
  const MaxOrdinal: int := 3652059

  /** A date Python can represent; leaving this range raises OverflowError. */
  type Date = n: int | 1 <= n <= MaxOrdinal witness 1

  const Saturday: nat := 5
  const Sunday: nat := 6

  /** `date.weekday()`: Monday = 0 ... Sunday = 6; 0001-01-01 was a Monday. */
  function Weekday(n: int): (w: nat)
    ensures w < 7
  {
    (n + 6) % 7
  }

  predicate IsLeapYear(y: int)
  {
    y % 4 == 0 && (y % 100 != 0 || y % 400 == 0)
  }

  function DaysInYear(y: int): nat
  {
    if IsLeapYear(y) then 366 else 365
  }

  function DaysInMonth(y: int, m: int): (days: nat)
    requires 1 <= m <= 12
    ensures 28 <= days <= 31
  {
    if m == 2 then (if IsLeapYear(y) then 29 else 28)
    else if m == 4 || m == 6 || m == 9 || m == 11 then 30
    else 31
  }

  /** Number of days in the years before year `y` (Python's `_days_before_year`). */
  function DaysBeforeYear(y: int): int
  {
    var p := y - 1;
    365 * p + p / 4 - p / 100 + p / 400
  }

  /** Number of days in the months of year `y` before month `m`. */
  function DaysBeforeMonth(y: int, m: int): nat
    requires 1 <= m <= 13
  {
    if m == 1 then 0 else DaysBeforeMonth(y, m - 1) + DaysInMonth(y, m - 1)
  }

  datatype Civil = Civil(year: int, month: int, day: int)
  {
    predicate Valid()
    {
      1 <= year <= 9999 && 1 <= month <= 12 && 1 <= day <= DaysInMonth(year, month)
    }

    /** The day ordinal of this calendar date (Python's `_ymd2ord`). */
    function Ordinal(): int
      requires 1 <= month <= 12
    {
      DaysBeforeYear(year) + DaysBeforeMonth(year, month) + day
    }
  }

  /** Moving from year `y - 1` to `y` adds one to each of the quotients in
      `DaysBeforeYear` exactly when the divisor divides `y`. */
  lemma QuotientStep4(y: int)
    requires y >= 1
    ensures y / 4 == (y - 1) / 4 + (if y % 4 == 0 then 1 else 0)
  {
  }

  lemma QuotientStep100(y: int)
    requires y >= 1
    ensures y / 100 == (y - 1) / 100 + (if y % 100 == 0 then 1 else 0)
  {
  }

  lemma QuotientStep400(y: int)
    requires y >= 1
    ensures y / 400 == (y - 1) / 400 + (if y % 400 == 0 then 1 else 0)
  {
  }

  lemma YearStep(y: int)
    requires y >= 1
    ensures DaysBeforeYear(y + 1) == DaysBeforeYear(y) + DaysInYear(y)
  {
    QuotientStep4(y);
    QuotientStep100(y);
    QuotientStep400(y);
    var p := y - 1;
    assert DaysBeforeYear(y) == 365 * p + p / 4 - p / 100 + p / 400;
    assert DaysBeforeYear(y + 1) == 365 * y + y / 4 - y / 100 + y / 400;
  }

  lemma MonthsFillYear(y: int)
    ensures DaysBeforeMonth(y, 13) == DaysInYear(y)
  {
    var feb := DaysInMonth(y, 2);
    assert DaysBeforeMonth(y, 2) == 31;
    assert DaysBeforeMonth(y, 3) == 31 + feb;
    assert DaysBeforeMonth(y, 4) == 62 + feb;
    assert DaysBeforeMonth(y, 5) == 92 + feb;
    assert DaysBeforeMonth(y, 6) == 123 + feb;
    assert DaysBeforeMonth(y, 7) == 153 + feb;
    assert DaysBeforeMonth(y, 8) == 184 + feb;
    assert DaysBeforeMonth(y, 9) == 215 + feb;
    assert DaysBeforeMonth(y, 10) == 245 + feb;
    assert DaysBeforeMonth(y, 11) == 276 + feb;
    assert DaysBeforeMonth(y, 12) == 306 + feb;
  }

  /** Walks whole years forward from year `y` while `rem` days remain. */
  function FindYear(y: int, rem: int): (int, int)
    requires y >= 1 && rem >= 0
    decreases rem
  {
    if rem < DaysInYear(y) then (y, rem) else FindYear(y + 1, rem - DaysInYear(y))
  }

  /** The walk stops inside a year, having consumed only whole years. */
  lemma {:induction false} FindYearSpec(y: int, rem: int)
    requires y >= 1 && rem >= 0
    ensures var r := FindYear(y, rem);
      && r.0 >= y && 0 <= r.1 < DaysInYear(r.0)
      && DaysBeforeYear(r.0) + r.1 == DaysBeforeYear(y) + rem
    decreases rem
  {
    if rem >= DaysInYear(y) {
      YearStep(y);
      FindYearSpec(y + 1, rem - DaysInYear(y));
    }
  }

  /** Walks whole months forward from month `m` of year `y` while `rem` days remain. */
  function FindMonth(y: int, m: int, rem: int): (int, int)
    requires 1 <= m <= 12 && 0 <= rem
    requires DaysBeforeMonth(y, m) + rem < DaysInYear(y)
    decreases 12 - m
  {
    if rem < DaysInMonth(y, m) then (m, rem)
    else if m == 12 then
      MonthsFillYear(y);
      assert false;
      (m, rem)
    else FindMonth(y, m + 1, rem - DaysInMonth(y, m))
  }

  /** The walk stops inside a month, having consumed only whole months. */
  lemma {:induction false} FindMonthSpec(y: int, m: int, rem: int)
    requires 1 <= m <= 12 && 0 <= rem
    requires DaysBeforeMonth(y, m) + rem < DaysInYear(y)
    ensures var r := FindMonth(y, m, rem);
      && m <= r.0 <= 12 && 0 <= r.1 < DaysInMonth(y, r.0)
      && DaysBeforeMonth(y, r.0) + r.1 == DaysBeforeMonth(y, m) + rem
    decreases 12 - m
  {
    if rem < DaysInMonth(y, m) {
    } else if m == 12 {
      MonthsFillYear(y);
      assert false;
    } else {
      assert DaysBeforeMonth(y, m + 1) == DaysBeforeMonth(y, m) + DaysInMonth(y, m);
      FindMonthSpec(y, m + 1, rem - DaysInMonth(y, m));
    }
  }

  lemma YearsBeyondRange(y: int)
    requires y >= 10000
    ensures DaysBeforeYear(y) >= MaxOrdinal
  {
    var p := y - 1;
    assert p / 4 >= p / 100;
  }

  /** The calendar date of ordinal `n` (what Python's `date.fromordinal` computes). */
  function ToCivil(n: Date): Civil
  {
    FindYearSpec(1, n - 1);
    var (y, rem) := FindYear(1, n - 1);
    MonthsFillYear(y);
    var (m, d) := FindMonth(y, 1, rem);
    Civil(y, m, d + 1)
  }

  /** `ToCivil(n)` is a valid calendar date whose ordinal is `n`. */
  lemma ToCivilSpec(n: Date)
    ensures ToCivil(n).Valid()
    ensures ToCivil(n).Ordinal() == n
  {
    FindYearSpec(1, n - 1);
    var (y, rem) := FindYear(1, n - 1);
    assert y <= 9999 by {
      if y >= 10000 { YearsBeyondRange(y); }
    }
    MonthsFillYear(y);
    FindMonthSpec(y, 1, rem);
  }

  lemma {:induction false} DaysBeforeYearMonotone(y1: int, y2: int)
    requires 1 <= y1 <= y2
    ensures DaysBeforeYear(y1) + (y2 - y1) * 365 <= DaysBeforeYear(y2)
    decreases y2 - y1
  {
    if y1 < y2 {
      YearStep(y1);
      DaysBeforeYearMonotone(y1 + 1, y2);
    }
  }

  lemma {:induction false} DaysBeforeMonthMonotone(y: int, m1: int, m2: int)
    requires 1 <= m1 <= m2 <= 13
    ensures DaysBeforeMonth(y, m1) + (m2 - m1) * 28 <= DaysBeforeMonth(y, m2)
    decreases m2 - m1
  {
    if m1 < m2 {
      DaysBeforeMonthMonotone(y, m1, m2 - 1);
    }
  }

  /** Two valid calendar dates with the same ordinal are the same date, so
      `Ordinal` and `ToCivil` are mutually inverse. */
  lemma CivilOrdinalInjective(c1: Civil, c2: Civil)
    requires c1.Valid() && c2.Valid() && c1.Ordinal() == c2.Ordinal()
    ensures c1 == c2
  {
    if c1.year < c2.year {
      OrdinalOrderedByYear(c1, c2);
      assert false;
    } else if c2.year < c1.year {
      OrdinalOrderedByYear(c2, c1);
      assert false;
    } else if c1.month < c2.month {
      OrdinalOrderedByMonth(c1, c2);
      assert false;
    } else if c2.month < c1.month {
      OrdinalOrderedByMonth(c2, c1);
      assert false;
    }
  }

  /** A valid date's ordinal lies within its year. */
  lemma OrdinalInYear(c: Civil)
    requires c.Valid()
    ensures DaysBeforeYear(c.year) < c.Ordinal() <= DaysBeforeYear(c.year + 1)
  {
    DaysBeforeMonthMonotone(c.year, c.month + 1, 13);
    MonthsFillYear(c.year);
    YearStep(c.year);
  }

  lemma OrdinalOrderedByYear(a: Civil, b: Civil)
    requires a.Valid() && b.Valid() && a.year < b.year
    ensures a.Ordinal() < b.Ordinal()
  {
    OrdinalInYear(a);
    OrdinalInYear(b);
    DaysBeforeYearMonotone(a.year + 1, b.year);
  }

  lemma OrdinalOrderedByMonth(a: Civil, b: Civil)
    requires a.Valid() && b.Valid() && a.year == b.year && a.month < b.month
    ensures a.Ordinal() < b.Ordinal()
  {
    assert DaysBeforeMonth(a.year, a.month + 1) == DaysBeforeMonth(a.year, a.month) + DaysInMonth(a.year, a.month);
    DaysBeforeMonthMonotone(a.year, a.month + 1, b.month);
  }

  lemma CivilRoundTrip(c: Civil)
    requires c.Valid()
    ensures 1 <= c.Ordinal() <= MaxOrdinal
    ensures ToCivil(c.Ordinal()) == c
  {
    OrdinalInYear(c);
    DaysBeforeYearMonotone(c.year + 1, 10000);
    DaysBeforeYearMonotone(1, c.year);
    ToCivilSpec(c.Ordinal());
    CivilOrdinalInjective(ToCivil(c.Ordinal()), c);
  }

  function DigitChar(d: int): (c: char)
    requires 0 <= d <= 9
    ensures IsDigit(c) && c as int - '0' as int == d
  {
    ('0' as int + d) as char
  }

  /** Zero-padded two-digit decimal rendering (`%m`, `%d`). */
  function Digits2(n: int): string
    requires 0 <= n <= 99
  {
    [DigitChar(n / 10), DigitChar(n % 10)]
  }

  /** Zero-padded four-digit decimal rendering of a year. */
  function Digits4(n: int): string
    requires 0 <= n <= 9999
  {
    [DigitChar(n / 1000), DigitChar(n / 100 % 10), DigitChar(n / 10 % 10), DigitChar(n % 10)]
  }

  predicate IsDigit(c: char)
  {
    '0' <= c <= '9'
  }

  /** The value of a string of decimal digits. */
  function DecimalValue(s: string): nat
    requires forall i | 0 <= i < |s| :: IsDigit(s[i])
  {
    if s == [] then 0
    else
      assert IsDigit(s[|s| - 1]);
      DecimalValue(s[..|s| - 1]) * 10 + (s[|s| - 1] as int - '0' as int)
  }

  /** `date.isoformat()`, equally `strftime("%Y-%m-%d")` for four-digit years. */
  function IsoDate(n: Date): (s: string)
    ensures |s| == 10 && s[4] == '-' && s[7] == '-'
    ensures forall i | 0 <= i < 10 && i != 4 && i != 7 :: IsDigit(s[i])
  {
    var c := ToCivil(n);
    ToCivilSpec(n);
    Digits4(c.year) + "-" + Digits2(c.month) + "-" + Digits2(c.day)
  }

  /** Reads `YYYY-MM-DD` back into its three numbers. */
  function ParseIsoDate(s: string): (c: Civil)
    requires |s| == 10
    requires forall i | 0 <= i < 10 && i != 4 && i != 7 :: IsDigit(s[i])
  {
    Civil(DecimalValue(s[0..4]), DecimalValue(s[5..7]), DecimalValue(s[8..10]))
  }

  lemma Digits2Value(n: int)
    requires 0 <= n <= 99
    ensures DecimalValue(Digits2(n)) == n
  {
    var t := Digits2(n);
    assert t[..1][..0] == [];
    assert DecimalValue(t[..1]) == n / 10;
    assert t[..|t| - 1] == t[..1];
  }

  lemma Digits4Value(n: int)
    requires 0 <= n <= 9999
    ensures DecimalValue(Digits4(n)) == n
  {
    var t := Digits4(n);
    assert t[..3][..2][..1][..0] == [];
    assert DecimalValue(t[..1]) == n / 1000;
    assert t[..2][..1] == t[..1];
    assert DecimalValue(t[..2]) == n / 100;
    assert t[..3][..2] == t[..2];
    assert DecimalValue(t[..3]) == n / 10;
    assert t[..|t| - 1] == t[..3];
  }

  lemma IsoDateRoundTrip(n: Date)
    ensures ParseIsoDate(IsoDate(n)) == ToCivil(n)
  {
    var c := ToCivil(n);
    ToCivilSpec(n);
    var s := IsoDate(n);
    assert s[0..4] == Digits4(c.year);
    assert s[5..7] == Digits2(c.month);
    assert s[8..10] == Digits2(c.day);
    Digits4Value(c.year);
    Digits2Value(c.month);
    Digits2Value(c.day);
  }

  /** Different dates never render alike, so comparing rendered dates compares dates. */
  lemma IsoDateInjective(a: Date, b: Date)
    requires IsoDate(a) == IsoDate(b)
    ensures a == b
  {
    IsoDateRoundTrip(a);
    IsoDateRoundTrip(b);
    ToCivilSpec(a);
    ToCivilSpec(b);
  }
}
