/** Proleptic Gregorian dates as Python's `datetime.date` has them
    (years 1 to 9999), the day numbering of `date.toordinal()`, the
    one-day step back that `dt - timedelta(days=1)` takes, and the text form
    `YYYY-MM-DD` that `str(date)` writes and `strptime(s, "%Y-%m-%d")` reads. */
module Calendar {
  import opened Text
  import opened Wrappers

  const MinYear: int := 1
  const MaxYear: int := 9999

  datatype Date = Date(year: int, month: int, day: int)

  /** A `datetime`: a date and a time of day down to microseconds. */
  datatype DateTime = DateTime(date: Date, hour: int, minute: int, second: int, microsecond: int)

  predicate IsLeapYear(y: int) {
    y % 4 == 0 && (y % 100 != 0 || y % 400 == 0)
  }

  function DaysInMonth(y: int, m: int): (n: int)
    requires 1 <= m <= 12
    ensures 28 <= n <= 31
  {
    if m == 2 then (if IsLeapYear(y) then 29 else 28)
    else if m == 4 || m == 6 || m == 9 || m == 11 then 30
    else 31
  }

  function DaysInYear(y: int): int {
    if IsLeapYear(y) then 366 else 365
  }

  predicate ValidDate(d: Date) {
    MinYear <= d.year <= MaxYear && 1 <= d.month <= 12 && 1 <= d.day <= DaysInMonth(d.year, d.month)
  }

  predicate ValidDateTime(t: DateTime) {
    ValidDate(t.date) &&
    0 <= t.hour < 24 && 0 <= t.minute < 60 && 0 <= t.second < 60 && 0 <= t.microsecond < 1000000
  }

  // ---------------------------------------------------------------------
  // Day numbers
  // ---------------------------------------------------------------------

  /** Days in the years before year `y`, counted as `_days_before_year`
      does: 365 a year, plus the leap days of the years before. */
  function DaysBeforeYear(y: int): int
    requires y >= 1
  {
    var p := y - 1;
    p * 365 + p / 4 - p / 100 + p / 400
  }

  /** `_DAYS_BEFORE_MONTH`: the days before the first of month `m` in a
      common year. */
  function CommonDaysBeforeMonth(m: int): int
    requires 1 <= m <= 12
  {
    if m == 1 then 0 else if m == 2 then 31 else if m == 3 then 59
    else if m == 4 then 90 else if m == 5 then 120 else if m == 6 then 151
    else if m == 7 then 181 else if m == 8 then 212 else if m == 9 then 243
    else if m == 10 then 273 else if m == 11 then 304 else 334
  }

  /** Days in the months of year `y` before month `m` (`_days_before_month`):
      a leap year has one more after February. */
  function DaysBeforeMonth(y: int, m: int): int
    requires 1 <= m <= 12
  {
    CommonDaysBeforeMonth(m) + (if m > 2 && IsLeapYear(y) then 1 else 0)
  }

  /** `date.toordinal()`: 0001-01-01 is day 1. */
  function Ordinal(d: Date): int
    requires ValidDate(d)
  {
    DaysBeforeYear(d.year) + DaysBeforeMonth(d.year, d.month) + d.day
  }

  /** Python's `a < b` on dates: year, then month, then day. */
  predicate Before(a: Date, b: Date) {
    a.year < b.year ||
    (a.year == b.year && (a.month < b.month || (a.month == b.month && a.day < b.day)))
  }

  /** Going from one month to the next adds the days of the month. */
  lemma MonthStep(y: int, m: int)
    requires 1 <= m < 12
    ensures DaysBeforeMonth(y, m + 1) == DaysBeforeMonth(y, m) + DaysInMonth(y, m)
  {
  }

  /** The twelve months make up the year. */
  lemma MonthsMakeYear(y: int)
    ensures DaysBeforeMonth(y, 12) + DaysInMonth(y, 12) == DaysInYear(y)
  {
  }

  /** Counting multiples of `d` up to `y` instead of `y - 1` adds one
      exactly when `d` divides `y`. */
  lemma MultiplesStep(y: int, d: int)
    requires y >= 1 && d > 0
    ensures y / d - (y - 1) / d == if y % d == 0 then 1 else 0
  {
    var q, r := (y - 1) / d, (y - 1) % d;
    if r + 1 < d {
      DivideUnique(y, d, q, r + 1);
    } else {
      assert y == (q + 1) * d;
      DivideUnique(y, d, q + 1, 0);
    }
  }

  /** A multiple of 400 is one of 100, and a multiple of 100 one of 4. */
  lemma CenturyDivisors(y: int)
    ensures y % 400 == 0 ==> y % 100 == 0
    ensures y % 100 == 0 ==> y % 4 == 0
  {
    if y % 400 == 0 {
      DivideUnique(y, 100, (y / 400) * 4, 0);
    }
    if y % 100 == 0 {
      DivideUnique(y, 4, (y / 100) * 25, 0);
    }
  }

  /** Going from one year to the next adds the days of the year. */
  lemma YearStep(y: int)
    requires y >= 1
    ensures DaysBeforeYear(y + 1) == DaysBeforeYear(y) + DaysInYear(y)
  {
    MultiplesStep(y, 4);
    MultiplesStep(y, 100);
    MultiplesStep(y, 400);
    CenturyDivisors(y);
  }

  lemma MonthsFitInYear(y: int, m: int)
    requires 1 <= m <= 12
    ensures DaysBeforeMonth(y, m) + DaysInMonth(y, m) <= DaysInYear(y)
  {
    MonthsMakeYear(y);
    if m < 12 {
      DaysBeforeMonthMonotone(y, m, 12);
    }
  }

  lemma {:induction false} DaysBeforeMonthMonotone(y: int, m: int, m': int)
    requires 1 <= m < m' <= 12
    ensures DaysBeforeMonth(y, m) + DaysInMonth(y, m) <= DaysBeforeMonth(y, m')
    decreases m' - m
  {
    MonthStep(y, m' - 1);
    if m + 1 < m' {
      DaysBeforeMonthMonotone(y, m, m' - 1);
    }
  }

  lemma {:induction false} DaysBeforeYearMonotone(y: int, y': int)
    requires 1 <= y < y'
    ensures DaysBeforeYear(y) + DaysInYear(y) <= DaysBeforeYear(y')
    decreases y' - y
  {
    YearStep(y' - 1);
    if y + 1 < y' {
      DaysBeforeYearMonotone(y, y' - 1);
    }
  }

  /** Comparing dates as Python does agrees with comparing their day numbers. */
  lemma BeforeIffOrdinalLess(a: Date, b: Date)
    requires ValidDate(a) && ValidDate(b)
    ensures Before(a, b) <==> Ordinal(a) < Ordinal(b)
  {
    if Before(a, b) {
      OrdinalLess(a, b);
    } else if a != b {
      OrdinalLess(b, a);
    }
  }

  lemma OrdinalLess(a: Date, b: Date)
    requires ValidDate(a) && ValidDate(b) && Before(a, b)
    ensures Ordinal(a) < Ordinal(b)
  {
    if a.year < b.year {
      MonthsFitInYear(a.year, a.month);
      DaysBeforeYearMonotone(a.year, b.year);
    } else if a.month < b.month {
      DaysBeforeMonthMonotone(a.year, a.month, b.month);
    }
  }

  /** Two dates have the same day number only if they are the same date. */
  lemma OrdinalInjective(a: Date, b: Date)
    requires ValidDate(a) && ValidDate(b)
    ensures Ordinal(a) == Ordinal(b) <==> a == b
  {
    if a != b {
      if Before(a, b) { OrdinalLess(a, b); } else { OrdinalLess(b, a); }
    }
  }

  // ---------------------------------------------------------------------
  // One day back
  // ---------------------------------------------------------------------

  const FirstDate: Date := Date(MinYear, 1, 1)

  /** `(d - timedelta(days=1))`; Python raises OverflowError on 0001-01-01,
      which is why that date is excluded. */
  function PreviousDay(d: Date): (p: Date)
    requires ValidDate(d) && d != FirstDate
    ensures ValidDate(p) && Before(p, d)
  {
    if d.day > 1 then Date(d.year, d.month, d.day - 1)
    else if d.month > 1 then Date(d.year, d.month - 1, DaysInMonth(d.year, d.month - 1))
    else Date(d.year - 1, 12, 31)
  }

  /** The day before has the day number one less. */
  lemma PreviousDayOrdinal(d: Date)
    requires ValidDate(d) && d != FirstDate
    ensures Ordinal(PreviousDay(d)) == Ordinal(d) - 1
  {
    if d.day == 1 && d.month == 1 {
      YearStep(d.year - 1);
      MonthsMakeYear(d.year - 1);
    } else if d.day == 1 {
      MonthStep(d.year, d.month - 1);
    }
  }

  // ---------------------------------------------------------------------
  // Text form
  // ---------------------------------------------------------------------

  /** `str(date)` / `date.isoformat()` / `strftime('%Y-%m-%d')`: `YYYY-MM-DD`. */
  function IsoFormat(d: Date): (s: string)
    requires ValidDate(d)
    ensures |s| == 10 && s[4] == '-' && s[7] == '-'
  {
    Pad4(d.year) + "-" + Pad2(d.month) + "-" + Pad2(d.day)
  }

  /** The `%m` field: `1[0-2]|0[1-9]|[1-9]`. */
  function MonthField(f: string): (r: Option<int>)
    ensures r.Some? ==> 1 <= r.value <= 12
  {
    if |f| == 1 && IsDigit(f[0]) && f[0] != '0' then Some(DigitValue(f[0]))
    else if |f| == 2 && AllDigits(f) && 1 <= DecimalValue(f) <= 12 then Some(DecimalValue(f))
    else None
  }

  /** The `%d` field: `3[01]|[12]\d|0[1-9]|[1-9]| [1-9]`. */
  function DayField(f: string): (r: Option<int>)
    ensures r.Some? ==> 1 <= r.value <= 31
  {
    if |f| == 1 && IsDigit(f[0]) && f[0] != '0' then Some(DigitValue(f[0]))
    else if |f| == 2 && f[0] == ' ' && IsDigit(f[1]) && f[1] != '0' then Some(DigitValue(f[1]))
    else if |f| == 2 && AllDigits(f) && 1 <= DecimalValue(f) <= 31 then Some(DecimalValue(f))
    else None
  }

  /** Builds the date once the three fields are read; `datetime` rejects
      year 0 and a day past the end of its month with a ValueError. */
  function MakeDate(y: int, m: Option<int>, d: Option<int>): (r: Option<Date>)
    ensures r.Some? ==> ValidDate(r.value)
  {
    if m.Some? && d.Some? && MinYear <= y <= MaxYear && 1 <= m.value <= 12 &&
       1 <= d.value <= DaysInMonth(y, m.value)
    then Some(Date(y, m.value, d.value))
    else None
  }

  /** `datetime.strptime(s, "%Y-%m-%d").date()`, with `None` for the
      ValueError it raises on anything else: four digits, a dash, the month
      field, a dash and the day field, and nothing more. */
  function ParseIsoDate(s: string): (r: Option<Date>)
    ensures r.Some? ==> ValidDate(r.value)
  {
    if |s| < 8 || !AllDigits(s[..4]) || s[4] != '-' then None
    else
      var y := DecimalValue(s[..4]);
      if s[6] == '-' then MakeDate(y, MonthField(s[5..6]), DayField(s[7..]))
      else if |s| >= 9 && s[7] == '-' then MakeDate(y, MonthField(s[5..7]), DayField(s[8..]))
      else None
  }

  /** Reading back what `str(date)` wrote gives the same date. */
  lemma IsoRoundTrip(d: Date)
    requires ValidDate(d)
    ensures ParseIsoDate(IsoFormat(d)) == Some(d)
  {
    var s := IsoFormat(d);
    assert s[..4] == Pad4(d.year);
    assert s[5..7] == Pad2(d.month);
    assert s[8..] == Pad2(d.day);
    assert s[6] == Pad2(d.month)[1];
  }
}
