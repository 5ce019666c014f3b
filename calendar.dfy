/**
 * The proleptic Gregorian calendar of Python's `datetime.date`: validity, the
 * `replace(year=...)` operation with its error case, ordering and day numbers
 * (`toordinal`, so that `(b - a).days == Ordinal(b) - Ordinal(a)`).
 */
module Calendar {
  import opened Wrappers

  const MinYear := 1
  const MaxYear := 9999

  datatype Date = Date(year: int, month: int, day: int)

  predicate IsLeap(y: int) {
    y % 4 == 0 && (y % 100 != 0 || y % 400 == 0)
  }

  function DaysInMonth(y: int, m: int): (n: nat)
    requires 1 <= m <= 12
    ensures 28 <= n <= 31
  {
    if m == 2 then (if IsLeap(y) then 29 else 28)
    else if m == 4 || m == 6 || m == 9 || m == 11 then 30
    else 31
  }

  predicate Valid(d: Date) {
    MinYear <= d.year <= MaxYear && 1 <= d.month <= 12 && 1 <= d.day <= DaysInMonth(d.year, d.month)
  }

  /** `a < b` on dates: lexicographic on year, month, day. */
  predicate Before(a: Date, b: Date) {
    a.year < b.year
    || (a.year == b.year && a.month < b.month)
    || (a.year == b.year && a.month == b.month && a.day < b.day)
  }

  datatype DateError = DayOutOfRange | YearOutOfRange

  /**
   * `d.replace(year=y)`: the same month and day in year `y`; fails (ValueError) for
   * 29 February in a common year and for a year outside 1..9999.
   */
  function ReplaceYear(d: Date, y: int): (r: Result<Date, DateError>)
    requires Valid(d)
    ensures r.Success? ==> Valid(r.value) && r.value == Date(y, d.month, d.day)
    ensures r.Failure? <==> y < MinYear || y > MaxYear || (d.month == 2 && d.day == 29 && !IsLeap(y))
  {
    if y < MinYear || y > MaxYear then Failure(YearOutOfRange)
    else if d.day > DaysInMonth(y, d.month) then Failure(DayOutOfRange)
    else Success(Date(y, d.month, d.day))
  }

  function DaysBeforeYear(y: int): int {
    var p := y - 1;
    365 * p + p / 4 - p / 100 + p / 400
  }

  function DaysInYear(y: int): nat {
    if IsLeap(y) then 366 else 365
  }

  /** Days in the months of year `y` before month `m`. */
  function DaysBeforeMonth(y: int, m: int): nat
    requires 1 <= m <= 13
  {
    if m == 1 then 0 else DaysBeforeMonth(y, m - 1) + DaysInMonth(y, m - 1)
  }

  /** `d.toordinal()`: 1 for 1 January of year 1. */
  function Ordinal(d: Date): int
    requires Valid(d)
  {
    DaysBeforeYear(d.year) + DaysBeforeMonth(d.year, d.month) + d.day
  }

  /** Number of whole days from `a` to `b`, as `(b - a).days`. */
  function DaysBetween(a: Date, b: Date): int
    requires Valid(a) && Valid(b)
  {
    Ordinal(b) - Ordinal(a)
  }

  lemma YearLength(y: int)
    ensures DaysBeforeMonth(y, 13) == DaysInYear(y)
  {
    var f := DaysInMonth(y, 2);
    assert DaysBeforeMonth(y, 1) == 0;
    assert DaysBeforeMonth(y, 2) == 31;
    assert DaysBeforeMonth(y, 3) == 31 + f;
    assert DaysBeforeMonth(y, 4) == 62 + f;
    assert DaysBeforeMonth(y, 5) == 92 + f;
    assert DaysBeforeMonth(y, 6) == 123 + f;
    assert DaysBeforeMonth(y, 7) == 153 + f;
    assert DaysBeforeMonth(y, 8) == 184 + f;
    assert DaysBeforeMonth(y, 9) == 215 + f;
    assert DaysBeforeMonth(y, 10) == 245 + f;
    assert DaysBeforeMonth(y, 11) == 276 + f;
    assert DaysBeforeMonth(y, 12) == 306 + f;
    assert DaysBeforeMonth(y, 13) == 337 + f;
  }

  lemma {:induction false} YearStep(y: int)
    ensures DaysBeforeYear(y + 1) == DaysBeforeYear(y) + DaysInYear(y)
  {
    DivStep(y, 4);
    DivStep(y, 100);
    DivStep(y, 400);
    assert DaysBeforeYear(y + 1) - DaysBeforeYear(y)
      == 365 + (y / 4 - (y - 1) / 4) - (y / 100 - (y - 1) / 100) + (y / 400 - (y - 1) / 400);
    DivisorChain(y);
  }

  /** 400 is a multiple of 100, and 100 of 4. */
  lemma DivisorChain(y: int)
    ensures y % 400 == 0 ==> y % 100 == 0
    ensures y % 100 == 0 ==> y % 4 == 0
  {
    if y % 400 == 0 {
      var k := y / 400;
      assert y == 100 * (4 * k);
      HundredsMod(4 * k);
    }
    if y % 100 == 0 {
      var k := y / 100;
      assert y == 4 * (25 * k);
      FoursMod(25 * k);
    }
  }

  lemma HundredsMod(m: int)
    ensures (100 * m) % 100 == 0
  {
  }

  lemma FoursMod(m: int)
    ensures (4 * m) % 4 == 0
  {
  }

  /** Going from `y - 1` to `y` adds one multiple of `d` exactly when `d` divides `y`. */
  lemma DivStep(y: int, d: int)
    requires d == 4 || d == 100 || d == 400
    ensures y / d == (y - 1) / d + (if y % d == 0 then 1 else 0)
  {
    if d == 4 {
      assert y / 4 == (y - 1) / 4 + (if y % 4 == 0 then 1 else 0);
    } else if d == 100 {
      assert y / 100 == (y - 1) / 100 + (if y % 100 == 0 then 1 else 0);
    } else {
      assert y / 400 == (y - 1) / 400 + (if y % 400 == 0 then 1 else 0);
    }
  }

  lemma {:induction false} MonthsIncrease(y: int, m1: int, m2: int)
    requires 1 <= m1 < m2 <= 13
    ensures DaysBeforeMonth(y, m1) + DaysInMonth(y, m1) <= DaysBeforeMonth(y, m2)
    decreases m2 - m1
  {
    if m1 + 1 < m2 {
      MonthsIncrease(y, m1 + 1, m2);
    }
  }

  lemma {:induction false} YearsIncrease(y1: int, y2: int)
    requires y1 < y2
    ensures DaysBeforeYear(y1) + DaysInYear(y1) <= DaysBeforeYear(y2)
    decreases y2 - y1
  {
    YearStep(y1);
    if y1 + 1 < y2 {
      YearsIncrease(y1 + 1, y2);
      YearStep(y1 + 1);
    }
  }

  /** Day numbers follow the date order. */
  lemma OrdinalMonotone(a: Date, b: Date)
    requires Valid(a) && Valid(b)
    ensures Before(a, b) ==> Ordinal(a) < Ordinal(b)
    ensures a == b ==> Ordinal(a) == Ordinal(b)
  {
    if Before(a, b) {
      if a.year < b.year {
        MonthsIncrease(a.year, a.month, 13);
        YearLength(a.year);
        YearsIncrease(a.year, b.year);
      } else if a.month < b.month {
        MonthsIncrease(a.year, a.month, b.month);
      }
    }
  }

  /** The day of its year a date falls on: 1 for 1 January, 365 or 366 for 31 December. */
  lemma DayOfYearBounds(d: Date)
    requires Valid(d)
    ensures 1 <= DaysBeforeMonth(d.year, d.month) + d.day <= DaysInYear(d.year)
  {
    MonthsIncrease(d.year, d.month, 13);
    YearLength(d.year);
  }

  /** Months before `m` in year `y` hold one day more than in a common year exactly when they include a leap February. */
  lemma {:induction false} LeapShift(y: int, m: int)
    requires 1 <= m <= 13
    ensures DaysBeforeMonth(y, m) == DaysBeforeMonth(1, m) + (if IsLeap(y) && m > 2 then 1 else 0)
  {
    if m > 1 {
      LeapShift(y, m - 1);
    }
  }

  /** A year after a leap year is common. */
  lemma LeapThenCommon(y: int)
    requires IsLeap(y)
    ensures !IsLeap(y + 1)
  {
  }

  /** Between two dates of one year lie fewer days than the year has. */
  lemma SameYearGap(a: Date, b: Date)
    requires Valid(a) && Valid(b) && a.year == b.year
    ensures DaysBetween(a, b) < DaysInYear(a.year)
  {
    DayOfYearBounds(a);
    DayOfYearBounds(b);
  }

  /**
   * From a date `a` to a date `b` of the next year whose month and day come before
   * `a`'s in `a`'s own year, there are at most 365 days.
   */
  lemma {:induction false} NextYearGap(a: Date, b: Date)
    requires Valid(a) && Valid(b) && b.year == a.year + 1
    requires Valid(Date(a.year, b.month, b.day)) && Before(Date(a.year, b.month, b.day), a)
    ensures DaysBetween(a, b) <= 365
  {
    var y, e := a.year, Date(a.year, b.month, b.day);
    OrdinalMonotone(e, a);
    YearStep(y);
    LeapShift(y, b.month);
    LeapShift(y + 1, b.month);
    if IsLeap(y) {
      LeapThenCommon(y);
    }
    assert Ordinal(b) - Ordinal(e) == DaysInYear(y) + DaysBeforeMonth(y + 1, b.month) - DaysBeforeMonth(y, b.month);
  }
}
