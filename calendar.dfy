/**
 * The parts of Python's `datetime` and `calendar` modules that the expense
 * core uses: `date` and naive `datetime` values in the proleptic Gregorian
 * calendar, years 1 through 9999 (`MINYEAR`..`MAXYEAR`), the day ordinal of
 * `date.toordinal()` (0001-01-01 is day 1), `date.weekday()` (Monday is 0),
 * `calendar.monthrange` month lengths, the chronological order of dates and
 * datetimes, and `date + timedelta(days=k)` for small `k`.
 */
module Calendar {

  const MinYear := 1
  const MaxYear := 9999

  /** `calendar.isleap`: every fourth year, except centuries not divisible by 400. */
  predicate IsLeapYear(y: int) {
    y % 4 == 0 && (y % 100 != 0 || y % 400 == 0)
  }

  function DaysInYear(y: int): int {
    if IsLeapYear(y) then 366 else 365
  }

  /** The second component of `calendar.monthrange(y, m)`. */
  function DaysInMonth(y: int, m: int): (n: int)
    requires 1 <= m <= 12
    ensures 28 <= n <= 31
  {
    if m == 2 then (if IsLeapYear(y) then 29 else 28)
    else if m == 4 || m == 6 || m == 9 || m == 11 then 30
    else 31
  }

  /** Days in the months of year `y` before month `m`, accumulated month by
    * month as `datetime` builds its table of month offsets. */
  function DaysBeforeMonth(y: int, m: int): (n: int)
    requires 1 <= m <= 12
    ensures 0 <= n
  {
    if m == 1 then 0 else DaysBeforeMonth(y, m - 1) + DaysInMonth(y, m - 1)
  }

  /** Days in the years 1, ..., y - 1, counted year by year. */
  function DaysBeforeYear(y: int): (n: int)
    requires y >= 1
    ensures 0 <= n
    decreases y
  {
    if y == 1 then 0 else DaysBeforeYear(y - 1) + DaysInYear(y - 1)
  }

  /** The closed form `datetime` uses for the days before a year:
    * `365 * p + p // 4 - p // 100 + p // 400` with `p = y - 1`. */
  lemma {:induction false} DaysBeforeYearClosedForm(y: int)
    requires y >= 1
    ensures DaysBeforeYear(y) == 365 * (y - 1) + (y - 1) / 4 - (y - 1) / 100 + (y - 1) / 400
    decreases y
  {
    if y > 1 {
      var p := y - 1;
      DaysBeforeYearClosedForm(p);
      QuotientSteps(p);
      assert DaysBeforeYear(y) == DaysBeforeYear(p) + DaysInYear(p);
    }
  }

  /** Going from `p - 1` to `p`, each quotient of the closed form grows
    * exactly when its divisor divides `p`. */
  lemma QuotientSteps(p: int)
    ensures p / 4 == (p - 1) / 4 + (if p % 4 == 0 then 1 else 0)
    ensures p / 100 == (p - 1) / 100 + (if p % 100 == 0 then 1 else 0)
    ensures p / 400 == (p - 1) / 400 + (if p % 400 == 0 then 1 else 0)
    ensures DaysInYear(p) - 365 ==
      (if p % 4 == 0 then 1 else 0) - (if p % 100 == 0 then 1 else 0) + (if p % 400 == 0 then 1 else 0)
  {
    QuotientStep4(p);
    QuotientStep100(p);
    QuotientStep400(p);
    DivisorsNest(p);
  }

  lemma QuotientStep4(p: int)
    ensures p / 4 == (p - 1) / 4 + (if p % 4 == 0 then 1 else 0)
  {
  }

  lemma QuotientStep100(p: int)
    ensures p / 100 == (p - 1) / 100 + (if p % 100 == 0 then 1 else 0)
  {
  }

  lemma QuotientStep400(p: int)
    ensures p / 400 == (p - 1) / 400 + (if p % 400 == 0 then 1 else 0)
  {
  }

  /** A multiple of 400 is one of 100, and a multiple of 100 is one of 4. */
  lemma DivisorsNest(p: int)
    ensures p % 400 == 0 ==> p % 100 == 0
    ensures p % 100 == 0 ==> p % 4 == 0
  {
    if p % 400 == 0 {
      var q := p / 400;
      assert p == 400 * q;
      assert p / 100 == 4 * q;
    }
    if p % 100 == 0 {
      var q := p / 100;
      assert p == 100 * q;
      assert p / 4 == 25 * q;
    }
  }

  datatype Date = Date(year: int, month: int, day: int) {

    /** A day of the proleptic Gregorian calendar (no upper bound on the year). */
    predicate WellFormed() {
      year >= MinYear && 1 <= month <= 12 && 1 <= day <= DaysInMonth(year, month)
    }

    /** A value Python's `date` type can hold. */
    predicate Valid() {
      WellFormed() && year <= MaxYear
    }

    /** Chronological order: year, then month, then day. */
    predicate Before(other: Date) {
      year < other.year
      || (year == other.year && (month < other.month
      || (month == other.month && day < other.day)))
    }

    predicate AtMost(other: Date) {
      this == other || Before(other)
    }
  }

  /** `date.toordinal()`. */
  function Ordinal(d: Date): (o: int)
    requires d.WellFormed()
    ensures o >= 1
  {
    DaysBeforeYear(d.year) + DaysBeforeMonth(d.year, d.month) + d.day
  }

  /** `date.weekday()`: Monday is 0 and Sunday is 6. */
  function Weekday(d: Date): (w: int)
    requires d.WellFormed()
    ensures 0 <= w < 7
  {
    WeekdayOfOrdinal(Ordinal(d))
  }

  /** The weekday of the day with ordinal `o`; day 1 is a Monday. */
  function WeekdayOfOrdinal(o: int): (w: int)
    ensures 0 <= w < 7
  {
    (o + 6) % 7
  }

  /** `k` days later the weekday has moved on by `k`, modulo a week. */
  lemma WeekdayOfOrdinalShift(o: int, k: int)
    ensures WeekdayOfOrdinal(o + k) == (WeekdayOfOrdinal(o) + k) % 7
  {
  }

  /** The ordinal of 9999-12-31, the last day Python can represent. */
  const MaxOrdinal := 3652059

  lemma MaxOrdinalIsLastDay()
    ensures Ordinal(Date(MaxYear, 12, 31)) == MaxOrdinal
  {
    DaysBeforeYearClosedForm(MaxYear);
    assert DaysBeforeYear(MaxYear) == 3651694;
    DaysBeforeMonthTable(MaxYear, 12);
    assert !IsLeapYear(MaxYear);
  }

  lemma DaysBeforeYearStep(y: int)
    requires y >= 1
    ensures DaysBeforeYear(y + 1) == DaysBeforeYear(y) + DaysInYear(y)
  {
  }

  lemma DaysBeforeMonthStep(y: int, m: int)
    requires 1 <= m < 12
    ensures DaysBeforeMonth(y, m + 1) == DaysBeforeMonth(y, m) + DaysInMonth(y, m)
  {
  }

  /** The accumulated offsets agree with the table `datetime` holds for a
    * common year, plus one day after February in a leap year. */
  lemma {:induction false} DaysBeforeMonthTable(y: int, m: int)
    requires 1 <= m <= 12
    ensures DaysBeforeMonth(y, m) ==
      [0, 31, 59, 90, 120, 151, 181, 212, 243, 273, 304, 334][m - 1]
      + (if m > 2 && IsLeapYear(y) then 1 else 0)
  {
    if m > 1 {
      DaysBeforeMonthTable(y, m - 1);
    }
  }

  /** The twelve months of a year add up to the year's length. */
  lemma MonthsFillYear(y: int)
    ensures DaysBeforeMonth(y, 12) + DaysInMonth(y, 12) == DaysInYear(y)
  {
    DaysBeforeMonthTable(y, 12);
  }

  lemma {:induction false} DaysBeforeMonthMonotone(y: int, m: int, n: int)
    requires 1 <= m < n <= 12
    ensures DaysBeforeMonth(y, m) + DaysInMonth(y, m) <= DaysBeforeMonth(y, n)
    decreases n - m
  {
    DaysBeforeMonthStep(y, m);
    if m + 1 < n {
      DaysBeforeMonthMonotone(y, m + 1, n);
    }
  }

  lemma {:induction false} DaysBeforeYearMonotone(y: int, z: int)
    requires 1 <= y < z
    ensures DaysBeforeYear(y) + DaysInYear(y) <= DaysBeforeYear(z)
    decreases z - y
  {
    DaysBeforeYearStep(y);
    if y + 1 < z {
      DaysBeforeYearMonotone(y + 1, z);
    }
  }

  /** Every day of year `y` has an ordinal in DaysBeforeYear(y) + 1 .. DaysBeforeYear(y + 1). */
  lemma OrdinalWithinYear(d: Date)
    requires d.WellFormed()
    ensures DaysBeforeYear(d.year) < Ordinal(d) <= DaysBeforeYear(d.year) + DaysInYear(d.year)
  {
    MonthsFillYear(d.year);
    DaysBeforeMonthTable(d.year, d.month);
    if d.month < 12 {
      DaysBeforeMonthMonotone(d.year, d.month, 12);
    }
  }

  /** The ordinal numbers days consecutively in chronological order. */
  lemma OrdinalOrder(a: Date, b: Date)
    requires a.WellFormed() && b.WellFormed()
    ensures a.Before(b) <==> Ordinal(a) < Ordinal(b)
    ensures a == b <==> Ordinal(a) == Ordinal(b)
  {
    OrdinalWithinYear(a);
    OrdinalWithinYear(b);
    if a.year < b.year {
      DaysBeforeYearMonotone(a.year, b.year);
    } else if b.year < a.year {
      DaysBeforeYearMonotone(b.year, a.year);
    } else if a.month < b.month {
      DaysBeforeMonthMonotone(a.year, a.month, b.month);
    } else if b.month < a.month {
      DaysBeforeMonthMonotone(a.year, b.month, a.month);
    }
  }

  /** The day after `d`. */
  function Next(d: Date): (e: Date)
    requires d.WellFormed()
    ensures e.WellFormed()
  {
    if d.day < DaysInMonth(d.year, d.month) then Date(d.year, d.month, d.day + 1)
    else if d.month < 12 then Date(d.year, d.month + 1, 1)
    else Date(d.year + 1, 1, 1)
  }

  /** The day before `d`; 0001-01-01 has none. */
  function Prev(d: Date): (e: Date)
    requires d.WellFormed() && d != Date(MinYear, 1, 1)
    ensures e.WellFormed()
  {
    if d.day > 1 then Date(d.year, d.month, d.day - 1)
    else if d.month > 1 then Date(d.year, d.month - 1, DaysInMonth(d.year, d.month - 1))
    else Date(d.year - 1, 12, 31)
  }

  lemma OrdinalNext(d: Date)
    requires d.WellFormed()
    ensures Ordinal(Next(d)) == Ordinal(d) + 1
  {
    var y, m := d.year, d.month;
    if d.day == DaysInMonth(y, m) {
      if m < 12 {
        DaysBeforeMonthStep(y, m);
      } else {
        YearBoundary(y);
      }
    }
  }

  lemma OrdinalPrev(d: Date)
    requires d.WellFormed() && d != Date(MinYear, 1, 1)
    ensures Ordinal(Prev(d)) == Ordinal(d) - 1
  {
    var y, m := d.year, d.month;
    if d.day == 1 {
      if m > 1 {
        DaysBeforeMonthStep(y, m - 1);
      } else {
        YearBoundary(y - 1);
      }
    }
  }

  /** The last day of year `y` is the day before the first day of year `y + 1`. */
  lemma YearBoundary(y: int)
    requires y >= 1
    ensures Ordinal(Date(y, 12, 31)) + 1 == Ordinal(Date(y + 1, 1, 1))
  {
    DaysBeforeYearStep(y);
    MonthsFillYear(y);
    assert Ordinal(Date(y, 12, 31)) == DaysBeforeYear(y) + DaysBeforeMonth(y, 12) + 31;
    assert Ordinal(Date(y + 1, 1, 1)) == DaysBeforeYear(y + 1) + 1;
  }

  /** `date.fromordinal(n)` in the proleptic calendar: the day with ordinal `n`. */
  function FromOrdinal(n: int): (d: Date)
    requires n >= 1
    ensures d.WellFormed() && Ordinal(d) == n
  {
    var y := YearOf(n, MinYear);
    var m := MonthOf(y, n - DaysBeforeYear(y), 1);
    Date(y, m, n - DaysBeforeYear(y) - DaysBeforeMonth(y, m))
  }

  /** The year, from `y` on, that holds the day with ordinal `n`. */
  function YearOf(n: int, y: int): (r: int)
    requires y >= 1 && DaysBeforeYear(y) < n
    ensures r >= y && DaysBeforeYear(r) < n <= DaysBeforeYear(r) + DaysInYear(r)
    decreases n - DaysBeforeYear(y)
  {
    if n <= DaysBeforeYear(y) + DaysInYear(y) then y else YearOf(n, y + 1)
  }

  /** The month, from `m` on, that holds day `r` of year `y`. */
  function MonthOf(y: int, r: int, m: int): (k: int)
    requires 1 <= m <= 12 && DaysBeforeMonth(y, m) < r <= DaysInYear(y)
    ensures m <= k <= 12 && DaysBeforeMonth(y, k) < r <= DaysBeforeMonth(y, k) + DaysInMonth(y, k)
    decreases 12 - m
  {
    if r <= DaysBeforeMonth(y, m) + DaysInMonth(y, m) then m
    else if m == 12 then MonthsFillYear(y); assert false; m
    else MonthOf(y, r, m + 1)
  }

  /** `d + timedelta(days=k)`, which `datetime` computes as
    * `date.fromordinal(d.toordinal() + k)`; defined as long as the result is
    * not before 0001-01-01. */
  function AddDays(d: Date, k: int): (e: Date)
    requires d.WellFormed() && Ordinal(d) + k >= 1
    ensures e.WellFormed() && Ordinal(e) == Ordinal(d) + k
  {
    FromOrdinal(Ordinal(d) + k)
  }

  /** A date is determined by its ordinal. */
  lemma OrdinalInjective(a: Date, b: Date)
    requires a.WellFormed() && b.WellFormed() && Ordinal(a) == Ordinal(b)
    ensures a == b
  {
    OrdinalOrder(a, b);
  }

  /** Adding one day is stepping to the next day, and taking one away is
    * stepping back. */
  lemma AddDaysSteps(d: Date)
    requires d.WellFormed()
    ensures AddDays(d, 1) == Next(d)
    ensures d != Date(MinYear, 1, 1) ==> AddDays(d, -1) == Prev(d)
  {
    OrdinalNext(d);
    OrdinalInjective(AddDays(d, 1), Next(d));
    if d != Date(MinYear, 1, 1) {
      OrdinalPrev(d);
      OrdinalInjective(AddDays(d, -1), Prev(d));
    }
  }

  /** 0001-01-01 was a Monday in the proleptic Gregorian calendar. */
  lemma FirstDayIsMonday()
    ensures Weekday(Date(1, 1, 1)) == 0
  {
  }

  lemma WeekdayNext(d: Date)
    requires d.WellFormed()
    ensures Weekday(Next(d)) == (Weekday(d) + 1) % 7
  {
    OrdinalNext(d);
    WeekdayOfOrdinalShift(Ordinal(d), 1);
  }

  /** Adding `k` days moves the weekday forward by `k`, modulo a week. */
  lemma WeekdayAddDays(d: Date, k: int)
    requires d.WellFormed() && Ordinal(d) + k >= 1
    ensures Weekday(AddDays(d, k)) == (Weekday(d) + k) % 7
  {
    WeekdayOfOrdinalShift(Ordinal(d), k);
  }

  /** A naive `datetime`: fields in the order they are compared. */
  datatype DateTime = DateTime(year: int, month: int, day: int,
                               hour: int, minute: int, second: int, microsecond: int) {

    function DatePart(): Date {
      Date(year, month, day)
    }

    /** A value Python's `datetime` type can hold. */
    predicate Valid() {
      DatePart().Valid()
      && 0 <= hour < 24 && 0 <= minute < 60 && 0 <= second < 60
      && 0 <= microsecond < 1000000
    }

    /** Chronological order: lexicographic on the seven fields. */
    predicate Before(other: DateTime) {
      DatePart().Before(other.DatePart())
      || (DatePart() == other.DatePart() && (hour < other.hour
      || (hour == other.hour && (minute < other.minute
      || (minute == other.minute && (second < other.second
      || (second == other.second && microsecond < other.microsecond)))))))
    }

    predicate AtMost(other: DateTime) {
      this == other || Before(other)
    }
  }

  /** A `datetime` value: only in-range fields. */
  type Timestamp = t: DateTime | t.Valid() witness DateTime(MinYear, 1, 1, 0, 0, 0, 0)

  /** `AtMost` is a total order on datetimes, as Python's comparison of
    * naive datetimes is. */
  lemma AtMostIsTotalOrder(a: DateTime, b: DateTime, c: DateTime)
    ensures a.AtMost(a)
    ensures a.AtMost(b) && b.AtMost(a) ==> a == b
    ensures a.AtMost(b) && b.AtMost(c) ==> a.AtMost(c)
    ensures a.AtMost(b) || b.AtMost(a)
    ensures a.Before(b) <==> !b.AtMost(a)
  {
  }
}
