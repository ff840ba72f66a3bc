/**
 * The part of .NET's System.DateTime and System.TimeSpan that the customer
 * objects and the date assertions rely on.  A DateTime is a proleptic
 * Gregorian date between 0001-01-01 and 9999-12-31 plus a time of day counted
 * in 100-nanosecond ticks; its tick count since 0001-01-01 00:00 is what
 * `CompareTo` and subtraction use.  The DateTimeKind tag is not modelled.
 */
module Dates {
  import opened Exceptions

  const TicksPerMillisecond := 10_000
  const TicksPerDay := 864_000_000_000
  const MinYear := 1
  const MaxYear := 9999

  datatype DateParts = DateParts(year: int, month: int, day: int, tickOfDay: int)

  predicate IsLeapYear(y: int) {
    y % 4 == 0 && (y % 100 != 0 || y % 400 == 0)
  }

  function DaysInYear(y: int): int {
    if IsLeapYear(y) then 366 else 365
  }

  function DaysInMonth(y: int, m: int): int
    requires 1 <= m <= 12
  {
    if m == 2 then (if IsLeapYear(y) then 29 else 28)
    else if m == 4 || m == 6 || m == 9 || m == 11 then 30
    else 31
  }

  predicate IsValidDate(d: DateParts) {
    && MinYear <= d.year <= MaxYear
    && 1 <= d.month <= 12
    && 1 <= d.day <= DaysInMonth(d.year, d.month)
    && 0 <= d.tickOfDay < TicksPerDay
  }

  type DateTime = d: DateParts | IsValidDate(d) witness DateParts(1, 1, 1, 0)

  /** `new DateTime(y, m, d)`: midnight of that day (the constructor's validation is a precondition here). */
  function Date(y: int, m: int, d: int): (r: DateTime)
    requires IsValidDate(DateParts(y, m, d, 0))
    ensures r.year == y && r.month == m && r.day == d && r.tickOfDay == 0
  {
    DateParts(y, m, d, 0)
  }

  /** A TimeSpan is a signed tick count. */
  datatype TimeSpan = TimeSpan(ticks: int)

  /** Days from 0001-01-01 to January 1st of year `y`. */
  function DaysBeforeYear(y: int): int
    requires y >= 1
  {
    var x := y - 1;
    365 * x + x / 4 - x / 100 + x / 400
  }

  /** Days from January 1st to the first day of month `m` (13 stands for the next January). */
  function DaysBeforeMonth(y: int, m: int): int
    requires 1 <= m <= 13
  {
    var common := [0, 31, 59, 90, 120, 151, 181, 212, 243, 273, 304, 334, 365][m - 1];
    if IsLeapYear(y) && m > 2 then common + 1 else common
  }

  function DayNumber(d: DateTime): int {
    DaysBeforeYear(d.year) + DaysBeforeMonth(d.year, d.month) + d.day - 1
  }

  /** `DateTime.MaxValue.Ticks`: the last tick of 9999-12-31. */
  const MaxTicks := 3_155_378_975_999_999_999

  /**
   * `DateTime.Ticks`: every DateTime has a tick count between 0 (0001-01-01
   * 00:00) and MaxTicks, and the count modulo one day is the time of day.
   */
  function Ticks(d: DateTime): (r: int)
    ensures 0 <= r <= MaxTicks
    ensures r % TicksPerDay == d.tickOfDay
  {
    DayNumberInRange(d);
    DayNumber(d) * TicksPerDay + d.tickOfDay
  }

  /**
   * `DateTime.CompareTo`: the sign of the tick difference, which is the
   * calendar order of the two DateTimes.
   */
  function CompareTo(a: DateTime, b: DateTime): (r: int)
    ensures -1 <= r <= 1
    ensures r < 0 <==> CalendarBefore(a, b)
    ensures r == 0 <==> a == b
    ensures r > 0 <==> CalendarBefore(b, a)
  {
    TicksFollowCalendar(a, b);
    TicksFollowCalendar(b, a);
    if Ticks(a) > Ticks(b) then 1 else if Ticks(a) < Ticks(b) then -1 else 0
  }

  /**
   * `a - b` for two DateTimes: a TimeSpan that is zero exactly for equal
   * DateTimes, negative exactly when `a` comes first, and never longer than
   * the whole DateTime range.
   */
  function Subtract(a: DateTime, b: DateTime): (r: TimeSpan)
    ensures r.ticks == 0 <==> a == b
    ensures r.ticks < 0 <==> CalendarBefore(a, b)
    ensures -MaxTicks <= r.ticks <= MaxTicks
  {
    TicksFollowCalendar(a, b);
    TicksFollowCalendar(b, a);
    TimeSpan(Ticks(a) - Ticks(b))
  }

  /** Calendar order: year, then month, then day, then time of day. */
  predicate CalendarBefore(a: DateParts, b: DateParts) {
    || a.year < b.year
    || (a.year == b.year && a.month < b.month)
    || (a.year == b.year && a.month == b.month && a.day < b.day)
    || (a.year == b.year && a.month == b.month && a.day == b.day && a.tickOfDay < b.tickOfDay)
  }

  predicate CalendarAtMost(a: DateParts, b: DateParts) {
    CalendarBefore(a, b) || a == b
  }

  /**
   * `DateTime.AddYears(value)`: the same month, day and time of day `value`
   * years later, except that February 29th becomes February 28th when the
   * target year is not a leap year.  Throws ArgumentOutOfRangeException when
   * |value| exceeds 10000 or the target year leaves 1..9999.
   */
  function AddYears(d: DateTime, value: int): (r: Result<DateTime>)
    ensures r.Ok? <==> -10000 <= value <= 10000 && MinYear <= d.year + value <= MaxYear
    ensures r.Throws? ==> r.exception == ArgumentOutOfRangeException
    ensures r.Ok? ==> (r.value.year == d.year + value && r.value.month == d.month
                       && r.value.tickOfDay == d.tickOfDay)
    ensures r.Ok? && r.value.day != d.day ==>
              d.month == 2 && d.day == 29 && r.value.day == 28 && !IsLeapYear(d.year + value)
  {
    if value < -10000 || value > 10000 then Throws(ArgumentOutOfRangeException)
    else
      var y := d.year + value;
      if y < MinYear || y > MaxYear then Throws(ArgumentOutOfRangeException)
      else
        var dim := DaysInMonth(y, d.month);
        var moved: DateTime := DateParts(y, d.month, if d.day > dim then dim else d.day, d.tickOfDay);
        Ok(moved)
  }

  /** `TimeSpan.Milliseconds`: the millisecond component, truncating toward zero as C# does. */
  function MillisecondsComponent(t: TimeSpan): (r: int)
    ensures -1000 < r < 1000
    ensures t.ticks >= 0 ==> r == (t.ticks / TicksPerMillisecond) % 1000
    ensures t.ticks < 0 ==> r == -(((-t.ticks) / TicksPerMillisecond) % 1000)
  {
    var ms := if t.ticks >= 0 then t.ticks / TicksPerMillisecond else -((-t.ticks) / TicksPerMillisecond);
    if ms >= 0 then ms % 1000 else -((-ms) % 1000)
  }

  // ---------------------------------------------------------------------------
  // Calendar arithmetic

  lemma Divides400Then100(y: int)
    requires y % 400 == 0
    ensures y % 100 == 0
  {
    var q := y / 400;
    assert y == 100 * (4 * q);
  }

  lemma Divides100Then4(y: int)
    requires y % 100 == 0
    ensures y % 4 == 0
  {
    var q := y / 100;
    assert y == 4 * (25 * q);
  }

  lemma LeapDivisibility(y: int)
    ensures y % 400 == 0 ==> y % 100 == 0
    ensures y % 100 == 0 ==> y % 4 == 0
  {
    if y % 400 == 0 { Divides400Then100(y); }
    if y % 100 == 0 { Divides100Then4(y); }
  }

  /** Adding one to `x` raises `x / k` exactly when `x + 1` becomes a multiple of `k`. */
  lemma DivStep(x: int)
    requires x >= 0
    ensures (x + 1) / 4 == x / 4 + (if (x + 1) % 4 == 0 then 1 else 0)
    ensures (x + 1) / 100 == x / 100 + (if (x + 1) % 100 == 0 then 1 else 0)
    ensures (x + 1) / 400 == x / 400 + (if (x + 1) % 400 == 0 then 1 else 0)
  {
  }

  lemma TickOrder(da: int, db: int, ta: int, tb: int)
    requires da < db && 0 <= ta < TicksPerDay && 0 <= tb
    ensures da * TicksPerDay + ta < db * TicksPerDay + tb
  {
  }

  lemma {:induction false} DaysBeforeYearStep(y: int)
    requires y >= 1
    ensures DaysBeforeYear(y + 1) == DaysBeforeYear(y) + DaysInYear(y)
  {
    var x := y - 1;
    DivStep(x);
    LeapDivisibility(y);
  }

  lemma {:induction false} DaysBeforeYearGrows(y1: int, y2: int)
    requires 1 <= y1 < y2
    ensures DaysBeforeYear(y1) + DaysInYear(y1) <= DaysBeforeYear(y2)
    decreases y2 - y1
  {
    DaysBeforeYearStep(y1);
    if y1 + 1 < y2 {
      DaysBeforeYearGrows(y1 + 1, y2);
    }
  }

  lemma MonthStep(y: int, m: int)
    requires 1 <= m <= 12
    ensures DaysBeforeMonth(y, m + 1) == DaysBeforeMonth(y, m) + DaysInMonth(y, m)
  {
  }

  lemma {:induction false} DaysBeforeMonthGrows(y: int, m1: int, m2: int)
    requires 1 <= m1 < m2 <= 13
    ensures DaysBeforeMonth(y, m1) + DaysInMonth(y, m1) <= DaysBeforeMonth(y, m2)
    decreases m2 - m1
  {
    MonthStep(y, m1);
    if m1 + 1 < m2 {
      DaysBeforeMonthGrows(y, m1 + 1, m2);
      MonthStep(y, m1 + 1);
    }
  }

  /** A date's day number stays inside its year. */
  lemma DayWithinYear(d: DateTime)
    ensures DaysBeforeYear(d.year) <= DayNumber(d) < DaysBeforeYear(d.year) + DaysInYear(d.year)
  {
    MonthStep(d.year, d.month);
    if d.month < 12 {
      DaysBeforeMonthGrows(d.year, d.month + 1, 13);
    }
  }

  /** Every DateTime's day number lies in 0 .. DaysBeforeYear(10000) - 1. */
  lemma DayNumberInRange(d: DateTime)
    ensures 0 <= DayNumber(d) < DaysBeforeYear(MaxYear + 1)
  {
    DayWithinYear(d);
    if d.year < MaxYear {
      DaysBeforeYearGrows(d.year, MaxYear);
    }
    DaysBeforeYearStep(MaxYear);
  }

  /** Day numbers follow the calendar order of (year, month, day). */
  lemma DayNumberOrder(a: DateTime, b: DateTime)
    requires a.year < b.year || (a.year == b.year && a.month < b.month)
             || (a.year == b.year && a.month == b.month && a.day < b.day)
    ensures DayNumber(a) < DayNumber(b)
  {
    if a.year < b.year {
      DayWithinYear(a);
      DayWithinYear(b);
      DaysBeforeYearGrows(a.year, b.year);
    } else if a.month < b.month {
      DaysBeforeMonthGrows(a.year, a.month, b.month);
    }
  }

  /** Distinct tick counts belong to distinct dates and the order of ticks is the calendar order. */
  lemma TicksFollowCalendar(a: DateTime, b: DateTime)
    ensures CalendarBefore(a, b) ==> Ticks(a) < Ticks(b)
  {
    if CalendarBefore(a, b) {
      if a.year == b.year && a.month == b.month && a.day == b.day {
        assert DayNumber(a) == DayNumber(b);
      } else {
        DayNumberOrder(a, b);
        TickOrder(DayNumber(a), DayNumber(b), a.tickOfDay, b.tickOfDay);
      }
    }
  }

  /**
   * `CompareTo` works on ticks, yet it orders DateTimes exactly as the
   * calendar does, in both directions.
   */
  lemma CompareToIsCalendarOrder(a: DateTime, b: DateTime)
    ensures CompareTo(a, b) < 0 <==> CalendarBefore(a, b)
    ensures CompareTo(a, b) == 0 <==> a == b
    ensures CompareTo(a, b) <= 0 <==> CalendarAtMost(a, b)
  {
    TicksFollowCalendar(a, b);
    TicksFollowCalendar(b, a);
  }

  /** Two DateTimes have the same tick count only if they are the same DateTime. */
  lemma TicksInjective(a: DateTime, b: DateTime)
    ensures Ticks(a) == Ticks(b) <==> a == b
  {
    CompareToIsCalendarOrder(a, b);
  }

  /** Adding years and subtracting them again returns the original date unless February 29th was clamped. */
  lemma AddYearsRoundTrip(d: DateTime, n: int)
    requires AddYears(d, n).Ok?
    requires !(d.month == 2 && d.day == 29 && !IsLeapYear(d.year + n))
    ensures AddYears(AddYears(d, n).value, -n) == Ok(d)
  {
  }

  /** The clamp: a February 29th moved to a common year lands on February 28th. */
  lemma AddYearsClampsLeapDay()
    ensures AddYears(Date(2000, 2, 29), 18) == Ok(Date(2018, 2, 28))
    ensures AddYears(Date(2000, 2, 29), 4) == Ok(Date(2004, 2, 29))
    ensures AddYears(Date(2000, 2, 29), 1) == Ok(Date(2001, 2, 28))
    ensures AddYears(Date(9990, 1, 1), 18).Throws?
  {
  }
}
