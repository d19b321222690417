/**
 * Civil calendar arithmetic shared by every picker: proleptic Gregorian dates with
 * JavaScript's conventions (month index 0..11, Sunday = weekday 0) and the overflow
 * normalisation of `new Date(y, m, d)`, i.e. the MakeDay operation of ECMA-262
 * section 21.4.1 (day 0 is the last day of the previous month, month 12 is January
 * of the next year).
 */
module Civil {

  /** A calendar date as `Date` reports it: `getFullYear`, `getMonth` (0..11), `getDate`. */
  datatype Date = Date(year: int, month: int, day: int)

  predicate IsLeapYear(y: int) {
    y % 4 == 0 && (y % 100 != 0 || y % 400 == 0)
  }

  function DaysInMonth(y: int, m: int): (n: int)
    requires 0 <= m < 12
    ensures 28 <= n <= 31
  {
    if m == 1 then (if IsLeapYear(y) then 29 else 28)
    else if m == 3 || m == 5 || m == 8 || m == 10 then 30
    else 31
  }

  predicate IsValid(d: Date) {
    0 <= d.month < 12 && 1 <= d.day <= DaysInMonth(d.year, d.month)
  }

  function DaysInYear(y: int): int {
    if IsLeapYear(y) then 366 else 365
  }

  /** Days from 1 January 1970 to 1 January of year `y` (negative for earlier years). */
  function DaysBeforeYear(y: int): int
    decreases if y < 1970 then 1970 - y else y - 1970
  {
    if y == 1970 then 0
    else if y > 1970 then DaysBeforeYear(y - 1) + DaysInYear(y - 1)
    else DaysBeforeYear(y + 1) - DaysInYear(y)
  }

  /** Days in the months of year `y` before month `m`. */
  function DaysBeforeMonth(y: int, m: int): int
    requires 0 <= m < 12
  {
    [0, 31, 59, 90, 120, 151, 181, 212, 243, 273, 304, 334][m]
      + if m >= 2 && IsLeapYear(y) then 1 else 0
  }

  /**
   * ECMAScript's Day(t) for a date: the number of days since 1 January 1970, so that
   * consecutive days carry consecutive numbers.
   */
  function DayNumber(d: Date): int
    requires 0 <= d.month < 12
  {
    DaysBeforeYear(d.year) + DaysBeforeMonth(d.year, d.month) + d.day - 1
  }

  /** `getDay()`: 0 = Sunday .. 6 = Saturday; day 0, 1 January 1970, was a Thursday. */
  function Weekday(d: Date): (w: int)
    requires 0 <= d.month < 12
    ensures 0 <= w < 7
  {
    (DayNumber(d) + 4) % 7
  }

  lemma YearLength(y: int)
    ensures DaysBeforeYear(y + 1) == DaysBeforeYear(y) + DaysInYear(y)
  {
  }

  /** The first day of the month after (y, m) follows its last day. */
  lemma {:induction false} NextMonthStart(y: int, m: int)
    requires 0 <= m < 12
    ensures m < 11 ==> DayNumber(Date(y, m + 1, 1)) == DayNumber(Date(y, m, 1)) + DaysInMonth(y, m)
    ensures m == 11 ==> DayNumber(Date(y + 1, 0, 1)) == DayNumber(Date(y, m, 1)) + DaysInMonth(y, m)
  {
    if m == 11 {
      YearLength(y);
    }
  }

  function PreviousMonth(y: int, m: int): (r: (int, int))
    requires 0 <= m < 12
    ensures 0 <= r.1 < 12
  {
    if m == 0 then (y - 1, 11) else (y, m - 1)
  }

  function FollowingMonth(y: int, m: int): (r: (int, int))
    requires 0 <= m < 12
    ensures 0 <= r.1 < 12
  {
    if m == 11 then (y + 1, 0) else (y, m + 1)
  }

  /**
   * Day `d` of month (y, m), where `d` may be out of range: day 0 is the last day of
   * the previous month, day DaysInMonth + 1 the first of the next, and so on.
   * The result is a valid date (NormaliseDayNumber: exactly `d - 1` days after the 1st of (y, m)).
   */
  function NormaliseDay(y: int, m: int, d: int): (r: Date)
    requires 0 <= m < 12
    ensures IsValid(r)
    decreases if d < 1 then 1 - d else 0, if d < 1 then 0 else d
  {
    if d < 1 then
      var (py, pm) := PreviousMonth(y, m);
      NormaliseDay(py, pm, d + DaysInMonth(py, pm))
    else if d > DaysInMonth(y, m) then
      var (ny, nm) := FollowingMonth(y, m);
      NormaliseDay(ny, nm, d - DaysInMonth(y, m))
    else
      Date(y, m, d)
  }

  /** Normalising day `d` of (y, m) lands exactly `d - 1` days after the 1st of (y, m). */
  lemma {:induction false} NormaliseDayNumber(y: int, m: int, d: int)
    requires 0 <= m < 12
    ensures DayNumber(NormaliseDay(y, m, d)) == DayNumber(Date(y, m, 1)) + d - 1
    decreases if d < 1 then 1 - d else 0, if d < 1 then 0 else d
  {
    if d < 1 {
      var (py, pm) := PreviousMonth(y, m);
      NextMonthStart(py, pm);
      NormaliseDayNumber(py, pm, d + DaysInMonth(py, pm));
    } else if d > DaysInMonth(y, m) {
      var (ny, nm) := FollowingMonth(y, m);
      NextMonthStart(y, m);
      NormaliseDayNumber(ny, nm, d - DaysInMonth(y, m));
    }
  }

  /**
   * MakeDay's month carry: month index `m` of year `y` (any integer) as a year and a month
   * in 0..11. ECMA-262 writes it `y + floor(m / 12)`, `m modulo 12` (CarryIsFloorDivision);
   * here the carry moves one year at a time, which keeps the arithmetic linear.
   */
  function CarryMonth(y: int, m: int): (r: (int, int))
    ensures 0 <= r.1 < 12
    ensures 12 * r.0 + r.1 == 12 * y + m
    decreases if m < 0 then -m else 0, if m < 0 then 0 else m
  {
    if m < 0 then CarryMonth(y - 1, m + 12)
    else if m >= 12 then CarryMonth(y + 1, m - 12)
    else (y, m)
  }

  /** A (year, month) pair with month 0..11 is determined by its month count `12 * year + month`. */
  lemma MonthCountUnique(a: (int, int), b: (int, int))
    requires 0 <= a.1 < 12 && 0 <= b.1 < 12
    requires 12 * a.0 + a.1 == 12 * b.0 + b.1
    ensures a == b
  {
  }

  /** The carry is ECMA-262's floor division and modulo. */
  lemma {:induction false} CarryIsFloorDivision(y: int, m: int)
    ensures CarryMonth(y, m) == (y + m / 12, m % 12)
  {
    MonthSplit(m);
    MonthCountUnique(CarryMonth(y, m), (y + m / 12, m % 12));
  }

  lemma MonthSplit(k: int)
    ensures k == 12 * (k / 12) + k % 12 && 0 <= k % 12 < 12
  {
  }

  /** Month indexes -1 and 12 carry into the neighbouring years. */
  lemma {:induction false} CarryNeighbours(y: int, m: int)
    requires 0 <= m < 12
    ensures CarryMonth(y, m) == (y, m)
    ensures CarryMonth(y, m - 1) == PreviousMonth(y, m)
    ensures CarryMonth(y, m + 1) == FollowingMonth(y, m)
  {
    MonthCountUnique(CarryMonth(y, m - 1), PreviousMonth(y, m));
    MonthCountUnique(CarryMonth(y, m + 1), FollowingMonth(y, m));
  }

  /** Carrying month index `k + 1` gives the month after carrying `k`. */
  lemma {:induction false} CarryStep(y: int, k: int)
    ensures var c := CarryMonth(y, k); CarryMonth(y, k + 1) == FollowingMonth(c.0, c.1)
  {
    var c := CarryMonth(y, k);
    MonthCountUnique(CarryMonth(y, k + 1), FollowingMonth(c.0, c.1));
  }

  /**
   * `new Date(y, m, d)` (date part): the month index is first carried into the year, as
   * MakeDay does, then the day overflows through `NormaliseDay`.
   */
  function Normalise(y: int, m: int, d: int): (r: Date)
    ensures IsValid(r)
  {
    var c := CarryMonth(y, m);
    NormaliseDay(c.0, c.1, d)
  }

  /** `new Date(y, m, d)` is `d - 1` days after the 1st of the carried month. */
  lemma NormaliseNumber(y: int, m: int, d: int)
    ensures DayNumber(Normalise(y, m, d)) == DayNumber(Date(CarryMonth(y, m).0, CarryMonth(y, m).1, 1)) + d - 1
  {
    NormaliseDayNumber(CarryMonth(y, m).0, CarryMonth(y, m).1, d);
  }

  lemma {:induction false} DaysBeforeYearGrows(a: int, b: int)
    requires a <= b
    ensures DaysBeforeYear(a) + 365 * (b - a) <= DaysBeforeYear(b)
    decreases b - a
  {
    if a < b {
      YearLength(a);
      DaysBeforeYearGrows(a + 1, b);
    }
  }

  /** A valid date's day number lies within its own year. */
  lemma DayNumberWithinYear(d: Date)
    requires IsValid(d)
    ensures DaysBeforeYear(d.year) <= DayNumber(d) < DaysBeforeYear(d.year + 1)
  {
    YearLength(d.year);
  }

  /** Distinct valid dates have distinct day numbers. */
  lemma {:induction false} DayNumberInjective(a: Date, b: Date)
    requires IsValid(a) && IsValid(b)
    requires DayNumber(a) == DayNumber(b)
    ensures a == b
  {
    DayNumberWithinYear(a);
    DayNumberWithinYear(b);
    if a.year < b.year {
      DaysBeforeYearGrows(a.year + 1, b.year);
    } else if b.year < a.year {
      DaysBeforeYearGrows(b.year + 1, a.year);
    }
    assert a.year == b.year;
  }

  /** Valid dates are ordered by their day numbers exactly as (year, month, day) is ordered. */
  lemma {:induction false} DayNumberOrder(a: Date, b: Date)
    requires IsValid(a) && IsValid(b)
    ensures DayNumber(a) < DayNumber(b) <==>
      (a.year < b.year || (a.year == b.year && (a.month < b.month || (a.month == b.month && a.day < b.day))))
  {
    if a.year < b.year {
      DayNumberWithinYear(a);
      DayNumberWithinYear(b);
      DaysBeforeYearGrows(a.year + 1, b.year);
    } else if b.year < a.year {
      DayNumberWithinYear(a);
      DayNumberWithinYear(b);
      DaysBeforeYearGrows(b.year + 1, a.year);
    } else {
      SameYearOrder(a, b);
    }
  }

  /** Month `m` of year `y` is followed by month `m + 1` of the same year. */
  lemma MonthAfter(y: int, m: int)
    requires 0 <= m < 11
    ensures DaysBeforeMonth(y, m + 1) == DaysBeforeMonth(y, m) + DaysInMonth(y, m)
  {
  }

  /** Every day of an earlier month of the year comes before the first of a later month. */
  lemma {:induction false} EarlierMonthBefore(y: int, m1: int, m2: int)
    requires 0 <= m1 < m2 < 12
    ensures DaysBeforeMonth(y, m1) + DaysInMonth(y, m1) <= DaysBeforeMonth(y, m2)
    decreases m2
  {
    MonthAfter(y, m2 - 1);
    if m1 < m2 - 1 {
      EarlierMonthBefore(y, m1, m2 - 1);
    }
  }

  /** Within one year, day numbers order dates by month, then by day. */
  lemma SameYearOrder(a: Date, b: Date)
    requires IsValid(a) && IsValid(b) && a.year == b.year
    ensures DayNumber(a) < DayNumber(b) <==> a.month < b.month || (a.month == b.month && a.day < b.day)
  {
    if a.month < b.month {
      EarlierMonthBefore(a.year, a.month, b.month);
    } else if b.month < a.month {
      EarlierMonthBefore(a.year, b.month, a.month);
    }
  }

  /** `new Date(y, k, day)` is exactly the carried date whenever that date exists. */
  lemma {:induction false} NormaliseExact(y: int, k: int, day: int)
    requires IsValid(Date(CarryMonth(y, k).0, CarryMonth(y, k).1, day))
    ensures Normalise(y, k, day) == Date(CarryMonth(y, k).0, CarryMonth(y, k).1, day)
  {
    NormaliseNumber(y, k, day);
    DayNumberInjective(Normalise(y, k, day), Date(CarryMonth(y, k).0, CarryMonth(y, k).1, day));
  }

  /** Building a date from in-range parts gives back exactly those parts. */
  lemma {:induction false} NormaliseInRange(y: int, m: int, d: int)
    requires IsValid(Date(y, m, d))
    ensures Normalise(y, m, d) == Date(y, m, d)
  {
    CarryNeighbours(y, m);
    NormaliseExact(y, m, d);
  }

  /** `setDate(getDate() + n)`: `n` days later (earlier for negative `n`). */
  function AddDays(d: Date, n: int): (r: Date)
    requires 0 <= d.month < 12
    ensures IsValid(r)
  {
    NormaliseDay(d.year, d.month, d.day + n)
  }

  /** AddDays moves the day number by exactly `n`. */
  lemma AddDaysNumber(d: Date, n: int)
    requires IsValid(d)
    ensures DayNumber(AddDays(d, n)) == DayNumber(d) + n
  {
    NormaliseDayNumber(d.year, d.month, d.day + n);
  }

  lemma {:induction false} AddDaysInverse(d: Date, n: int)
    requires IsValid(d)
    ensures AddDays(AddDays(d, n), -n) == d
  {
    AddDaysNumber(d, n);
    AddDaysNumber(AddDays(d, n), -n);
    DayNumberInjective(AddDays(AddDays(d, n), -n), d);
  }

  lemma {:induction false} AddDaysCompose(d: Date, n: int, k: int)
    requires IsValid(d)
    ensures AddDays(AddDays(d, n), k) == AddDays(d, n + k)
  {
    AddDaysNumber(d, n);
    AddDaysNumber(AddDays(d, n), k);
    AddDaysNumber(d, n + k);
    DayNumberInjective(AddDays(AddDays(d, n), k), AddDays(d, n + k));
  }

  lemma {:induction false} WeekdayAfter(d: Date, n: int)
    requires IsValid(d)
    ensures Weekday(AddDays(d, n)) == (Weekday(d) + n) % 7
  {
    AddDaysNumber(d, n);
    WeekdayShift(d, AddDays(d, n), n);
  }

  /** Dates `n` days apart are `n` weekdays apart, modulo 7. */
  lemma WeekdayShift(a: Date, b: Date, n: int)
    requires 0 <= a.month < 12 && 0 <= b.month < 12
    requires DayNumber(b) == DayNumber(a) + n
    ensures Weekday(b) == (Weekday(a) + n) % 7
  {
    ModAdd7(DayNumber(a) + 4, n);
  }

  lemma ModAdd7(x: int, n: int)
    ensures (x + n) % 7 == (x % 7 + n) % 7
  {
    var q := x / 7;
    assert x == 7 * q + x % 7;
    assert x + n == 7 * q + (x % 7 + n);
  }

  /**
   * `setMonth(getMonth() + n)`: the month index moves by `n` with carry into the year and
   * the day of month is kept, overflowing forward when the target month is shorter.
   */
  function AddMonths(d: Date, n: int): (r: Date)
    ensures IsValid(r)
  {
    Normalise(d.year, d.month + n, d.day)
  }

  /** `setFullYear(getFullYear() + n)`: month and day kept; 29 February may overflow to 1 March. */
  function AddYears(d: Date, n: int): (r: Date)
    ensures IsValid(r)
  {
    Normalise(d.year + n, d.month, d.day)
  }

  /**
   * When the kept day exists in the target month, AddMonths lands on exactly that day,
   * and the month count `12 * year + month` has moved by exactly `n`.
   */
  lemma {:induction false} AddMonthsExact(d: Date, n: int)
    requires IsValid(d)
    requires d.day <= DaysInMonth(CarryMonth(d.year, d.month + n).0, CarryMonth(d.year, d.month + n).1)
    ensures AddMonths(d, n).day == d.day
    ensures 12 * AddMonths(d, n).year + AddMonths(d, n).month == 12 * d.year + d.month + n
  {
    NormaliseExact(d.year, d.month + n, d.day);
  }

  /**
   * When the kept day does not exist in the target month (31 January plus one month), the
   * date overflows forward into the following month by the missing days.
   */
  lemma {:induction false} AddMonthsOverflow(d: Date, n: int)
    requires IsValid(d)
    requires var c := CarryMonth(d.year, d.month + n); d.day > DaysInMonth(c.0, c.1)
    ensures var c := CarryMonth(d.year, d.month + n); var f := FollowingMonth(c.0, c.1);
      AddMonths(d, n) == Date(f.0, f.1, d.day - DaysInMonth(c.0, c.1))
  {
    var c := CarryMonth(d.year, d.month + n);
    assert AddMonths(d, n) == NormaliseDay(c.0, c.1, d.day);
    NormaliseDayOverflow(c.0, c.1, d.day);
  }

  /** AddYears keeps month and day whenever the day exists in the target year. */
  lemma {:induction false} AddYearsExact(d: Date, n: int)
    requires IsValid(d) && IsValid(Date(d.year + n, d.month, d.day))
    ensures AddYears(d, n) == Date(d.year + n, d.month, d.day)
  {
    NormaliseInRange(d.year + n, d.month, d.day);
  }

  /** A day past the end of month (y, m), by at most three days, lands in the following month. */
  lemma NormaliseDayOverflow(y: int, m: int, d: int)
    requires 0 <= m < 12 && DaysInMonth(y, m) < d <= 31
    ensures var f := FollowingMonth(y, m); NormaliseDay(y, m, d) == Date(f.0, f.1, d - DaysInMonth(y, m))
  {
    var f := FollowingMonth(y, m);
    assert NormaliseDay(y, m, d) == NormaliseDay(f.0, f.1, d - DaysInMonth(y, m));
  }

  lemma NormaliseDayInRange(y: int, m: int, d: int)
    requires IsValid(Date(y, m, d))
    ensures NormaliseDay(y, m, d) == Date(y, m, d)
  {
  }

  /** `new Date(y, m, 1)`: the first of month index `m` of year `y`, after the carry. */
  function MonthStart(y: int, m: int): (r: Date)
    ensures r == Date(CarryMonth(y, m).0, CarryMonth(y, m).1, 1)
  {
    NormaliseExact(y, m, 1);
    Normalise(y, m, 1)
  }

  /** Moving to the next month's first and back returns to the first of the original month. */
  lemma {:induction false} MonthStartRoundTrip(d: Date)
    requires IsValid(d)
    ensures var next := MonthStart(d.year, d.month + 1);
            MonthStart(next.year, next.month - 1) == Date(d.year, d.month, 1)
    ensures var prev := MonthStart(d.year, d.month - 1);
            MonthStart(prev.year, prev.month + 1) == Date(d.year, d.month, 1)
  {
    var y, m := d.year, d.month;
    CarryNeighbours(y, m);
    var (ny, nm) := FollowingMonth(y, m);
    CarryNeighbours(ny, nm);
    var (py, pm) := PreviousMonth(y, m);
    CarryNeighbours(py, pm);
  }

  /** A time of day: `getHours`, `getMinutes`, `getSeconds`, `getMilliseconds`. */
  datatype Time = Time(hour: int, minute: int, second: int, millisecond: int)

  predicate IsValidTime(t: Time) {
    0 <= t.hour < 24 && 0 <= t.minute < 60 && 0 <= t.second < 60 && 0 <= t.millisecond < 1000
  }

  const Midnight: Time := Time(0, 0, 0, 0)

  /** A `Date` object in local time: a calendar date and a time of day. */
  datatype Instant = Instant(date: Date, time: Time)

  predicate IsValidInstant(i: Instant) {
    IsValid(i.date) && IsValidTime(i.time)
  }

  const MsPerDay: int := 86400000

  function MsOfDay(t: Time): int {
    ((t.hour * 60 + t.minute) * 60 + t.second) * 1000 + t.millisecond
  }

  /** The time value that `<` and `>` compare on `Date` objects: milliseconds since the epoch. */
  function TimeValue(i: Instant): int
    requires 0 <= i.date.month < 12
  {
    DayNumber(i.date) * MsPerDay + MsOfDay(i.time)
  }

  /**
   * The year the `Date` constructor builds from its year argument: a year in 0..99 is read
   * as 1900 + year (ECMA-262 section 21.4.2.1, MakeFullYear). The setters `setFullYear`,
   * `setMonth` and `setDate` take the year as it is.
   */
  function FullYear(y: int): int {
    if 0 <= y <= 99 then 1900 + y else y
  }

  /** `new Date(y, m, d)`: midnight of the normalised date, after the year mapping. */
  function MakeDate(y: int, m: int, d: int): Instant {
    Instant(Normalise(FullYear(y), m, d), Midnight)
  }

  /**
   * `new Date(y, m, d)` with in-range parts is midnight of exactly that date, in the mapped
   * year; outside 0..99 the year is kept.
   */
  lemma MakeDateInRange(y: int, m: int, d: int)
    requires IsValid(Date(FullYear(y), m, d))
    ensures MakeDate(y, m, d) == Instant(Date(FullYear(y), m, d), Midnight)
    ensures !(0 <= y <= 99) ==> MakeDate(y, m, d).date == Date(y, m, d)
  {
    NormaliseInRange(FullYear(y), m, d);
  }

  /** `new Date(y, m - 1, d)` for a day of the month before month `m` of the mapped year. */
  lemma MakeDatePrevious(y: int, m: int, d: int)
    requires 0 <= m < 12
    requires var p := PreviousMonth(FullYear(y), m); 1 <= d <= DaysInMonth(p.0, p.1)
    ensures var p := PreviousMonth(FullYear(y), m); MakeDate(y, m - 1, d) == Instant(Date(p.0, p.1, d), Midnight)
  {
    PreviousMonthDate(FullYear(y), m, d);
  }

  /** `new Date(y, m + 1, d)` for a day of the month after month `m` of the mapped year. */
  lemma MakeDateFollowing(y: int, m: int, d: int)
    requires 0 <= m < 12
    requires var f := FollowingMonth(FullYear(y), m); 1 <= d <= DaysInMonth(f.0, f.1)
    ensures var f := FollowingMonth(FullYear(y), m); MakeDate(y, m + 1, d) == Instant(Date(f.0, f.1, d), Midnight)
  {
    FollowingMonthDate(FullYear(y), m, d);
  }

  /**
   * The mapping reaches dates the month carry produces: `new Date(99, 12, 1)` is 1 January
   * 2000, not of year 100, and `new Date(0, 2, 0)` is 28 February 1900, a common year,
   * not 29 February of year 0.
   */
  lemma {:induction false} ConstructorYearMapping()
    ensures MakeDate(99, 12, 1).date == Date(2000, 0, 1)
    ensures MakeDate(0, 2, 0).date == Date(1900, 1, 28)
    ensures Normalise(0, 2, 0) == Date(0, 1, 29)
  {
    FollowingMonthDate(1999, 11, 1);
    MonthEnds(1900, 1);
    MonthEnds(0, 1);
  }

  lemma MsOfDayBounds(t: Time)
    requires IsValidTime(t)
    ensures 0 <= MsOfDay(t) < MsPerDay
  {
  }

  /** Comparing time values of valid instants compares dates first, then times of day. */
  lemma {:induction false} TimeValueOrder(a: Instant, b: Instant)
    requires IsValidInstant(a) && IsValidInstant(b)
    ensures TimeValue(a) < TimeValue(b) <==>
      DayNumber(a.date) < DayNumber(b.date) ||
      (a.date == b.date && MsOfDay(a.time) < MsOfDay(b.time))
  {
    MsOfDayBounds(a.time);
    MsOfDayBounds(b.time);
    if DayNumber(a.date) == DayNumber(b.date) {
      DayNumberInjective(a.date, b.date);
    } else if DayNumber(a.date) < DayNumber(b.date) {
      assert DayNumber(a.date) * MsPerDay + MsPerDay <= DayNumber(b.date) * MsPerDay;
    } else {
      assert DayNumber(b.date) * MsPerDay + MsPerDay <= DayNumber(a.date) * MsPerDay;
    }
  }

  /** The month after the month before is the month itself. */
  lemma MonthNeighbours(y: int, m: int)
    requires 0 <= m < 12
    ensures var (py, pm) := PreviousMonth(y, m); FollowingMonth(py, pm) == (y, m)
    ensures var (ny, nm) := FollowingMonth(y, m); PreviousMonth(ny, nm) == (y, m)
  {
  }

  /** The first of the following month comes `DaysInMonth` days after the first of this one. */
  lemma {:induction false} FollowingMonthStart(y: int, m: int)
    requires 0 <= m < 12
    ensures var (ny, nm) := FollowingMonth(y, m);
      DayNumber(Date(ny, nm, 1)) == DayNumber(Date(y, m, 1)) + DaysInMonth(y, m)
  {
    NextMonthStart(y, m);
  }

  /** `new Date(y, k + 1, 0)` is the last day of month index `k`: day 0 rolls back one day. */
  lemma {:induction false} LastDayOfMonth(y: int, k: int)
    ensures var c := CarryMonth(y, k);
      Normalise(y, k + 1, 0) == Date(c.0, c.1, DaysInMonth(c.0, c.1))
  {
    var c := CarryMonth(y, k);
    CarryStep(y, k);
    FollowingMonthStart(c.0, c.1);
    NormaliseNumber(y, k + 1, 0);
    DayNumberInjective(Normalise(y, k + 1, 0), Date(c.0, c.1, DaysInMonth(c.0, c.1)));
  }

  /** `new Date(y, m - 1, d)` for a day `d` of the previous month. */
  lemma {:induction false} PreviousMonthDate(y: int, m: int, d: int)
    requires 0 <= m < 12
    requires 1 <= d <= DaysInMonth(PreviousMonth(y, m).0, PreviousMonth(y, m).1)
    ensures Normalise(y, m - 1, d) == Date(PreviousMonth(y, m).0, PreviousMonth(y, m).1, d)
  {
    CarryNeighbours(y, m);
    NormaliseExact(y, m - 1, d);
  }

  /** `new Date(y, m + 1, d)` for a day `d` of the following month. */
  lemma {:induction false} FollowingMonthDate(y: int, m: int, d: int)
    requires 0 <= m < 12
    requires 1 <= d <= DaysInMonth(FollowingMonth(y, m).0, FollowingMonth(y, m).1)
    ensures Normalise(y, m + 1, d) == Date(FollowingMonth(y, m).0, FollowingMonth(y, m).1, d)
  {
    CarryNeighbours(y, m);
    NormaliseExact(y, m + 1, d);
  }

  /**
   * Day 0 of a month is the last day of the month before: `new Date(y, m + 1, 0)` is the
   * last day of month `m` and `new Date(y, m, 0)` the last day of the previous month.
   */
  lemma {:induction false} MonthEnds(y: int, m: int)
    requires 0 <= m < 12
    ensures Normalise(y, m + 1, 0) == Date(y, m, DaysInMonth(y, m))
    ensures var (py, pm) := PreviousMonth(y, m); Normalise(y, m, 0) == Date(py, pm, DaysInMonth(py, pm))
  {
    CarryNeighbours(y, m);
    LastDayOfMonth(y, m);
    LastDayOfMonth(y, m - 1);
  }
}
