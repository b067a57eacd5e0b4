/** Whole-day calendar arithmetic of the proleptic Gregorian calendar, as the
    engine uses it through .NET's DateTime: days since 0001-01-01, weekday
    numbering 0 = Sunday .. 6 = Saturday, AddDays, AddMonths and AddYears with
    the day of the month clamped to the target month's length. */
module Calendar {

  datatype Date = Date(year: int, month: int, day: int)

  /** A time stamp: a date and the ticks (100 ns units) elapsed since its midnight. */
  datatype DateTime = DateTime(date: Date, ticks: int)

  const TicksPerDay: int := 864_000_000_000
  const TicksPerHour: int := 36_000_000_000

  predicate IsLeapYear(y: int) {
    y % 4 == 0 && (y % 100 != 0 || y % 400 == 0)
  }

  function DaysInMonth(y: int, m: int): (n: int)
    requires 1 <= m <= 12
    ensures 28 <= n <= 31
    ensures n == 29 <==> m == 2 && IsLeapYear(y)
  {
    if m == 2 then (if IsLeapYear(y) then 29 else 28)
    else if m == 4 || m == 6 || m == 9 || m == 11 then 30
    else 31
  }

  predicate ValidDate(x: Date) {
    x.year >= 1 && 1 <= x.month <= 12 && 1 <= x.day <= DaysInMonth(x.year, x.month)
  }

  predicate ValidDateTime(t: DateTime) {
    ValidDate(t.date) && 0 <= t.ticks < TicksPerDay
  }

  function DaysInYear(y: int): int {
    if IsLeapYear(y) then 366 else 365
  }

  /** Days in the years 1 .. y-1. */
  function DaysBeforeYear(y: int): int
    requires y >= 1
  {
    if y == 1 then 0 else DaysBeforeYear(y - 1) + DaysInYear(y - 1)
  }

  /** Days in the months 1 .. m-1 of year y. */
  function DaysBeforeMonth(y: int, m: int): int
    requires 1 <= m <= 12
  {
    var common := [0, 31, 59, 90, 120, 151, 181, 212, 243, 273, 304, 334][m - 1];
    if m > 2 && IsLeapYear(y) then common + 1 else common
  }

  /** Days elapsed from 0001-01-01 to x. */
  function DayNumber(x: Date): int
    requires ValidDate(x)
  {
    DaysBeforeYear(x.year) + DaysBeforeMonth(x.year, x.month) + x.day - 1
  }

  /** The weekday of day number n: day 0, 0001-01-01, was a Monday. */
  function Weekday(n: int): int {
    (n + 1) % 7
  }

  /** .NET DayOfWeek: 0 = Sunday .. 6 = Saturday. */
  function DayOfWeek(x: Date): int
    requires ValidDate(x)
  {
    Weekday(DayNumber(x))
  }

  function NextDay(x: Date): (r: Date)
    requires ValidDate(x)
    ensures ValidDate(r) && DayNumber(r) == DayNumber(x) + 1
  {
    NextDayNumber(x);
    if x.day < DaysInMonth(x.year, x.month) then Date(x.year, x.month, x.day + 1)
    else if x.month < 12 then Date(x.year, x.month + 1, 1)
    else Date(x.year + 1, 1, 1)
  }

  /** Leap years among the years 1 .. p. */
  function LeapYearsThrough(p: int): int {
    p / 4 - p / 100 + p / 400
  }

  /** The year count agrees with the closed form .NET's DateTime uses:
      365 days a year plus the leap days of the years before. */
  lemma {:induction false} DaysBeforeYearClosedForm(y: int)
    requires y >= 1
    ensures DaysBeforeYear(y) == 365 * (y - 1) + LeapYearsThrough(y - 1)
  {
    if y > 1 {
      DaysBeforeYearClosedForm(y - 1);
      LeapYearsStep(y - 2);
    }
  }

  lemma LeapYearsStep(p: int)
    ensures LeapYearsThrough(p + 1) == LeapYearsThrough(p) + if IsLeapYear(p + 1) then 1 else 0
  {
    DivStep4(p);
    DivStep100(p);
    DivStep400(p);
    CenturyDivisibility(p + 1);
  }

  lemma CenturyDivisibility(a: int)
    ensures a % 100 == 0 ==> a % 4 == 0
    ensures a % 400 == 0 ==> a % 100 == 0
  {
    if a % 100 == 0 {
      var q := a / 100;
      assert a == 4 * (25 * q);
    }
    if a % 400 == 0 {
      var q := a / 400;
      assert a == 100 * (4 * q);
    }
  }

  lemma DivStep4(p: int)
    ensures (p + 1) / 4 == p / 4 + if (p + 1) % 4 == 0 then 1 else 0
  {
  }

  lemma DivStep100(p: int)
    ensures (p + 1) / 100 == p / 100 + if (p + 1) % 100 == 0 then 1 else 0
  {
  }

  lemma DivStep400(p: int)
    ensures (p + 1) / 400 == p / 400 + if (p + 1) % 400 == 0 then 1 else 0
  {
  }

  lemma NextDayNumber(x: Date)
    requires ValidDate(x)
    ensures x.day == DaysInMonth(x.year, x.month) && x.month < 12 ==>
      DaysBeforeMonth(x.year, x.month + 1) == DaysBeforeMonth(x.year, x.month) + x.day
    ensures x.day == DaysInMonth(x.year, x.month) && x.month == 12 ==>
      DaysBeforeYear(x.year + 1) == DaysBeforeYear(x.year) + DaysBeforeMonth(x.year, 12) + x.day
  {
  }

  /** currentDate.AddDays(n) for a whole number of days n >= 0. */
  function AddDays(x: Date, n: nat): (r: Date)
    requires ValidDate(x)
    ensures ValidDate(r) && DayNumber(r) == DayNumber(x) + n
    decreases n
  {
    if n == 0 then x else AddDays(NextDay(x), n - 1)
  }

  function Min(a: int, b: int): int { if a <= b then a else b }

  /** currentDate.AddMonths(k): move k months forward, clamp the day. */
  function AddMonths(x: Date, k: nat): (r: Date)
    requires ValidDate(x)
    ensures ValidDate(r)
    ensures r.year * 12 + r.month == x.year * 12 + x.month + k
    ensures r.day == Min(x.day, DaysInMonth(r.year, r.month))
  {
    var i := x.month - 1 + k;
    var y := x.year + i / 12;
    var m := i % 12 + 1;
    Date(y, m, Min(x.day, DaysInMonth(y, m)))
  }

  /** currentDate.AddYears(k): Feb 29 becomes Feb 28 in a common year. */
  function AddYears(x: Date, k: nat): (r: Date)
    requires ValidDate(x)
    ensures ValidDate(r)
    ensures r.year == x.year + k && r.month == x.month
    ensures r.day == Min(x.day, DaysInMonth(r.year, r.month))
  {
    var y := x.year + k;
    if x.month == 2 && x.day == 29 && !IsLeapYear(y) then Date(y, 2, 28) else Date(y, x.month, x.day)
  }

  /** Adding k years is adding 12 * k months. */
  lemma AddYearsIsTwelveMonths(x: Date, k: nat)
    requires ValidDate(x)
    ensures AddYears(x, k) == AddMonths(x, 12 * k)
  {
    var a, b := AddYears(x, k), AddMonths(x, 12 * k);
    assert b.year * 12 + b.month == (x.year + k) * 12 + x.month;
    assert b.year == x.year + k && b.month == x.month;
  }

  /** DaysBeforeYear grows by at least a year's length from one year to a later one. */
  lemma {:induction false} DaysBeforeYearMonotone(y1: int, y2: int)
    requires 1 <= y1 < y2
    ensures DaysBeforeYear(y1) + DaysInYear(y1) <= DaysBeforeYear(y2)
    decreases y2 - y1
  {
    if y1 + 1 < y2 {
      DaysBeforeYearMonotone(y1, y2 - 1);
    }
  }

  lemma DaysBeforeMonthMonotone(y: int, m1: int, m2: int)
    requires 1 <= m1 < m2 <= 12
    ensures DaysBeforeMonth(y, m1) + DaysInMonth(y, m1) <= DaysBeforeMonth(y, m2)
  {
  }

  /** A date in an earlier (year, month) has a smaller day number. */
  lemma DayNumberMonthOrder(a: Date, b: Date)
    requires ValidDate(a) && ValidDate(b)
    requires a.year * 12 + a.month < b.year * 12 + b.month
    ensures DayNumber(a) < DayNumber(b)
  {
    if a.year == b.year {
      DaysBeforeMonthMonotone(a.year, a.month, b.month);
    } else {
      assert a.year < b.year;
      DaysBeforeYearMonotone(a.year, b.year);
      if a.month < 12 {
        DaysBeforeMonthMonotone(a.year, a.month, 12);
      }
    }
  }

  /** Day numbers order dates exactly as (year, month, day) does: comparing
      day numbers is comparing the dates. */
  lemma DayNumberOrder(a: Date, b: Date)
    requires ValidDate(a) && ValidDate(b)
    ensures DayNumber(a) < DayNumber(b) <==>
      a.year * 12 + a.month < b.year * 12 + b.month ||
      (a.year == b.year && a.month == b.month && a.day < b.day)
    ensures DayNumber(a) == DayNumber(b) <==> a == b
  {
    if a.year * 12 + a.month < b.year * 12 + b.month {
      DayNumberMonthOrder(a, b);
    } else if b.year * 12 + b.month < a.year * 12 + a.month {
      DayNumberMonthOrder(b, a);
    } else {
      assert a.year == b.year && a.month == b.month;
    }
  }

  lemma WeekdayShift(n: int, k: int)
    ensures 0 <= Weekday(n) <= 6
    ensures Weekday(n + k) == (Weekday(n) + k) % 7
  {
    var q := (n + 1) / 7;
    assert n + 1 == 7 * q + Weekday(n);
    assert n + k + 1 == 7 * q + (Weekday(n) + k);
    ModShift(q, Weekday(n) + k);
  }

  lemma ModShift(q: int, a: int)
    ensures (7 * q + a) % 7 == a % 7
  {
  }

  lemma WeekdayLaterInWeek(n: int, m: int)
    requires Weekday(n) < m <= 6
    ensures Weekday(n + (m - Weekday(n))) == m
  {
    WeekdayShift(n, m - Weekday(n));
  }

  lemma WeekdayWeeksLater(n: int, w: int, m: int)
    requires w >= 1 && 0 <= m <= 6
    ensures 7 * w - Weekday(n) + m >= 1
    ensures Weekday(n + (7 * w - Weekday(n) + m)) == m
  {
    var d := Weekday(n);
    WeekdayShift(n, 7 * w - d + m);
    assert d + (7 * w - d + m) == 7 * w + m;
    ModShift(w, m);
  }

  /** The weekday of a date n days on is the weekday of its day number. */
  lemma DayOfWeekAt(x: Date, n: nat)
    requires ValidDate(x)
    ensures DayOfWeek(AddDays(x, n)) == Weekday(DayNumber(x) + n)
  {
  }

  /** Weekdays advance with the day count, modulo 7. */
  lemma DayOfWeekAfter(x: Date, n: nat)
    requires ValidDate(x)
    ensures DayOfWeek(AddDays(x, n)) == (DayOfWeek(x) + n) % 7
  {
    WeekdayShift(DayNumber(x), n);
    DayOfWeekAt(x, n);
  }

  /** Moving to a later weekday m of the same week lands on m. */
  lemma DayOfWeekLaterInWeek(x: Date, m: int)
    requires ValidDate(x) && DayOfWeek(x) < m <= 6
    ensures DayOfWeek(AddDays(x, m - DayOfWeek(x))) == m
  {
    WeekdayLaterInWeek(DayNumber(x), m);
    DayOfWeekAt(x, m - DayOfWeek(x));
  }

  /** Moving w weeks on, back to the week's start and then m days in, lands on m. */
  lemma DayOfWeekWeeksLater(x: Date, w: int, m: int)
    requires ValidDate(x) && w >= 1 && 0 <= m <= 6
    ensures 7 * w - DayOfWeek(x) + m >= 1
    ensures DayOfWeek(AddDays(x, 7 * w - DayOfWeek(x) + m)) == m
  {
    WeekdayWeeksLater(DayNumber(x), w, m);
    DayOfWeekAt(x, 7 * w - DayOfWeek(x) + m);
  }

  /** Moving forward by at least one month gives a strictly later date. */
  lemma AddMonthsLater(x: Date, k: nat)
    requires ValidDate(x) && k >= 1
    ensures DayNumber(AddMonths(x, k)) > DayNumber(x)
  {
    DayNumberMonthOrder(x, AddMonths(x, k));
  }

  /** Moving forward by at least one year gives a strictly later date. */
  lemma AddYearsLater(x: Date, k: nat)
    requires ValidDate(x) && k >= 1
    ensures DayNumber(AddYears(x, k)) > DayNumber(x)
  {
    AddYearsIsTwelveMonths(x, k);
    AddMonthsLater(x, 12 * k);
  }

  /** Ticks since 0001-01-01 00:00. */
  function TotalTicks(t: DateTime): int
    requires ValidDateTime(t)
  {
    DayNumber(t.date) * TicksPerDay + t.ticks
  }
}
