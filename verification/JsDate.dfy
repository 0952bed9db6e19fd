/** The part of the ECMAScript Date object that the date input relies on:
    the constructor `new Date(year, monthIndex, day)` in local time, and the
    getters `getFullYear()`, `getMonth()` and `getDate()` that read a date
    back. The constructor accepts out-of-range month and day numbers and
    carries them over into the neighbouring months and years (section
    21.4.2.1 of ECMA-262, and MakeDay among the Date abstract operations
    of section 21.4.1). */
module JsDate {
  import opened Gregorian

  /** A Date as the three getters see it: the full year, the zero-based
      month (0 = January) and the day of the month. */
  datatype Date = Date(year: int, month: int, day: int)

  /** Every Date value denotes a real day of the Gregorian calendar. */
  predicate IsCalendarDate(dt: Date)
  {
    0 <= dt.month < 12 && 1 <= dt.day <= DaysInMonth(dt.month + 1, dt.year)
  }

  /** The Date constructor reads a year argument between 0 and 99 as a
      year of the twentieth century (section 21.4.2.1 of ECMA-262, the
      step that computes the full year from the year argument). */
  function FullYear(y: int): (r: int)
    ensures 0 <= y <= 99 <==> r != y
    ensures r != y ==> r == 1900 + y
  {
    if 0 <= y <= 99 then 1900 + y else y
  }

  /** Carries a day number that overflows month `m` (1-based) of year `y`
      into the following months, and one that underflows it into the
      preceding months, one month at a time, until it names a day of the
      month reached. */
  function Balance(y: int, m: int, d: int): (r: Date)
    requires 1 <= m <= 12
    ensures IsCalendarDate(r)
    ensures 1 <= d <= DaysInMonth(m, y) <==> r == Date(y, m - 1, d)
    decreases if d < 1 then 33 - d else d
  {
    if d < 1 then
      var py := if m == 1 then y - 1 else y;
      var pm := if m == 1 then 12 else m - 1;
      Balance(py, pm, d + DaysInMonth(pm, py))
    else if d > DaysInMonth(m, y) then
      var ny := if m == 12 then y + 1 else y;
      var nm := if m == 12 then 1 else m + 1;
      Balance(ny, nm, d - DaysInMonth(m, y))
    else
      Date(y, m - 1, d)
  }

  /** The day after the last day of a month is the first of the next one. */
  lemma CarryIntoNextMonth(y: int, m: int)
    requires 1 <= m <= 12
    ensures Balance(y, m, DaysInMonth(m, y) + 1)
            == if m == 12 then Date(y + 1, 0, 1) else Date(y, m, 1)
  {
    var ny := if m == 12 then y + 1 else y;
    var nm := if m == 12 then 1 else m + 1;
    assert Balance(y, m, DaysInMonth(m, y) + 1) == Balance(ny, nm, 1);
  }

  /** Day 0 of a month is the last day of the previous one. */
  lemma CarryIntoPreviousMonth(y: int, m: int)
    requires 1 <= m <= 12
    ensures Balance(y, m, 0)
            == if m == 1 then Date(y - 1, 11, 31) else Date(y, m - 2, DaysInMonth(m - 1, y))
  {
    var py := if m == 1 then y - 1 else y;
    var pm := if m == 1 then 12 else m - 1;
    assert Balance(y, m, 0) == Balance(py, pm, DaysInMonth(pm, py));
  }

  /** `new Date(y, monthIndex, d)`: the two-digit-year rule, then the month
      index folded into the year (floor division and modulo by 12, as in
      MakeDay), then the day balanced across month boundaries. */
  function NewDate(y: int, monthIndex: int, d: int): (r: Date)
    ensures IsCalendarDate(r)
    ensures 0 <= monthIndex < 12 && 1 <= d <= DaysInMonth(monthIndex + 1, FullYear(y))
            ==> r == Date(FullYear(y), monthIndex, d)
  {
    Balance(FullYear(y) + monthIndex / 12, monthIndex % 12 + 1, d)
  }

  /** The number of days of year `y`. */
  function DaysInYear(y: int): int
  {
    if IsLeap(y) then 366 else 365
  }

  /** The number of the first day of year `y`, counting 1 January 1970 as
      day 0: the lengths of the years in between, added or taken away. */
  function DayFromYear(y: int): int
    decreases if y < 1970 then 1970 - y else y - 1970
  {
    if y == 1970 then 0
    else if y > 1970 then DayFromYear(y - 1) + DaysInYear(y - 1)
    else DayFromYear(y + 1) - DaysInYear(y)
  }

  /** Days of year `y` before the first of month `m` (13 stands for the
      first day of the next year). */
  function DaysBeforeMonth(m: int, y: int): (n: int)
    requires 1 <= m <= 13
    ensures 0 <= n <= 366
  {
    var common :=
      if m == 1 then 0 else if m == 2 then 31 else if m == 3 then 59
      else if m == 4 then 90 else if m == 5 then 120 else if m == 6 then 151
      else if m == 7 then 181 else if m == 8 then 212 else if m == 9 then 243
      else if m == 10 then 273 else if m == 11 then 304 else if m == 12 then 334
      else 365;
    if m > 2 && IsLeap(y) then common + 1 else common
  }

  /** The number of the first day of month `m` of year `y`. */
  function MonthStart(y: int, m: int): int
    requires 1 <= m <= 13
  {
    DayFromYear(y) + DaysBeforeMonth(m, y)
  }

  /** The number of the day a Date denotes, counting 1 January 1970 as day
      0: the Day of its time value in ECMA-262's terms. */
  function DayNumber(dt: Date): int
    requires 0 <= dt.month < 12
  {
    MonthStart(dt.year, dt.month + 1) + dt.day - 1
  }

  /** One step of a floor division by a period that divides the offset:
      `(x + 1) / k` exceeds `x / k` exactly when `x + 1` is a multiple of
      `k`, and `x + 1` is one exactly when `y` is. */
  lemma FloorStep4(y: int)
    ensures (y - 1968) / 4 - (y - 1969) / 4 == (if y % 4 == 0 then 1 else 0)
  {
    var q, r := (y - 1969) / 4, (y - 1969) % 4;
    assert y == 1969 + 4 * q + r;
    assert y % 4 == (r + 1) % 4;
  }

  /** The same step for the century term. */
  lemma FloorStep100(y: int)
    ensures (y - 1900) / 100 - (y - 1901) / 100 == (if y % 100 == 0 then 1 else 0)
  {
    var q, r := (y - 1901) / 100, (y - 1901) % 100;
    assert y == 1901 + 100 * q + r;
    assert y % 100 == (r + 1) % 100;
  }

  /** The same step for the four-century term. */
  lemma FloorStep400(y: int)
    ensures (y - 1600) / 400 - (y - 1601) / 400 == (if y % 400 == 0 then 1 else 0)
  {
    var q, r := (y - 1601) / 400, (y - 1601) % 400;
    assert y == 1601 + 400 * q + r;
    assert y % 400 == (r + 1) % 400;
  }

  /** Multiples of 400 are multiples of 100, which are multiples of 4. */
  lemma DivisibilityChain(y: int)
    ensures y % 400 == 0 ==> y % 100 == 0
    ensures y % 100 == 0 ==> y % 4 == 0
  {
    if y % 400 == 0 {
      var k := y / 400 * 4;
      assert y == k * 100;
      assert y / 100 == k;
    }
    if y % 100 == 0 {
      var k := y / 100 * 25;
      assert y == k * 4;
      assert y / 4 == k;
    }
  }

  /** Consecutive years start a year's length apart. */
  lemma YearLength(y: int)
    ensures DayFromYear(y + 1) - DayFromYear(y) == DaysInYear(y)
  {
  }

  /** The closed form that ECMA-262 gives for DayFromYear: 365 days a year
      plus the leap days counted by floor divisions. */
  function EcmaDayFromYear(y: int): int
  {
    365 * (y - 1970) + (y - 1969) / 4 - (y - 1901) / 100 + (y - 1601) / 400
  }

  /** The closed form grows by a year's length from one year to the next. */
  lemma EcmaYearLength(y: int)
    ensures EcmaDayFromYear(y + 1) - EcmaDayFromYear(y) == DaysInYear(y)
  {
    FloorStep4(y);
    FloorStep100(y);
    FloorStep400(y);
    DivisibilityChain(y);
    var a, b, c := (y - 1968) / 4, (y - 1900) / 100, (y - 1600) / 400;
    assert EcmaDayFromYear(y + 1) == 365 * (y - 1969) + a - b + c;
  }

  /** Counting year lengths from 1970 gives ECMA-262's closed form. */
  lemma {:induction false} DayFromYearIsEcma(y: int)
    ensures DayFromYear(y) == EcmaDayFromYear(y)
    decreases if y < 1970 then 1970 - y else y - 1970
  {
    if y > 1970 {
      DayFromYearIsEcma(y - 1);
      EcmaYearLength(y - 1);
    } else if y < 1970 {
      DayFromYearIsEcma(y + 1);
      EcmaYearLength(y);
    }
  }

  /** The day table and the month lengths agree: each month starts where
      the previous one ends, and month 13 starts after the whole year. */
  lemma DaysBeforeNext(m: int, y: int)
    requires 1 <= m <= 12
    ensures DaysBeforeMonth(m + 1, y) == DaysBeforeMonth(m, y) + DaysInMonth(m, y)
    ensures DaysBeforeMonth(13, y) == DaysInYear(y)
  {
  }

  /** Later months start later in the year. */
  lemma {:induction false} DaysBeforeIncrease(y: int, a: int, b: int)
    requires 1 <= a < b <= 13
    ensures DaysBeforeMonth(a + 1, y) <= DaysBeforeMonth(b, y)
    decreases b - a
  {
    if a + 1 < b {
      DaysBeforeIncrease(y, a, b - 1);
      DaysBeforeNext(b - 1, y);
    }
  }

  /** The first day of the month after month `m` comes `DaysInMonth(m, y)`
      days after the first of month `m`, across the end of a year too. */
  lemma NextMonthStart(y: int, m: int)
    requires 1 <= m <= 12
    ensures MonthStart(if m == 12 then y + 1 else y, if m == 12 then 1 else m + 1)
            == MonthStart(y, m) + DaysInMonth(m, y)
  {
    DaysBeforeNext(m, y);
    if m == 12 {
      YearLength(y);
    }
  }

  /** Carrying a day across month boundaries keeps the day it denotes:
      day `d` of month `m` is day `d - 1` after the first of that month,
      whatever the value of `d`. */
  lemma {:induction false} BalanceDayNumber(y: int, m: int, d: int)
    requires 1 <= m <= 12
    ensures DayNumber(Balance(y, m, d)) == MonthStart(y, m) + d - 1
    decreases if d < 1 then 33 - d else d
  {
    if d < 1 {
      var py := if m == 1 then y - 1 else y;
      var pm := if m == 1 then 12 else m - 1;
      BalanceDayNumber(py, pm, d + DaysInMonth(pm, py));
      NextMonthStart(py, pm);
    } else if d > DaysInMonth(m, y) {
      var ny := if m == 12 then y + 1 else y;
      var nm := if m == 12 then 1 else m + 1;
      BalanceDayNumber(ny, nm, d - DaysInMonth(m, y));
      NextMonthStart(y, m);
    }
  }

  /** The first days of years grow with the year. */
  lemma {:induction false} YearStartsIncrease(a: int, b: int)
    requires a < b
    ensures DayFromYear(a + 1) <= DayFromYear(b)
    decreases b - a
  {
    if a + 1 < b {
      YearStartsIncrease(a, b - 1);
      YearLength(b - 1);
    }
  }

  /** A calendar day lies inside its month. */
  lemma MonthBounds(dt: Date)
    requires IsCalendarDate(dt)
    ensures MonthStart(dt.year, dt.month + 1) <= DayNumber(dt) < MonthStart(dt.year, dt.month + 2)
  {
    DaysBeforeNext(dt.month + 1, dt.year);
  }

  /** A calendar day lies inside its year. */
  lemma YearBounds(dt: Date)
    requires IsCalendarDate(dt)
    ensures DayFromYear(dt.year) <= DayNumber(dt) < DayFromYear(dt.year + 1)
  {
    MonthBounds(dt);
    YearLength(dt.year);
    DaysBeforeNext(12, dt.year);
    if dt.month + 2 < 13 {
      DaysBeforeIncrease(dt.year, dt.month + 1, 13);
    }
  }

  /** A day number falls in one year only. */
  lemma OneYearPerDay(n: int, ya: int, yb: int)
    requires DayFromYear(ya) <= n < DayFromYear(ya + 1)
    requires DayFromYear(yb) <= n < DayFromYear(yb + 1)
    ensures ya == yb
  {
    if ya < yb {
      YearStartsIncrease(ya, yb);
    } else if yb < ya {
      YearStartsIncrease(yb, ya);
    }
  }

  /** Calendar days with the same number lie in the same year. */
  lemma SameDaySameYear(a: Date, b: Date)
    requires IsCalendarDate(a) && IsCalendarDate(b)
    requires DayNumber(a) == DayNumber(b)
    ensures a.year == b.year
  {
    var n := DayNumber(a);
    YearBounds(a);
    YearBounds(b);
    assert DayFromYear(a.year) <= n < DayFromYear(a.year + 1);
    assert DayFromYear(b.year) <= n < DayFromYear(b.year + 1);
    OneYearPerDay(n, a.year, b.year);
  }

  /** Calendar days of one year with the same number lie in the same month. */
  lemma SameDaySameMonth(a: Date, b: Date)
    requires IsCalendarDate(a) && IsCalendarDate(b) && a.year == b.year
    requires DayNumber(a) == DayNumber(b)
    ensures a.month == b.month
  {
    MonthBounds(a);
    MonthBounds(b);
    if a.month < b.month {
      DaysBeforeIncrease(a.year, a.month + 1, b.month + 1);
    } else if b.month < a.month {
      DaysBeforeIncrease(a.year, b.month + 1, a.month + 1);
    }
  }

  /** Different calendar days have different day numbers. */
  lemma DayNumberInjective(a: Date, b: Date)
    requires IsCalendarDate(a) && IsCalendarDate(b)
    requires DayNumber(a) == DayNumber(b)
    ensures a == b
  {
    SameDaySameYear(a, b);
    SameDaySameMonth(a, b);
  }

  /** The constructor computes the day as MakeDay does: the first day of
      the month reached after folding the month index into the year, plus
      `d - 1`. */
  lemma NewDateIsMakeDay(y: int, monthIndex: int, d: int)
    ensures DayNumber(NewDate(y, monthIndex, d))
            == MonthStart(FullYear(y) + monthIndex / 12, monthIndex % 12 + 1) + d - 1
  {
    BalanceDayNumber(FullYear(y) + monthIndex / 12, monthIndex % 12 + 1, d);
  }

  /** `dt.setDate(dt.getDate() + k)`: the date `k` days after `dt`, by the
      same carrying rule as the constructor. */
  function AddDays(dt: Date, k: int): (r: Date)
    requires IsCalendarDate(dt)
    ensures IsCalendarDate(r)
    ensures DayNumber(r) == DayNumber(dt) + k
  {
    BalanceDayNumber(dt.year, dt.month + 1, dt.day + k);
    Balance(dt.year, dt.month + 1, dt.day + k)
  }
}
