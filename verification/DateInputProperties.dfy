/** What the spinner and edit rules of the date input guarantee, stated
    over the functions of module DateInput. */
module DateInputProperties {
  import opened Gregorian
  import opened JsDate
  import opened DateInput

  /** Years the Date constructor takes literally: outside 0..99. */
  predicate LiteralYear(y: int)
  {
    y < 0 || y > 99
  }

  /** For a literal year, the last day of a month is the Gregorian month
      length: 31 or 30 by month, and February has 29 days exactly in leap
      years. */
  lemma LastDayIsMonthLength(m: int, y: int)
    requires 1 <= m <= 12 && LiteralYear(y)
    ensures LastDay(m, y) == DaysInMonth(m, y)
    ensures LastDay(m, y) == if m == 2 then (if IsLeap(y) then 29 else 28)
                             else if m in {4, 6, 9, 11} then 30
                             else 31
  {
  }

  /** Months outside 1..12 are carried into the year before the last day is
      looked up: month 13 is January of the next year, month 0 is December
      of the previous one. */
  lemma {:induction false} LastDayCarriesMonth(m: int, y: int)
    ensures LastDay(m, y) == DaysInMonth((m - 1) % 12 + 1, FullYear(y) + (m - 1) / 12)
  {
    var fy := FullYear(y);
    if m % 12 == 0 {
      assert (m - 1) % 12 == 11 && (m - 1) / 12 == m / 12 - 1;
      assert NewDate(y, m, 0) == Balance(fy + m / 12, 1, 0);
      assert Balance(fy + m / 12, 1, 0) == Balance(fy + m / 12 - 1, 12, DaysInMonth(12, fy + m / 12 - 1));
    } else {
      assert (m - 1) % 12 == m % 12 - 1 && (m - 1) / 12 == m / 12;
      var pm := m % 12;
      assert NewDate(y, m, 0) == Balance(fy + m / 12, pm + 1, 0);
      assert Balance(fy + m / 12, pm + 1, 0) == Balance(fy + m / 12, pm, DaysInMonth(pm, fy + m / 12));
    }
  }

  /** After the wrap, the month following a valid month. */
  lemma NextMonthOfValid(m: int)
    requires 1 <= m <= 12
    ensures JsRem12(m) + 1 == (if m == 12 then 1 else m + 1)
  {
  }

  /** Reading a triple back from the Date built from it gives the same
      triple exactly when the triple is a real date. */
  lemma ValidIffRoundTrip(p: DateParts)
    requires LiteralYear(p.year)
    ensures Valid(p) <==> PartsOf(ToDate(p)) == p
  {
  }

  /** Spinning the day of a real date up or down gives a real date. */
  lemma DaySpinsKeepValid(p: DateParts)
    requires Valid(p)
    ensures Valid(Increment(p, Day))
    ensures Valid(Decrement(p, Day))
  {
    NextMonthOfValid(p.month);
  }

  /** On real dates, ArrowDown on the day undoes ArrowUp, across month and
      year ends. */
  lemma DownUndoesUp(p: DateParts)
    requires Valid(p)
    ensures Decrement(Increment(p, Day), Day) == p
  {
    NextMonthOfValid(p.month);
  }

  /** On real dates, ArrowUp on the day undoes ArrowDown, across month and
      year starts. */
  lemma UpUndoesDown(p: DateParts)
    requires Valid(p)
    ensures Increment(Decrement(p, Day), Day) == p
  {
    if p.day == 1 {
      NextMonthOfValid(if p.month == 1 then 12 else p.month - 1);
    }
  }

  /** ArrowUp on the day of a real date moves the Date handed to
      `onChange` to the next calendar day, as `setDate(getDate() + 1)`
      would, whenever the year field after the spin still names the next
      year (it does not from 99, which the constructor reads as 1999, to
      100). */
  lemma IncrementDayIsNextDay(p: DateParts)
    requires Valid(p) && FullYear(p.year + 1) == FullYear(p.year) + 1
    ensures ToDate(Increment(p, Day)) == AddDays(ToDate(p), 1)
    ensures DayNumber(ToDate(Increment(p, Day))) == DayNumber(ToDate(p)) + 1
  {
    var fy := FullYear(p.year);
    DaySpinsKeepValid(p);
    assert AddDays(ToDate(p), 1) == Balance(fy, p.month, p.day + 1);
    if p.day == LastDay(p.month, p.year) {
      NextMonthOfValid(p.month);
      CarryIntoNextMonth(fy, p.month);
    }
  }

  /** ArrowDown on the day of a real date moves the Date handed to
      `onChange` to the previous calendar day, whenever the year field
      after the spin still names the previous year (it does not from 100
      to 99, which the constructor reads as 1999). */
  lemma DecrementDayIsPreviousDay(p: DateParts)
    requires Valid(p) && FullYear(p.year - 1) == FullYear(p.year) - 1
    ensures ToDate(Decrement(p, Day)) == AddDays(ToDate(p), -1)
    ensures DayNumber(ToDate(Decrement(p, Day))) == DayNumber(ToDate(p)) - 1
  {
    var fy := FullYear(p.year);
    DaySpinsKeepValid(p);
    assert AddDays(ToDate(p), -1) == Balance(fy, p.month, p.day - 1);
    if p.day == 1 {
      CarryIntoPreviousMonth(fy, p.month);
    }
  }

  /** Month spins are inverse to each other on every triple except at the
      two months the wrap tests miss: from month 0, ArrowUp gives 1 and
      ArrowDown then wraps to 12 of the previous year; from month 13,
      ArrowDown gives 12 and ArrowUp then wraps to 1 of the next year. */
  lemma MonthSpinsInverse(p: DateParts)
    ensures Decrement(Increment(p, Month), Month) == p <==> p.month != 0
    ensures Increment(Decrement(p, Month), Month) == p <==> p.month != 13
  {
  }

  /** Year spins are inverse to each other on every triple. */
  lemma YearSpinsInverse(p: DateParts)
    ensures Decrement(Increment(p, Year), Year) == p
    ensures Increment(Decrement(p, Year), Year) == p
  {
  }

  /** A spin never changes a field finer than the one spun: month spins
      keep the day, year spins keep the day and the month; a year spin
      moves the year by exactly one, and a month spin moves it only when
      wrapping. */
  lemma SpinsKeepFinerFields(p: DateParts)
    ensures Increment(p, Month).day == p.day && Decrement(p, Month).day == p.day
    ensures Increment(p, Year) == p.(year := p.year + 1)
    ensures Decrement(p, Year) == p.(year := p.year - 1)
    ensures Increment(p, Month).year == (if p.month == 12 then p.year + 1 else p.year)
    ensures Decrement(p, Month).year == (if p.month == 1 then p.year - 1 else p.year)
  {
  }

  /** A month spin can leave a real date: January 31 becomes February 31,
      and the Date handed to `onChange` is carried into March 3. */
  lemma MonthSpinCanInvalidate()
    ensures Valid(DateParts(31, 1, 2023))
    ensures Increment(DateParts(31, 1, 2023), Month) == DateParts(31, 2, 2023)
    ensures !Valid(DateParts(31, 2, 2023))
    ensures ToDate(DateParts(31, 2, 2023)) == Date(2023, 2, 3)
  {
    LastDayIsMonthLength(2, 2023);
  }

  /** A year spin can leave a real date: February 29 2024 becomes February
      29 2025, and the Date handed to `onChange` is carried into March 1. */
  lemma YearSpinCanInvalidate()
    ensures Valid(DateParts(29, 2, 2024))
    ensures Increment(DateParts(29, 2, 2024), Year) == DateParts(29, 2, 2025)
    ensures !Valid(DateParts(29, 2, 2025))
    ensures ToDate(DateParts(29, 2, 2025)) == Date(2025, 2, 1)
  {
    LastDayIsMonthLength(2, 2024);
    LastDayIsMonthLength(2, 2025);
  }

  /** The day rollovers at month and year ends, on concrete dates. */
  lemma DayRolloverExamples()
    ensures Increment(DateParts(31, 1, 2023), Day) == DateParts(1, 2, 2023)
    ensures Increment(DateParts(31, 12, 2023), Day) == DateParts(1, 1, 2024)
    ensures Decrement(DateParts(1, 3, 2023), Day) == DateParts(28, 2, 2023)
    ensures Decrement(DateParts(1, 3, 2024), Day) == DateParts(29, 2, 2024)
    ensures Decrement(DateParts(1, 1, 2024), Day) == DateParts(31, 12, 2023)
  {
    NextMonthOfValid(1);
    NextMonthOfValid(12);
  }

  /** The leap-year rule at its three levels, through the constructor
      expression the component uses. */
  lemma LeapYearExamples()
    ensures LastDay(2, 2024) == 29 && LastDay(2, 2023) == 28
    ensures LastDay(2, 2000) == 29 && LastDay(2, 1900) == 28
  {
    LastDayIsMonthLength(2, 2024);
    LastDayIsMonthLength(2, 2023);
    LastDayIsMonthLength(2, 2000);
    LastDayIsMonthLength(2, 1900);
  }

  /** Year 0 is a leap year of the calendar, but a year field holding 0
      builds a Date in 1900, where February has 28 days. */
  lemma TwoDigitYear()
    ensures IsLeap(0) && LastDay(2, 0) == 28
    ensures ToDate(DateParts(1, 1, 24)) == Date(1924, 0, 1)
  {
  }

  /** ArrowLeft at the start of the field the focus moved to with
      ArrowRight brings it back. */
  lemma FocusLeftUndoesRight(f: Field, g: Field, length: int)
    requires FocusTarget(f, ArrowRight, length, length, length) == Some(g)
    ensures FocusTarget(g, ArrowLeft, 0, 0, length) == Some(f)
  {
  }

  /** Typing a date field by field, from any starting date: month 2,
      day 1, year 2023 ends at February 1 2023, and the last keystroke
      hands that Date to `onChange`. */
  method TypedEditScenario(start: Date)
  {
    var input := new DateInputState(start);
    var d1 := input.HandleInputChange(Month, 2);
    var d2 := input.HandleInputChange(Day, 1);
    var d3 := input.HandleInputChange(Year, 2023);
    var p := input.date;
    assert p == DateParts(1, 2, 2023);
    assert Valid(p);
    assert d3 == ToDate(p) == Date(2023, 1, 1);
  }
}
