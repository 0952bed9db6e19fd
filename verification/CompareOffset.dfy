/** The compare range that the date-range picker's test expects when the
    compare toggle is on: the primary range with both ends moved back by
    365 days, each with `setDate(getDate() - 365)`. */
module CompareOffset {
  import opened JsDate

  /** A range of days, as the picker reports it to `onUpdate`. */
  datatype DateRange = DateRange(from: Date, to: Date)

  /** Both ends of `r` moved `days` days back. */
  function PriorPeriod(r: DateRange, days: int): (c: DateRange)
    requires IsCalendarDate(r.from) && IsCalendarDate(r.to)
    ensures IsCalendarDate(c.from) && IsCalendarDate(c.to)
    ensures DayNumber(r.from) - DayNumber(c.from) == days
    ensures DayNumber(r.to) - DayNumber(c.to) == days
    ensures DayNumber(c.to) - DayNumber(c.from) == DayNumber(r.to) - DayNumber(r.from)
  {
    DateRange(AddDays(r.from, -days), AddDays(r.to, -days))
  }

  /** The same date a year earlier lies a year's length back: the length of
      the previous year for January and February, of the current year from
      March on, since that is the February the span crosses. */
  lemma SameDateYearEarlier(dt: Date)
    requires IsCalendarDate(dt) && IsCalendarDate(dt.(year := dt.year - 1))
    ensures DayNumber(dt) - DayNumber(dt.(year := dt.year - 1))
            == if dt.month < 2 then DaysInYear(dt.year - 1) else DaysInYear(dt.year)
  {
    YearLength(dt.year - 1);
  }

  /** The test's range, 1 February to 30 March 2023, has the prior period
      1 February to 30 March 2022: no February 29 lies in between. */
  lemma TestRangePriorPeriod()
    ensures PriorPeriod(DateRange(Date(2023, 1, 1), Date(2023, 2, 30)), 365)
            == DateRange(Date(2022, 1, 1), Date(2022, 2, 30))
  {
    var r := DateRange(Date(2023, 1, 1), Date(2023, 2, 30));
    var c := PriorPeriod(r, 365);
    SameDateYearEarlier(r.from);
    SameDateYearEarlier(r.to);
    DayNumberInjective(c.from, Date(2022, 1, 1));
    DayNumberInjective(c.to, Date(2022, 2, 30));
  }
}
