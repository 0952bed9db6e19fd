/** The proleptic Gregorian calendar: which years are leap years and how
    many days each month has. This is the calendar the JavaScript Date
    object uses for every year, before and after 1582 alike. */
module Gregorian {

  /** A year is a leap year when it is divisible by 4, except century years,
      which are leap years only when divisible by 400. Dafny's `%` is the
      mathematical modulo, which is what the Date algorithms use, so negative
      years are classified correctly too. */
  predicate IsLeap(y: int)
  {
    y % 4 == 0 && (y % 100 != 0 || y % 400 == 0)
  }

  /** Number of days of month `m` (1 = January … 12 = December) in year `y`. */
  function DaysInMonth(m: int, y: int): (n: int)
    requires 1 <= m <= 12
    ensures 28 <= n <= 31
  {
    if m == 2 then (if IsLeap(y) then 29 else 28)
    else if m in {4, 6, 9, 11} then 30
    else 31
  }
}
