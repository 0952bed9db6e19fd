# DateInput calendar core

A Dafny model of the date-part field group `DateInput` of the date-range
picker for shadcn. The component keeps a `{day, month, year}` record
(`DateParts`). It shows the record as three text fields: month, day and year.
Three things change the record:

- a typed edit replaces one field with the typed number;
- ArrowUp increments one field. Past a month's last day the day goes back to 1
  and the month moves on. Past December the month goes back to January and the
  year moves on;
- ArrowDown decrements one field, with the matching rollover. Below day 1 it
  goes to the last day of the previous month.

After every change the component calls `onChange` with
`new Date(year, month - 1, day)`. The only calendar knowledge it uses is the
expression `new Date(year, month, 0).getDate()`, the last day of a month.

The model has five modules:

- `Gregorian`: the leap-year rule and the month-length table of the proleptic
  Gregorian calendar.
- `JsDate`: the parts of the ECMAScript Date object the component relies on.
  - The constructor `new Date(y, monthIndex, d)` reads a year from 0 to 99 as
    1900 to 1999.
  - It folds the month index into the year (floor division and modulo by 12).
  - It carries an overflowing or underflowing day into the neighbouring months
    (`Balance`).
  - A Date is seen through `getFullYear`, `getMonth` and `getDate`.
  - Every Date also has a day number counted from 1 January 1970. The lemmas
    prove three things about it:
    - the constructor's carrying agrees with ECMA-262's MakeDay arithmetic;
    - the year-by-year count equals ECMA-262's closed form for DayFromYear;
    - different calendar days have different numbers.
- `DateInput`: the record, the spinner rules as functions (`Increment`,
  `Decrement`), the typed edit (`With`) and `LastDay`.
  - `LastDay` is defined literally as the constructor expression.
  - The class `DateInputState` holds the `date` field. Its methods update it
    in place, as the component's handlers do.
  - Each handler returns the Date it hands to `onChange`. `HandleKeyDown`
    returns `None` for keys that do not call `onChange`.
- `DateInputProperties`: lemmas about the model. They cover the month length
  and leap years, the round trips between triples and Dates, the validity and
  inverse properties of the spinners, and day steps as calendar successor and
  predecessor.
- `CompareOffset`: the compare range that the range picker's test expects:
  both ends of the primary range moved 365 days back, keeping its length.

Two facts about the code deserve a note:

- **Typed edits.** `handleInputChange` stores the record and calls `onChange`
  on every edit, with no validity or range check (src/date-input.tsx:39-44).
  `HandleInputChange` does the same.
- **Month spins.** Month spins are inverse to each other except at months 0
  and 13, which only a typed edit produces (`MonthSpinsInverse` states both
  directions).

## Model

| member | source | states |
|---|---|---|
| `Gregorian.IsLeap` | src/date-input.tsx:54 | the Gregorian leap rule (divisible by 4, centuries only when divisible by 400); `DayFromYearIsEcma` proves that the year lengths it yields add up to ECMA-262's closed form with its three floor-division terms |
| `Gregorian.DaysInMonth` | src/date-input.tsx:54 | the Gregorian month-length table; every month has 28 to 31 days (its values are stated through `LastDayIsMonthLength`) |
| `JsDate.FullYear` | src/date-input.tsx:43 | the Date constructor changes a year argument exactly when it lies in 0..99, and then to 1900 + year |
| `JsDate.Balance` | src/date-input.tsx:43 | carrying a day number across month boundaries always ends on a real calendar day, and leaves it alone exactly when it is already a day of its month |
| `JsDate.CarryIntoNextMonth` | src/date-input.tsx:43 | the day after a month's last day is the first of the next month, December into January of the next year |
| `JsDate.CarryIntoPreviousMonth` | src/date-input.tsx:54 | day 0 of a month is the last day of the previous month, January into December 31 of the previous year |
| `JsDate.NewDate` | src/date-input.tsx:43 | `new Date(y, monthIndex, d)` always yields a real calendar day, and yields exactly (full year, monthIndex, d) when those name one |
| `JsDate.DayFromYearIsEcma` | src/date-input.tsx:43 | counting year lengths (366 days for a leap year, 365 otherwise) from 1970 gives ECMA-262's closed form 365(y-1970) + floor((y-1969)/4) - floor((y-1901)/100) + floor((y-1601)/400) |
| `JsDate.DaysBeforeNext` | src/date-input.tsx:54 | the cumulative day table and the month lengths agree, and the table adds up to the year's length |
| `JsDate.BalanceDayNumber` | src/date-input.tsx:43 | carrying never changes the day denoted: day d of month m is d - 1 days after the first of m, for every integer d |
| `JsDate.NewDateIsMakeDay` | src/date-input.tsx:43 | the constructor's result is the day MakeDay computes: first of the folded month plus d - 1 |
| `JsDate.DayNumberInjective` | src/date-input.tsx:43 | two calendar days with the same day number are the same Date |
| `JsDate.AddDays` | src/date-range-picker.test.tsx:127-129 | `setDate(getDate() + k)` yields a real calendar day exactly k days after the original |
| `CompareOffset.PriorPeriod` | src/date-range-picker.test.tsx:124-129 | both ends move back by the given number of days, so the range keeps its length |
| `CompareOffset.SameDateYearEarlier` | src/date-range-picker.test.tsx:124-129 | the same date a year earlier lies the previous year's length back for January and February, the current year's from March on |
| `CompareOffset.TestRangePriorPeriod` | src/date-range-picker.test.tsx:124-129 | 1 Feb to 30 Mar 2023 moved back 365 days is 1 Feb to 30 Mar 2022 |
| `DateInput.With` | src/date-input.tsx:39 | an edit sets field f to v and leaves the other two fields unchanged |
| `DateInput.JsRem12` | src/date-input.tsx:55 | JavaScript's `% 12`: congruent to the dividend modulo 12, smaller than 12 in magnitude, with the dividend's sign |
| `DateInput.LastDay` | src/date-input.tsx:54 | `new Date(y, m, 0).getDate()` lies in 28..31 and, for m in 1..12, is the Gregorian length of month m of the constructor's full year |
| `DateInput.ToDate` | src/date-input.tsx:43 | the Date passed to `onChange` is always a real day; for a valid triple it is exactly (full year, month - 1, day) |
| `DateInput.PartsOf` | src/date-input.tsx:16-21 | the record read from a real Date whose year lies outside 0..99 is valid and builds that same Date again |
| `DateInput.Increment` | src/date-input.tsx:53-72 | the record after ArrowUp on a field. `DaySpinsKeepValid`, `DownUndoesUp`, `UpUndoesDown`, `IncrementDayIsNextDay`, `MonthSpinsInverse`, `YearSpinsInverse` and `SpinsKeepFinerFields` state what it does |
| `DateInput.Decrement` | src/date-input.tsx:80-103 | the record after ArrowDown on a field, with the previous month's last day looked up after the month and year change. `DaySpinsKeepValid`, `DownUndoesUp`, `UpUndoesDown`, `DecrementDayIsPreviousDay`, `MonthSpinsInverse`, `YearSpinsInverse` and `SpinsKeepFinerFields` state what it does |
| `DateInput.FocusTarget` | src/date-input.tsx:109-129 | ArrowRight at the end or with all selected moves month to day to year; ArrowLeft at the start moves back; no other key and no other caret moves focus, and never to the same field |
| `DateInput.DateInputState.constructor` | src/date-input.tsx:15-22 | the initial record is read from the given Date |
| `DateInput.DateInputState.Resync` | src/date-input.tsx:28-35 | a new `value` replaces the record by the one read from it |
| `DateInput.DateInputState.HandleInputChange` | src/date-input.tsx:37-45 | the record becomes the old one with field f set to v, without any validity check, and `onChange` receives the Date built from it |
| `DateInput.DateInputState.SpinUp` | src/date-input.tsx:49-75 | the record becomes `Increment(old record, f)`, and `onChange` receives the Date built from the new record |
| `DateInput.DateInputState.SpinDown` | src/date-input.tsx:76-106 | the record becomes `Decrement(old record, f)`, and `onChange` receives the Date built from the new record |
| `DateInput.DateInputState.HandleKeyDown` | src/date-input.tsx:47-130 | ArrowUp/ArrowDown apply Increment/Decrement and call `onChange` once with the new record's Date; any other key leaves the record unchanged and does not call `onChange` |
| `DateInputProperties.LastDayIsMonthLength` | src/date-input.tsx:54 | for a year outside 0..99 the last day is 31 or 30 by month, and February's is 29 in leap years and 28 otherwise |
| `DateInputProperties.LastDayCarriesMonth` | src/date-input.tsx:87 | for any month number, the last day is that of month ((m-1) mod 12)+1 of year fullYear + floor((m-1)/12) |
| `DateInputProperties.NextMonthOfValid` | src/date-input.tsx:55-56 | on a month in 1..12 the wrap `(month % 12) + 1` gives month + 1, and 1 after 12 |
| `DateInputProperties.ValidIffRoundTrip` | src/date-input.tsx:43 | a triple (year outside 0..99) is valid if and only if reading back the Date built from it gives the same triple |
| `DateInputProperties.DaySpinsKeepValid` | src/date-input.tsx:53-91 | ArrowUp and ArrowDown on the day turn a valid triple into a valid triple |
| `DateInputProperties.DownUndoesUp` | src/date-input.tsx:53-91 | on valid triples, ArrowDown on the day undoes ArrowUp: Down(Up(p)) == p |
| `DateInputProperties.UpUndoesDown` | src/date-input.tsx:53-91 | on valid triples, ArrowUp on the day undoes ArrowDown: Up(Down(p)) == p |
| `DateInputProperties.IncrementDayIsNextDay` | src/date-input.tsx:53-60 | ArrowUp on the day of a valid triple moves the Date one day forward (day number + 1), across month and year ends, whenever the next year field names the next full year |
| `DateInputProperties.DecrementDayIsPreviousDay` | src/date-input.tsx:80-91 | ArrowDown on the day of a valid triple moves the Date one day back (day number - 1), landing on the previous month's last day from day 1, whenever the previous year field names the previous full year |
| `DateInputProperties.MonthSpinsInverse` | src/date-input.tsx:62-99 | Down(Up(p)) == p for the month exactly when month != 0; Up(Down(p)) == p exactly when month != 13 |
| `DateInputProperties.YearSpinsInverse` | src/date-input.tsx:70-103 | year spins are inverse to each other on every triple |
| `DateInputProperties.SpinsKeepFinerFields` | src/date-input.tsx:62-103 | month spins never touch the day and move the year only on a 12/1 wrap; year spins change only the year, by one |
| `DateInputProperties.MonthSpinCanInvalidate` | src/date-input.tsx:62-75 | Jan 31 2023 spun up a month is Feb 31, an invalid triple, and `onChange` gets March 3 |
| `DateInputProperties.YearSpinCanInvalidate` | src/date-input.tsx:70-75 | Feb 29 2024 spun up a year is Feb 29 2025, an invalid triple, and `onChange` gets March 1 |
| `DateInputProperties.DayRolloverExamples` | src/date-input.tsx:53-91 | Jan 31 -> Feb 1, Dec 31 -> Jan 1 of the next year, Mar 1 -> Feb 28 (2023) or Feb 29 (2024), Jan 1 -> Dec 31 of the previous year |
| `DateInputProperties.LeapYearExamples` | src/date-input.tsx:54 | February has 29 days in 2024 and 2000, 28 in 2023 and 1900 |
| `DateInputProperties.TwoDigitYear` | src/date-input.tsx:43 | a year field of 0 gives a 28-day February (year 1900), and year 24 builds a Date in 1924 |
| `DateInputProperties.FocusLeftUndoesRight` | src/date-input.tsx:109-129 | ArrowLeft from the field ArrowRight reached returns to the original field |

## Left out

- Rendering, CSS classes and placeholders (src/date-input.tsx:132-165), and the `preventDefault` calls (src/date-input.tsx:50, 77, 115, 125): user interface only.
- Moving focus through `monthRef`, `dayRef` and `yearRef`: `FocusTarget` says which field gets the focus, not how the DOM does it.
- React scheduling of `setDate` and of the `useEffect` resync: the state update is modelled as an assignment, and the resync as the method `Resync`.
- The "now" default when `value` is absent: it reads the clock, so the initial Date is a parameter of the constructor.
- `Number(e.target.value)`: parsing text, including NaN for non-numeric text and fractional numbers. Edits take an integer.
- Time of day, time zones and millisecond time values: a Date is modelled by its year, zero-based month and day at local midnight. The time-value range limit, where a Date becomes invalid, is not modelled. Neither is floating-point arithmetic on field values.
- The range picker component (date-range-picker.tsx) is not part of this model. Neither is the way it derives and updates the compare range. `CompareOffset` states only what the picker's test expects of that range.
- `DateInputProperties.IncrementDayIsNextDay` and `DateInputProperties.DecrementDayIsPreviousDay` require the year field one step on to name the next (or previous) full year. Under the two-digit-year rule that fails only between 99 and 100 and between -1 and 0. There a year-crossing day spin jumps the Date from 1999 to 100, or from -1 to 1900, which is not a next or previous day.
