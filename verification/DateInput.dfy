/** The date-part field group `DateInput` (src/date-input.tsx): three
    numeric fields holding a day, a month (1-based) and a year, edited by
    typing and by the ArrowUp and ArrowDown spinner keys. Every change hands
    the consumer (`onChange`) a Date built from the three fields. */
module DateInput {
  import opened Gregorian
  import opened JsDate

  datatype Option<T> = None | Some(value: T)

  /** One of the three fields of the group. */
  datatype Field = Day | Month | Year

  /** The record the component keeps in its state. Nothing restricts the
      numbers: a typed edit stores whatever number was typed. */
  datatype DateParts = DateParts(day: int, month: int, year: int)

  /** The keys `handleKeyDown` tells apart; every other key is `Other`. */
  datatype Key = ArrowUp | ArrowDown | ArrowLeft | ArrowRight | Other

  function Get(p: DateParts, f: Field): int
  {
    match f
    case Day => p.day
    case Month => p.month
    case Year => p.year
  }

  /** `{ ...date, [field]: v }`: the record with one field replaced. */
  function With(p: DateParts, f: Field, v: int): (r: DateParts)
    ensures Get(r, f) == v
    ensures forall g :: g != f ==> Get(r, g) == Get(p, g)
  {
    match f
    case Day => p.(day := v)
    case Month => p.(month := v)
    case Year => p.(year := v)
  }

  /** `m % 12` in JavaScript, whose remainder takes the sign of the dividend
      (Dafny's `%` never returns a negative number). */
  function JsRem12(m: int): (r: int)
    ensures (m - r) % 12 == 0
    ensures -12 < r < 12
    ensures m >= 0 ==> r >= 0
    ensures m <= 0 ==> r <= 0
  {
    if m >= 0 then m % 12 else -((-m) % 12)
  }

  /** `new Date(year, month, 0).getDate()`: the day before the first of the
      month after `month`, that is, the last day of `month`. For months
      outside 1..12 the constructor carries the month into the year first. */
  function LastDay(month: int, year: int): (n: int)
    ensures 28 <= n <= 31
    ensures 1 <= month <= 12 ==> n == DaysInMonth(month, FullYear(year))
  {
    CarryIntoPreviousMonth(FullYear(year) + month / 12, month % 12 + 1);
    NewDate(year, month, 0).day
  }

  /** The triple names a real day: the Date built from it needs no carrying. */
  predicate Valid(p: DateParts)
  {
    1 <= p.month <= 12 && 1 <= p.day <= LastDay(p.month, p.year)
  }

  /** `new Date(year, month - 1, day)`: the Date handed to `onChange`. */
  function ToDate(p: DateParts): (r: Date)
    ensures IsCalendarDate(r)
    ensures Valid(p) ==> r == Date(FullYear(p.year), p.month - 1, p.day)
  {
    NewDate(p.year, p.month - 1, p.day)
  }

  /** The triple read from a Date: `getDate()`, `getMonth() + 1`,
      `getFullYear()`. For a real day whose year the constructor takes
      literally, the triple is valid and builds the same Date again. */
  function PartsOf(dt: Date): (p: DateParts)
    ensures IsCalendarDate(dt) && (dt.year < 0 || dt.year > 99) ==> Valid(p) && ToDate(p) == dt
  {
    DateParts(dt.day, dt.month + 1, dt.year)
  }

  /** The record after ArrowUp on field `f`. The day wraps to 1 after the
      month's last day and advances the month, the month wraps from 12 to 1
      and advances the year, the year simply advances. A month spin keeps
      the day even when the new month is shorter. */
  function Increment(p: DateParts, f: Field): DateParts
  {
    match f
    case Day =>
      if p.day == LastDay(p.month, p.year) then
        var m := JsRem12(p.month) + 1;
        DateParts(1, m, if m == 1 then p.year + 1 else p.year)
      else
        p.(day := p.day + 1)
    case Month =>
      if p.month == 12 then p.(month := 1, year := p.year + 1)
      else p.(month := p.month + 1)
    case Year =>
      p.(year := p.year + 1)
  }

  /** The record after ArrowDown on field `f`. Going down from day 1 moves
      to the previous month (12 of the previous year after month 1) and takes
      that month's last day, computed after the month and year changed. */
  function Decrement(p: DateParts, f: Field): DateParts
  {
    match f
    case Day =>
      if p.day == 1 then
        var m := if p.month - 1 == 0 then 12 else p.month - 1;
        var y := if p.month - 1 == 0 then p.year - 1 else p.year;
        DateParts(LastDay(m, y), m, y)
      else
        p.(day := p.day - 1)
    case Month =>
      if p.month == 1 then p.(month := 12, year := p.year - 1)
      else p.(month := p.month - 1)
    case Year =>
      p.(year := p.year - 1)
  }

  /** Where ArrowLeft or ArrowRight moves the focus, given the caret:
      ArrowRight at the end of the text, or with the whole text selected,
      goes month -> day -> year; ArrowLeft at the start goes back. `None`
      means the key is left to the text field. */
  function FocusTarget(f: Field, key: Key, selectionStart: int, selectionEnd: int, length: int)
    : (r: Option<Field>)
    ensures r.Some? ==> key in {ArrowLeft, ArrowRight} && r.value != f
    ensures key == ArrowRight && (selectionStart == length || (selectionStart == 0 && selectionEnd == length))
            ==> r == (if f == Month then Some(Day) else if f == Day then Some(Year) else None)
    ensures key == ArrowLeft && selectionStart == 0
            ==> r == (if f == Day then Some(Month) else if f == Year then Some(Day) else None)
    ensures key == ArrowRight && !(selectionStart == length || (selectionStart == 0 && selectionEnd == length))
            ==> r == None
    ensures key == ArrowLeft && selectionStart != 0 ==> r == None
  {
    if key == ArrowRight then
      if selectionStart == length || (selectionStart == 0 && selectionEnd == length) then
        (if f == Month then Some(Day) else if f == Day then Some(Year) else None)
      else None
    else if key == ArrowLeft then
      if selectionStart == 0 || (selectionStart == 0 && selectionEnd == length) then
        (if f == Day then Some(Month) else if f == Year then Some(Day) else None)
      else None
    else None
  }

  /** The component's state: the `date` record behind the three fields. */
  class DateInputState {
    var date: DateParts

    /** The initial state, read from the `value` Date. */
    constructor (value: Date)
      ensures date == PartsOf(value)
    {
      date := PartsOf(value);
    }

    /** The effect that re-reads the record whenever `value` changes. */
    method Resync(value: Date)
      modifies this
      ensures date == PartsOf(value)
    {
      date := PartsOf(value);
    }

    /** A typed edit of field `f`: the number is stored whatever it is, and
        `onChange` is called with the Date built from the new record. */
    method HandleInputChange(f: Field, v: int) returns (changed: Date)
      modifies this
      ensures date == With(old(date), f, v)
      ensures changed == ToDate(date)
    {
      var newDate := With(date, f, v);
      date := newDate;
      changed := NewDate(newDate.year, newDate.month - 1, newDate.day);
    }

    /** ArrowUp on field `f`. */
    method SpinUp(f: Field) returns (changed: Date)
      modifies this
      ensures date == Increment(old(date), f)
      ensures changed == ToDate(date)
    {
      var newDate := date;
      if f == Day {
        if date.day == NewDate(date.year, date.month, 0).day {
          newDate := newDate.(day := 1, month := JsRem12(date.month) + 1);
          if newDate.month == 1 {
            newDate := newDate.(year := newDate.year + 1);
          }
        } else {
          newDate := newDate.(day := newDate.day + 1);
        }
      }
      if f == Month {
        if date.month == 12 {
          newDate := newDate.(month := 1, year := date.year + 1);
        } else {
          newDate := newDate.(month := newDate.month + 1);
        }
      }
      if f == Year {
        newDate := newDate.(year := newDate.year + 1);
      }
      date := newDate;
      changed := NewDate(newDate.year, newDate.month - 1, newDate.day);
    }

    /** ArrowDown on field `f`. */
    method SpinDown(f: Field) returns (changed: Date)
      modifies this
      ensures date == Decrement(old(date), f)
      ensures changed == ToDate(date)
    {
      var newDate := date;
      if f == Day {
        if date.day == 1 {
          newDate := newDate.(month := newDate.month - 1);
          if newDate.month == 0 {
            newDate := newDate.(month := 12);
            newDate := newDate.(year := newDate.year - 1);
          }
          newDate := newDate.(day := NewDate(newDate.year, newDate.month, 0).day);
        } else {
          newDate := newDate.(day := newDate.day - 1);
        }
      }
      if f == Month {
        if date.month == 1 {
          newDate := newDate.(month := 12, year := date.year - 1);
        } else {
          newDate := newDate.(month := newDate.month - 1);
        }
      }
      if f == Year {
        newDate := newDate.(year := newDate.year - 1);
      }
      date := newDate;
      changed := NewDate(newDate.year, newDate.month - 1, newDate.day);
    }

    /** A key press in field `f`. ArrowUp and ArrowDown update the record
        and call `onChange` once (`Some`); every other key leaves the record
        alone and does not call it (`None`). */
    method HandleKeyDown(f: Field, key: Key) returns (changed: Option<Date>)
      modifies this
      ensures key == ArrowUp ==> date == Increment(old(date), f)
      ensures key == ArrowDown ==> date == Decrement(old(date), f)
      ensures key !in {ArrowUp, ArrowDown} ==> date == old(date)
      ensures changed == (if key in {ArrowUp, ArrowDown} then Some(ToDate(date)) else None)
    {
      if key == ArrowUp {
        var d := SpinUp(f);
        changed := Some(d);
      } else if key == ArrowDown {
        var d := SpinDown(f);
        changed := Some(d);
      } else {
        changed := None;
      }
    }
  }
}
