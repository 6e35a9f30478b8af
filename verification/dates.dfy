/**
 * Calendar dates as Python's `datetime.date`: proleptic Gregorian calendar,
 * years 1 through 9999, compared chronologically.
 */
module Dates {
  import opened Wrappers

  datatype Date = Date(year: int, month: int, day: int)

  const MinYear: int := 1
  const MaxYear: int := 9999

  /** The earliest representable date; stepping back from it overflows. */
  const Earliest: Date := Date(MinYear, 1, 1)

  predicate IsLeapYear(y: int) {
    y % 4 == 0 && (y % 100 != 0 || y % 400 == 0)
  }

  function DaysInMonth(y: int, m: int): (n: int)
    requires 1 <= m <= 12
    ensures 28 <= n <= 31
    ensures n == 29 <==> m == 2 && IsLeapYear(y)
    ensures n == 28 <==> m == 2 && !IsLeapYear(y)
  {
    if m == 2 then (if IsLeapYear(y) then 29 else 28)
    else if m == 4 || m == 6 || m == 9 || m == 11 then 30
    else 31
  }

  predicate Valid(d: Date) {
    && MinYear <= d.year <= MaxYear
    && 1 <= d.month <= 12
    && 1 <= d.day <= DaysInMonth(d.year, d.month)
  }

  /** Chronological order: `a` is strictly earlier than `b`. */
  predicate Before(a: Date, b: Date) {
    || a.year < b.year
    || (a.year == b.year && a.month < b.month)
    || (a.year == b.year && a.month == b.month && a.day < b.day)
  }

  /** `a <= b` on dates. */
  predicate NotAfter(a: Date, b: Date) {
    !Before(b, a)
  }

  predicate SameMonth(a: Date, b: Date) {
    a.year == b.year && a.month == b.month
  }

  /**
   * The day before `d`: the latest valid date strictly before `d`, or
   * `None` for the earliest date, which has no predecessor (an overflow).
   */
  function PrevDay(d: Date): (r: Option<Date>)
    requires Valid(d)
    ensures r.None? <==> d == Earliest
    ensures r.None? ==> forall x :: Valid(x) ==> !Before(x, d)
    ensures r.Some? ==> Valid(r.value) && Before(r.value, d)
    ensures r.Some? ==> forall x :: Valid(x) && Before(x, d) ==> NotAfter(x, r.value)
  {
    if d.day > 1 then Some(Date(d.year, d.month, d.day - 1))
    else if d.month > 1 then Some(Date(d.year, d.month - 1, DaysInMonth(d.year, d.month - 1)))
    else if d.year > MinYear then Some(Date(d.year - 1, 12, 31))
    else None
  }

  /** The first day of `d`'s month. */
  function FirstOfMonth(d: Date): (r: Date)
    requires Valid(d)
    ensures Valid(r) && SameMonth(r, d) && r.day == 1
    ensures NotAfter(r, d)
  {
    Date(d.year, d.month, 1)
  }

  /**
   * The day before the first of `d`'s month: the last day of the month
   * before the month of `d`, or `None` when that would precede year 1.
   */
  function LastDayOfPreviousMonth(d: Date): (r: Option<Date>)
    requires Valid(d)
    ensures r.None? <==> d.year == MinYear && d.month == 1
    ensures r.Some? ==> Valid(r.value) && Before(r.value, d)
    ensures r.Some? && d.month == 1 ==> r.value.year == d.year - 1 && r.value.month == 12
    ensures r.Some? && d.month > 1 ==> r.value.year == d.year && r.value.month == d.month - 1
    ensures r.Some? ==> r.value.day == DaysInMonth(r.value.year, r.value.month)
    ensures r.Some? ==> forall x :: Valid(x) && Before(x, d) && !SameMonth(x, d) ==> NotAfter(x, r.value)
  {
    PrevDay(FirstOfMonth(d))
  }
}
