/** The part of JavaScript's `Date` the core relies on. An instant is the local wall-clock
    time in milliseconds, so `new Date(y, m, d)` is a multiple of a day and the calendar day
    of an instant is its floor division by the length of a day. Months are numbered 0 to 11,
    as `getMonth` numbers them. */
module JsDates {

  /** A `Date` value: local wall-clock milliseconds (time zones and daylight saving left out). */
  type Instant = int

  const MsPerDay: nat := 86_400_000

  /** The local calendar day an instant falls on, as a day ordinal; it stands for the
      (year, month, day-of-month) triple that `getFullYear`, `getMonth`, `getDate` give. */
  function DayOf(t: Instant): int {
    t / MsPerDay
  }

  /** `new Date(t.getFullYear(), t.getMonth(), t.getDate())`: local midnight of that day. */
  function StartOfDay(t: Instant): (r: Instant)
    ensures r <= t < r + MsPerDay
    ensures DayOf(r) == DayOf(t)
  {
    DayOf(t) * MsPerDay
  }

  /** Comparing two midnights is comparing the two days. */
  lemma StartOfDayOrder(a: Instant, b: Instant)
    ensures StartOfDay(a) <= StartOfDay(b) <==> DayOf(a) <= DayOf(b)
  {
  }

  /** A later instant never falls on an earlier day. */
  lemma DayOfMonotonic(a: Instant, b: Instant)
    requires a <= b
    ensures DayOf(a) <= DayOf(b)
  {
    assert StartOfDay(a) <= a && b < StartOfDay(b) + MsPerDay;
  }

  /** Gregorian leap years: every fourth year, except centuries not divisible by 400. */
  predicate IsLeapYear(year: int) {
    year % 4 == 0 && (year % 100 != 0 || year % 400 == 0)
  }

  /** `new Date(year, month + 1, 0).getDate()`: the number of days in the month. */
  function DaysInMonth(year: int, month: int): (n: int)
    requires 0 <= month < 12
    ensures 28 <= n <= 31
    ensures n == 29 <==> month == 1 && IsLeapYear(year)
  {
    if month == 1 then (if IsLeapYear(year) then 29 else 28)
    else if month == 3 || month == 5 || month == 8 || month == 10 then 30
    else 31
  }

  /** Days in the first `months` months of a year. */
  function DaysBeforeMonth(year: int, months: int): int
    requires 0 <= months <= 12
  {
    if months == 0 then 0 else DaysBeforeMonth(year, months - 1) + DaysInMonth(year, months - 1)
  }

  /** The twelve months add up to the length of the year. */
  lemma YearLength(year: int)
    ensures DaysBeforeMonth(year, 12) == if IsLeapYear(year) then 366 else 365
  {
    var feb := DaysInMonth(year, 1);
    assert DaysBeforeMonth(year, 1) == 31;
    assert DaysBeforeMonth(year, 2) == 31 + feb;
    assert DaysBeforeMonth(year, 3) == 62 + feb;
    assert DaysBeforeMonth(year, 4) == 92 + feb;
    assert DaysBeforeMonth(year, 5) == 123 + feb;
    assert DaysBeforeMonth(year, 6) == 153 + feb;
    assert DaysBeforeMonth(year, 7) == 184 + feb;
    assert DaysBeforeMonth(year, 8) == 215 + feb;
    assert DaysBeforeMonth(year, 9) == 245 + feb;
    assert DaysBeforeMonth(year, 10) == 276 + feb;
    assert DaysBeforeMonth(year, 11) == 306 + feb;
  }

  /** The days that the years up to `y` contribute to a weekday count, modulo 7: one per
      year and one per leap year. */
  function YearTerm(y: int): int {
    y + y / 4 - y / 100 + y / 400
  }

  /** The per-month correction of Sakamoto's method. */
  function MonthOffset(month: int): int
    requires 0 <= month < 12
  {
    [0, 3, 2, 5, 0, 3, 5, 1, 4, 6, 2, 4][month]
  }

  /** `new Date(year, month, 1).getDay()`: the weekday of the first of the month, Sunday
      being 0, by Sakamoto's method (January and February count as months of the year before). */
  function FirstWeekday(year: int, month: int): (r: int)
    requires 0 <= month < 12
    ensures 0 <= r < 7
  {
    (YearTerm(if month < 2 then year - 1 else year) + MonthOffset(month) + 1) % 7
  }
}
