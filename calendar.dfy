/** The date logic of the range-picking calendar (src/shared/components/ui/Calendar.tsx):
    the day predicates that colour each cell, the month grid, the month arrows, and the
    two-click selection of a start and an end day. The parent owns the selected start and end;
    the widget owns the month it shows and whether the next click picks the end. */
module Calendar {

  import opened Wrappers
  import opened JsDates

  // ---------------------------------------------------------------- day predicates

  /** `isSameDay`: the two instants fall on the same calendar day, whatever their times. */
  function IsSameDay(a: Instant, b: Instant): (r: bool)
    ensures r <==> StartOfDay(a) <= b < StartOfDay(a) + MsPerDay
  {
    DayOf(a) == DayOf(b)
  }

  /** Same-day is an equivalence, so it can stand for equality of (year, month, date). */
  lemma SameDayEquivalence(a: Instant, b: Instant, c: Instant)
    ensures IsSameDay(a, a)
    ensures IsSameDay(a, b) ==> IsSameDay(b, a)
    ensures IsSameDay(a, b) && IsSameDay(b, c) ==> IsSameDay(a, c)
  {
  }

  /** `isInRange`: false unless both bounds are set; otherwise the inclusive test on the
      midnights of the three days. */
  function IsInRange(date: Instant, start: Option<Instant>, end: Option<Instant>): (r: bool)
    ensures start.None? || end.None? ==> !r
    ensures start.Some? && end.Some? ==>
              (r <==> DayOf(start.value) <= DayOf(date) <= DayOf(end.value))
  {
    if start.None? || end.None? then false
    else StartOfDay(start.value) <= StartOfDay(date) <= StartOfDay(end.value)
  }

  /** A range whose start day comes after its end day contains no day at all. */
  lemma InvertedRangeIsEmpty(date: Instant, start: Instant, end: Instant)
    requires DayOf(start) > DayOf(end)
    ensures !IsInRange(date, Some(start), Some(end))
  {
  }

  /** Only the days matter: moving any of the three instants within its own day changes
      nothing, and the two bound days themselves are in the range. */
  lemma InRangeIgnoresTimeOfDay(date: Instant, date2: Instant, start: Instant, start2: Instant,
                                end: Instant, end2: Instant)
    requires IsSameDay(date, date2) && IsSameDay(start, start2) && IsSameDay(end, end2)
    ensures IsInRange(date, Some(start), Some(end)) == IsInRange(date2, Some(start2), Some(end2))
    ensures DayOf(start) <= DayOf(end) ==>
              IsInRange(start, Some(start), Some(end)) && IsInRange(end, Some(start), Some(end))
  {
  }

  /** `isEventDate`: the same inclusive day test against the event's first and last day. */
  function IsEventDate(date: Instant, eventStart: Instant, eventEnd: Instant): (r: bool)
    ensures r == IsInRange(date, Some(eventStart), Some(eventEnd))
  {
    StartOfDay(date) >= StartOfDay(eventStart) && StartOfDay(date) <= StartOfDay(eventEnd)
  }

  // ---------------------------------------------------------------- month grid

  /** One date of the grid: `new Date(year, month, date)`. */
  datatype CalendarDay = CalendarDay(year: int, month: int, date: int)

  /** The grid of the month on view: `firstDay` empty slots, then the days 1 to
      `DaysInMonth` in order. */
  method MonthGrid(year: int, month: int) returns (cells: seq<Option<CalendarDay>>)
    requires 0 <= month < 12
    ensures |cells| == FirstWeekday(year, month) + DaysInMonth(year, month)
    ensures forall i :: 0 <= i < FirstWeekday(year, month) ==> cells[i] == None
    ensures forall d :: 1 <= d <= DaysInMonth(year, month) ==>
              cells[FirstWeekday(year, month) + d - 1] == Some(CalendarDay(year, month, d))
  {
    var firstDay := FirstWeekday(year, month);
    var daysInMonth := DaysInMonth(year, month);
    cells := [];
    var i := 0;
    while i < firstDay
      invariant 0 <= i <= firstDay
      invariant |cells| == i
      invariant forall k :: 0 <= k < i ==> cells[k] == None
    {
      cells := cells + [None];
      i := i + 1;
    }
    var d := 1;
    while d <= daysInMonth
      invariant 1 <= d <= daysInMonth + 1
      invariant |cells| == firstDay + d - 1
      invariant forall k :: 0 <= k < firstDay ==> cells[k] == None
      invariant forall e :: 1 <= e < d ==> cells[firstDay + e - 1] == Some(CalendarDay(year, month, e))
    {
      cells := cells + [Some(CalendarDay(year, month, d))];
      d := d + 1;
    }
  }

  // ---------------------------------------------------------------- month navigation

  /** `new Date(year, month - 1, 1)`: the month before, January wrapping to December. */
  function PrevMonthOf(year: int, month: int): (r: (int, int))
    requires 0 <= month < 12
    ensures 0 <= r.1 < 12
    ensures r.0 * 12 + r.1 == year * 12 + month - 1
  {
    if month == 0 then (year - 1, 11) else (year, month - 1)
  }

  /** `new Date(year, month + 1, 1)`: the month after, December wrapping to January. */
  function NextMonthOf(year: int, month: int): (r: (int, int))
    requires 0 <= month < 12
    ensures 0 <= r.1 < 12
    ensures r.0 * 12 + r.1 == year * 12 + month + 1
  {
    if month == 11 then (year + 1, 0) else (year, month + 1)
  }

  /** One arrow undoes the other. */
  lemma PrevNextRoundTrip(year: int, month: int)
    requires 0 <= month < 12
    ensures PrevMonthOf(NextMonthOf(year, month).0, NextMonthOf(year, month).1) == (year, month)
    ensures NextMonthOf(PrevMonthOf(year, month).0, PrevMonthOf(year, month).1) == (year, month)
  {
  }

  /** `/ 4` steps by one from one year to the next exactly at the multiples of 4. */
  lemma StepOf4(year: int)
    ensures year / 4 - (year - 1) / 4 == if year % 4 == 0 then 1 else 0
  {
    var q := (year - 1) / 4;
    assert year - 1 == 4 * q + (year - 1) % 4;
  }

  lemma StepOf100(year: int)
    ensures year / 100 - (year - 1) / 100 == if year % 100 == 0 then 1 else 0
  {
    var q := (year - 1) / 100;
    assert year - 1 == 100 * q + (year - 1) % 100;
  }

  lemma StepOf400(year: int)
    ensures year / 400 - (year - 1) / 400 == if year % 400 == 0 then 1 else 0
  {
    var q := (year - 1) / 400;
    assert year - 1 == 400 * q + (year - 1) % 400;
  }

  lemma MultipleOf400(year: int)
    requires year % 400 == 0
    ensures year % 100 == 0 && year % 4 == 0
  {
    var q := year / 400;
    assert year == 100 * (4 * q);
    assert year == 4 * (100 * q);
  }

  lemma MultipleOf100(year: int)
    requires year % 100 == 0
    ensures year % 4 == 0
  {
    var q := year / 100;
    assert year == 4 * (25 * q);
  }

  /** How `/ 4`, `/ 100` and `/ 400` step together from one year to the next: by one exactly
      in leap years. */
  lemma LeapStep(year: int)
    ensures (year / 4 - (year - 1) / 4) - (year / 100 - (year - 1) / 100) + (year / 400 - (year - 1) / 400)
            == if IsLeapYear(year) then 1 else 0
  {
    StepOf4(year);
    StepOf100(year);
    StepOf400(year);
    if year % 400 == 0 {
      MultipleOf400(year);
    } else if year % 100 == 0 {
      MultipleOf100(year);
    }
  }

  /** The year term moves only from February to March, by the length of a year modulo 7:
      one day, two after a leap day. */
  lemma YearTermStep(year: int, month: int)
    requires 0 <= month < 12
    ensures var next := NextMonthOf(year, month);
      YearTerm(if next.1 < 2 then next.0 - 1 else next.0) - YearTerm(if month < 2 then year - 1 else year)
      == if month == 1 then (if IsLeapYear(year) then 2 else 1) else 0
  {
    if month == 1 {
      LeapStep(year);
    }
  }

  /** The month offsets step by the month's length modulo 7. */
  lemma MonthOffsetStep(year: int, month: int)
    requires 0 <= month < 12
    ensures MonthOffset(NextMonthOf(year, month).1)
            + 7 * (if month == 3 || month == 6 || month == 9 || month == 11 then 5 else 4)
            + (if month == 1 then (if IsLeapYear(year) then 2 else 1) else 0)
            == MonthOffset(month) + DaysInMonth(year, month)
  {
  }

  /** Adding whole weeks does not change a weekday. */
  lemma WeeksVanish(x: int, k: int)
    ensures (x + 7 * k) % 7 == x % 7
  {
  }

  /** A weekday plus some days is the weekday of the sum. */
  lemma WeekdayPlus(x: int, d: int)
    ensures (x % 7 + d) % 7 == (x + d) % 7
  {
    WeeksVanish(x % 7 + d, x / 7);
  }

  /** The next month's grid starts on the weekday where this month's last row stops. */
  lemma NextMonthStartsWhereThisEnds(year: int, month: int)
    requires 0 <= month < 12
    ensures FirstWeekday(NextMonthOf(year, month).0, NextMonthOf(year, month).1)
            == (FirstWeekday(year, month) + DaysInMonth(year, month)) % 7
  {
    var x, y, weeks := DayCounts(year, month);
    SameWeekday(x, y, weeks, DaysInMonth(year, month));
  }

  /** The day counts whose weekdays are the first of the next month (`x`) and of this month
      (`y`), and the whole weeks between them. */
  lemma DayCounts(year: int, month: int) returns (x: int, y: int, weeks: int)
    requires 0 <= month < 12
    ensures FirstWeekday(NextMonthOf(year, month).0, NextMonthOf(year, month).1) == x % 7
    ensures FirstWeekday(year, month) == y % 7
    ensures x + 7 * weeks == y + DaysInMonth(year, month)
  {
    var next := NextMonthOf(year, month);
    weeks := if month == 3 || month == 6 || month == 9 || month == 11 then 5 else 4;
    x := DayCount(next.0, next.1);
    y := DayCount(year, month);
    DayCountStep(year, month);
  }

  /** The day count behind the weekday of the first of a month. */
  lemma DayCount(year: int, month: int) returns (n: int)
    requires 0 <= month < 12
    ensures n == YearTerm(if month < 2 then year - 1 else year) + MonthOffset(month) + 1
    ensures FirstWeekday(year, month) == n % 7
  {
    n := YearTerm(if month < 2 then year - 1 else year) + MonthOffset(month) + 1;
  }

  /** The day count behind the first of the next month is the one behind the first of this
      month plus this month's length, up to whole weeks. */
  lemma DayCountStep(year: int, month: int)
    requires 0 <= month < 12
    ensures var next := NextMonthOf(year, month);
      var weeks := if month == 3 || month == 6 || month == 9 || month == 11 then 5 else 4;
      YearTerm(if next.1 < 2 then next.0 - 1 else next.0) + MonthOffset(next.1) + 1 + 7 * weeks
      == YearTerm(if month < 2 then year - 1 else year) + MonthOffset(month) + 1 + DaysInMonth(year, month)
  {
    YearTermStep(year, month);
    MonthOffsetStep(year, month);
  }

  /** Two day counts a whole number of weeks apart, once `d` days are added to the second,
      fall on the same weekday. */
  lemma SameWeekday(x: int, y: int, weeks: int, d: int)
    requires x + 7 * weeks == y + d
    ensures x % 7 == (y % 7 + d) % 7
  {
    WeeksVanish(x, weeks);
    WeekdayPlus(y, d);
  }

  /** 1 January 2024 was a Monday and 1 June 2025 a Sunday. */
  lemma WeekdayExamples()
    ensures FirstWeekday(2024, 0) == 1
    ensures FirstWeekday(2025, 5) == 0
  {
  }

  // ---------------------------------------------------------------- range selection

  /** What a click asks the parent to do: make the date the new start, or the new end. */
  datatype RangeEdit = SelectStart(date: Instant) | SelectEnd(date: Instant)

  /** The effect of one click: the edit passed to the parent and the new `selectingEnd`. */
  datatype ClickResult = ClickResult(edit: RangeEdit, selectingEnd: bool)

  /** `handleDateClick`: outside end-selection, or with no start, the click picks the start
      and enters end-selection; in end-selection a date before the start replaces the start,
      and any other date becomes the end and ends the selection. */
  function ClickEdit(selectingEnd: bool, selectedStart: Option<Instant>, date: Instant): (r: ClickResult)
    ensures r.edit.date == date
    ensures r.edit.SelectStart? <==> !selectingEnd || selectedStart.None? || date < selectedStart.value
    ensures r.selectingEnd <==> r.edit.SelectStart?
    ensures r.edit.SelectEnd? ==> selectedStart.Some? && selectedStart.value <= r.edit.date
  {
    if !selectingEnd || selectedStart.None? then ClickResult(SelectStart(date), true)
    else if date < selectedStart.value then ClickResult(SelectStart(date), true)
    else ClickResult(SelectEnd(date), false)
  }

  /** The selection as the calendar sees it: the parent's start and end, and the flag. */
  datatype RangeSelection = RangeSelection(start: Option<Instant>, end: Option<Instant>, selectingEnd: bool)

  /** A click with the parent applying the edit through `onSelectStart` or `onSelectEnd`. */
  function Click(s: RangeSelection, date: Instant): (r: RangeSelection)
    ensures r.selectingEnd ==> r.start == Some(date) && r.end == s.end
    ensures !r.selectingEnd ==> r.start == s.start && r.end == Some(date)
  {
    var c := ClickEdit(s.selectingEnd, s.start, date);
    match c.edit
    case SelectStart(d) => RangeSelection(Some(d), s.end, c.selectingEnd)
    case SelectEnd(d) => RangeSelection(s.start, Some(d), c.selectingEnd)
  }

  /** Clicks one after the other. */
  function Clicks(s: RangeSelection, dates: seq<Instant>): RangeSelection
    decreases |dates|
  {
    if dates == [] then s else Clicks(Click(s, dates[0]), dates[1..])
  }

  /** End-selection always has a start to compare with, and whenever the calendar is not
      waiting for an end, a start and an end it shows are in order. */
  predicate Settled(s: RangeSelection) {
    && (s.selectingEnd ==> s.start.Some?)
    && (!s.selectingEnd && s.start.Some? && s.end.Some? ==> s.start.value <= s.end.value)
  }

  /** Clicking never sets an end before the current start, so no sequence of clicks leaves a
      settled selection with its end before its start. */
  lemma {:induction false} ClicksKeepSettled(s: RangeSelection, dates: seq<Instant>)
    requires Settled(s)
    ensures Settled(Clicks(s, dates))
    decreases |dates|
  {
    if dates != [] {
      var c := ClickEdit(s.selectingEnd, s.start, dates[0]);
      assert Settled(Click(s, dates[0]));
      ClicksKeepSettled(Click(s, dates[0]), dates[1..]);
    }
  }

  /** From a settled state, clicking `a` and then a later-or-equal `b` selects exactly the
      range from `a` to `b` and leaves end-selection. */
  lemma TwoClicksSelectRange(s: RangeSelection, a: Instant, b: Instant)
    requires !s.selectingEnd
    requires a <= b
    ensures Clicks(s, [a, b]) == RangeSelection(Some(a), Some(b), false)
  {
    var first := Click(s, a);
    assert first == RangeSelection(Some(a), s.end, true);
    assert [a, b][1..] == [b];
    assert Clicks(s, [a, b]) == Clicks(first, [b]);
    assert Click(first, b) == RangeSelection(Some(a), Some(b), false);
    assert Clicks(first, [b]) == Clicks(Click(first, b), []);
  }

  /** The widget's own state: the month on view and the selection flag. */
  class CalendarWidget {
    var viewYear: int
    var viewMonth: int
    var selectingEnd: bool

    predicate Valid()
      reads this
    {
      0 <= viewMonth < 12
    }

    /** `useState(() => new Date(eventStart))` and `useState(false)`: the view opens on the
        event's month, with the next click picking a start. */
    constructor (eventYear: int, eventMonth: int)
      requires 0 <= eventMonth < 12
      ensures Valid()
      ensures viewYear == eventYear && viewMonth == eventMonth && !selectingEnd
    {
      viewYear, viewMonth, selectingEnd := eventYear, eventMonth, false;
    }

    /** `prevMonth`. */
    method PrevMonth()
      requires Valid()
      modifies this
      ensures Valid()
      ensures (viewYear, viewMonth) == PrevMonthOf(old(viewYear), old(viewMonth))
      ensures selectingEnd == old(selectingEnd)
    {
      var m := PrevMonthOf(viewYear, viewMonth);
      viewYear, viewMonth := m.0, m.1;
    }

    /** `nextMonth`. */
    method NextMonth()
      requires Valid()
      modifies this
      ensures Valid()
      ensures (viewYear, viewMonth) == NextMonthOf(old(viewYear), old(viewMonth))
      ensures selectingEnd == old(selectingEnd)
    {
      var m := NextMonthOf(viewYear, viewMonth);
      viewYear, viewMonth := m.0, m.1;
    }

    /** `handleDateClick`: returns the edit for the parent and updates the flag. */
    method HandleDateClick(date: Instant, selectedStart: Option<Instant>) returns (edit: RangeEdit)
      modifies this
      ensures ClickResult(edit, selectingEnd) == ClickEdit(old(selectingEnd), selectedStart, date)
      ensures viewYear == old(viewYear) && viewMonth == old(viewMonth)
    {
      var c := ClickEdit(selectingEnd, selectedStart, date);
      edit, selectingEnd := c.edit, c.selectingEnd;
    }
  }
}
