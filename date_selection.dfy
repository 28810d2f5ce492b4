/** The date step of the wizard (src/features/wizard/components/DateSelection.tsx): whether the
    chosen stay overlaps the event, whether the user may go on, the defaulting of the stay to
    the event's dates, the calendar wired to the store, and the "build" action. */
module DateSelection {

  import opened Wrappers
  import opened JsDates
  import opened Types
  import opened Calendar
  import opened WizardStore

  // ---------------------------------------------------------------- overlap and validation

  /** `rangesOverlap`: the two day ranges overlap, each compared at midnight, bounds included. */
  function RangesOverlap(start1: Instant, end1: Instant, start2: Instant, end2: Instant): (r: bool)
    ensures r <==> DayOf(start1) <= DayOf(end2) && DayOf(end1) >= DayOf(start2)
  {
    StartOfDay(start1) <= StartOfDay(end2) && StartOfDay(end1) >= StartOfDay(start2)
  }

  /** Overlap does not depend on which range is named first. */
  lemma RangesOverlapSymmetric(start1: Instant, end1: Instant, start2: Instant, end2: Instant)
    ensures RangesOverlap(start1, end1, start2, end2) == RangesOverlap(start2, end2, start1, end1)
  {
  }

  /** A range that is not inverted overlaps itself. */
  lemma RangeOverlapsItself(start: Instant, end: Instant)
    requires DayOf(start) <= DayOf(end)
    ensures RangesOverlap(start, end, start, end)
  {
  }

  /** For two ranges that are not inverted, overlapping means sharing a calendar day, as the
      calendar's own range test sees days; a shared day implies overlap even for inverted ones. */
  lemma OverlapIffCommonDay(start1: Instant, end1: Instant, start2: Instant, end2: Instant)
    ensures (exists t :: IsInRange(t, Some(start1), Some(end1)) && IsInRange(t, Some(start2), Some(end2)))
            ==> RangesOverlap(start1, end1, start2, end2)
    ensures DayOf(start1) <= DayOf(end1) && DayOf(start2) <= DayOf(end2) &&
            RangesOverlap(start1, end1, start2, end2)
            ==> exists t :: IsInRange(t, Some(start1), Some(end1)) && IsInRange(t, Some(start2), Some(end2))
  {
    if DayOf(start1) <= DayOf(end1) && DayOf(start2) <= DayOf(end2) && RangesOverlap(start1, end1, start2, end2) {
      var day := if DayOf(start1) <= DayOf(start2) then DayOf(start2) else DayOf(start1);
      var t := day * MsPerDay;
      assert DayOf(t) == day;
      assert IsInRange(t, Some(start1), Some(end1)) && IsInRange(t, Some(start2), Some(end2));
    }
  }

  /** `hasOverlap`: false until both dates are chosen, then the overlap with the event. */
  function HasOverlap(arrival: Option<Instant>, departure: Option<Instant>,
                      eventStart: Instant, eventEnd: Instant): (r: bool)
    ensures arrival.None? || departure.None? ==> !r
    ensures arrival.Some? && departure.Some? ==>
              (r <==> DayOf(arrival.value) <= DayOf(eventEnd) && DayOf(departure.value) >= DayOf(eventStart))
  {
    if arrival.None? || departure.None? then false
    else RangesOverlap(arrival.value, departure.value, eventStart, eventEnd)
  }

  /** `canProceed`: both dates chosen, arrival strictly before departure (as instants, not
      days), and the stay overlapping the event. */
  function CanProceed(arrival: Option<Instant>, departure: Option<Instant>,
                      eventStart: Instant, eventEnd: Instant): (r: bool)
    ensures r <==> arrival.Some? && departure.Some? && arrival.value < departure.value
                   && RangesOverlap(arrival.value, departure.value, eventStart, eventEnd)
  {
    arrival.Some? && departure.Some? && arrival.value < departure.value
    && HasOverlap(arrival, departure, eventStart, eventEnd)
  }

  /** A stay that lets the user go on shares at least one calendar day with the event, when
      the event's own dates are in order. */
  lemma ProceedingStayMeetsEvent(arrival: Instant, departure: Instant, eventStart: Instant, eventEnd: Instant)
    requires DayOf(eventStart) <= DayOf(eventEnd)
    requires CanProceed(Some(arrival), Some(departure), eventStart, eventEnd)
    ensures exists t :: IsInRange(t, Some(arrival), Some(departure)) && IsEventDate(t, eventStart, eventEnd)
  {
    DayOfMonotonic(arrival, departure);
    OverlapIffCommonDay(arrival, departure, eventStart, eventEnd);
    var t :| IsInRange(t, Some(arrival), Some(departure)) && IsInRange(t, Some(eventStart), Some(eventEnd));
    assert IsEventDate(t, eventStart, eventEnd);
  }

  /** The default stay, the event's own dates, lets the user go on whenever the event ends
      after it starts; an event starting and ending at the same instant does not. */
  lemma DefaultStayCanProceed(eventStart: Instant, eventEnd: Instant)
    ensures CanProceed(Some(eventStart), Some(eventEnd), eventStart, eventEnd) <==> eventStart < eventEnd
  {
    if eventStart < eventEnd {
      DayOfMonotonic(eventStart, eventEnd);
    }
  }

  /** The event window the step works with: the selected event's dates, read by the given
      date parser, or the current instant twice when no event is selected. */
  function EventWindow(selectedEvent: Option<Event>, now: Instant, parseDate: string -> Instant): (r: (Instant, Instant))
    ensures selectedEvent.None? ==> r == (now, now)
    ensures selectedEvent.Some? ==>
              r == (parseDate(selectedEvent.value.startDate), parseDate(selectedEvent.value.endDate))
  {
    match selectedEvent
    case None => (now, now)
    case Some(e) => (parseDate(e.startDate), parseDate(e.endDate))
  }

  // ---------------------------------------------------------------- store actions

  /** The defaulting effect: with an event selected and neither date chosen, the stay becomes
      the event window, that is the event's own dates as `parseDate` reads them; otherwise
      nothing changes. `now` is what `new Date()` gives when no event is selected. */
  method ApplyDefaultDates(store: Store, now: Instant, parseDate: string -> Instant)
    modifies store
    ensures old(store.selectedEvent.Some? && store.arrivalDate.None? && store.departureDate.None?) ==>
              store.State() == old(store.State()).(
                arrivalDate := Some(parseDate(old(store.selectedEvent).value.startDate)),
                departureDate := Some(parseDate(old(store.selectedEvent).value.endDate)))
    ensures !old(store.selectedEvent.Some? && store.arrivalDate.None? && store.departureDate.None?) ==>
              store.State() == old(store.State())
  {
    var window := EventWindow(store.selectedEvent, now, parseDate);
    if store.selectedEvent.Some? && store.arrivalDate.None? && store.departureDate.None? {
      store.SetArrivalDate(Some(window.0));
      store.SetDepartureDate(Some(window.1));
    }
  }

  /** `handleBuildWeekend`: start loading and go to step 4, nothing else. */
  method BuildWeekend(store: Store)
    modifies store
    ensures store.State() == old(store.State()).(isLoading := true, currentStep := 4)
  {
    store.SetIsLoading(true);
    store.SetCurrentStep(4);
  }

  /** A click on a calendar day, with `onSelectStart` and `onSelectEnd` bound to the store's
      date setters: the click's edit lands on the arrival or the departure date. */
  method OnCalendarClick(store: Store, widget: CalendarWidget, date: Instant)
    modifies store, widget
    ensures var c := ClickEdit(old(widget.selectingEnd), old(store.arrivalDate), date);
            && widget.selectingEnd == c.selectingEnd
            && store.State() == (if c.edit.SelectStart?
                                 then old(store.State()).(arrivalDate := Some(date))
                                 else old(store.State()).(departureDate := Some(date)))
    ensures widget.viewYear == old(widget.viewYear) && widget.viewMonth == old(widget.viewMonth)
  {
    var edit := widget.HandleDateClick(date, store.arrivalDate);
    match edit
    case SelectStart(d) => store.SetArrivalDate(Some(d));
    case SelectEnd(d) => store.SetDepartureDate(Some(d));
  }
}
