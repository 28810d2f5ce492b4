/** The wizard's session state and its actions (src/features/wizard/stores/wizardStore.ts).
    The store is one object whose fields every action overwrites; `State()` reads them all
    as one record so that each action can say exactly what it changed. */
module WizardStore {

  import opened Wrappers
  import opened JsStrings
  import opened JsDates
  import opened Types
  import Api

  const FirstStep: int := 1
  const LastStep: int := 6

  /** Every field of the store, in the order the source declares them. */
  datatype WizardState = WizardState(
    currentStep: int,
    selectedEvent: Option<Event>,
    selectedTags: seq<string>,
    arrivalDate: Option<Instant>,
    departureDate: Option<Instant>,
    vibeSummary: string,
    itinerary: seq<ItineraryDay>,
    allParties: seq<Party>,
    totalCost: int,
    isLoading: bool,
    error: Option<string>)

  /** `initialState`: step 1 and nothing chosen, loaded, pending or failed. */
  const InitialState: WizardState :=
    WizardState(FirstStep, None, [], None, None, "", [], [], 0, false, None)

  /** The argument of `setResults`. */
  datatype Results = Results(
    vibeSummary: string,
    itinerary: seq<ItineraryDay>,
    allParties: seq<Party>,
    totalCost: int)

  // ---------------------------------------------------------------- navigation

  /** `Math.min(step + 1, 6)`. */
  function NextStepOf(step: int): (r: int)
    ensures r <= LastStep
    ensures step < LastStep ==> r == step + 1
    ensures step >= LastStep ==> r == LastStep
  {
    if step + 1 < LastStep then step + 1 else LastStep
  }

  /** `Math.max(step - 1, 1)`. */
  function PrevStepOf(step: int): (r: int)
    ensures r >= FirstStep
    ensures step > FirstStep ==> r == step - 1
    ensures step <= FirstStep ==> r == FirstStep
  {
    if step - 1 > FirstStep then step - 1 else FirstStep
  }

  datatype Move = Forward | Back

  /** The step reached from `step` by a sequence of `nextStep`/`prevStep` calls. */
  function Navigate(step: int, moves: seq<Move>): int
    decreases moves
  {
    if moves == [] then step
    else Navigate(if moves[0] == Forward then NextStepOf(step) else PrevStepOf(step), moves[1..])
  }

  /** Starting anywhere in 1..6, no sequence of `nextStep`/`prevStep` leaves 1..6. */
  lemma {:induction false} NavigationStaysInRange(step: int, moves: seq<Move>)
    requires FirstStep <= step <= LastStep
    ensures FirstStep <= Navigate(step, moves) <= LastStep
    decreases moves
  {
    if moves != [] {
      NavigationStaysInRange(
        if moves[0] == Forward then NextStepOf(step) else PrevStepOf(step), moves[1..]);
    }
  }

  // ---------------------------------------------------------------- tags

  /** `tags.filter((t) => t !== tag)`. */
  function RemoveAll(tags: seq<string>, tag: string): (r: seq<string>)
    ensures |r| <= |tags|
    ensures forall t :: t in r <==> t in tags && t != tag
  {
    if tags == [] then []
    else (if tags[0] == tag then [] else [tags[0]]) + RemoveAll(tags[1..], tag)
  }

  /** Every occurrence of `tag` is gone and every other tag keeps its number of occurrences. */
  lemma {:induction false} RemoveAllCounts(tags: seq<string>, tag: string)
    ensures tag !in RemoveAll(tags, tag)
    ensures forall t :: t != tag ==> multiset(RemoveAll(tags, tag))[t] == multiset(tags)[t]
  {
    if tags != [] {
      RemoveAllCounts(tags[1..], tag);
      assert tags == [tags[0]] + tags[1..];
    }
  }

  lemma RemoveAllCons(t: string, rest: seq<string>, tag: string)
    ensures RemoveAll([t] + rest, tag) == (if t == tag then [] else [t]) + RemoveAll(rest, tag)
  {
    assert ([t] + rest)[0] == t && ([t] + rest)[1..] == rest;
  }

  /** Filtering works piecewise, so the tags that stay keep their relative order. */
  lemma {:induction false} RemoveAllAppend(a: seq<string>, b: seq<string>, tag: string)
    ensures RemoveAll(a + b, tag) == RemoveAll(a, tag) + RemoveAll(b, tag)
  {
    if a == [] {
      assert a + b == b;
    } else {
      var t, rest := a[0], a[1..];
      assert a == [t] + rest;
      assert a + b == [t] + (rest + b);
      RemoveAllAppend(rest, b, tag);
      RemoveAllCons(t, rest + b, tag);
      RemoveAllCons(t, rest, tag);
      var head := if t == tag then [] else [t];
      assert head + (RemoveAll(rest, tag) + RemoveAll(b, tag))
          == (head + RemoveAll(rest, tag)) + RemoveAll(b, tag);
    }
  }

  /** Filtering out a tag that is not there changes nothing. */
  lemma {:induction false} RemoveAllAbsent(tags: seq<string>, tag: string)
    requires tag !in tags
    ensures RemoveAll(tags, tag) == tags
  {
    if tags != [] {
      RemoveAllAbsent(tags[1..], tag);
      assert tags == [tags[0]] + tags[1..];
    }
  }

  /** `toggleTag`'s new list: a present tag is removed everywhere, an absent one appended.
      Membership of `tag` flips and every other tag keeps its number of occurrences. */
  function Toggled(tags: seq<string>, tag: string): (r: seq<string>)
    ensures tag in r <==> tag !in tags
    ensures forall t :: t != tag ==> multiset(r)[t] == multiset(tags)[t]
    ensures tag !in tags ==> r == tags + [tag]
  {
    if tag in tags then
      RemoveAllCounts(tags, tag);
      RemoveAll(tags, tag)
    else tags + [tag]
  }

  /** Toggling an absent tag twice gives back the list. */
  lemma ToggleTwiceRestores(tags: seq<string>, tag: string)
    requires tag !in tags
    ensures Toggled(Toggled(tags, tag), tag) == tags
  {
    RemoveAllAppend(tags, [tag], tag);
    RemoveAllAbsent(tags, tag);
    assert RemoveAll([tag], tag) == [];
  }

  /** A duplicate-free tag list stays duplicate-free. */
  lemma ToggleKeepsDistinct(tags: seq<string>, tag: string)
    requires Distinct(tags)
    ensures Distinct(Toggled(tags, tag))
  {
    var r := Toggled(tags, tag);
    forall t ensures multiset(r)[t] <= 1 {
      if t == tag && tag !in tags {
        assert multiset(r) == multiset(tags) + multiset{tag};
      }
    }
  }

  // ---------------------------------------------------------------- party removal

  /** `parties.filter((_, i) => i !== k)`: the list without its `k`-th entry. */
  function DropAt(parties: seq<Party>, k: nat): (r: seq<Party>)
    requires k < |parties|
    ensures |r| == |parties| - 1
    ensures forall i :: 0 <= i < |r| ==> r[i] == if i < k then parties[i] else parties[i + 1]
    ensures multiset(r) == multiset(parties) - multiset{parties[k]}
  {
    assert parties == parties[..k] + [parties[k]] + parties[k + 1..];
    parties[..k] + parties[k + 1..]
  }

  /** `itinerary[dayIndex]?.parties[partyIndex]`: the party, if both indices are in range. */
  function PartyAt(days: seq<ItineraryDay>, dayIndex: int, partyIndex: int): (r: Option<Party>)
    ensures r.Some? <==> 0 <= dayIndex < |days| && 0 <= partyIndex < |days[dayIndex].parties|
    ensures r.Some? ==> r.value == days[dayIndex].parties[partyIndex]
  {
    if 0 <= dayIndex < |days| && 0 <= partyIndex < |days[dayIndex].parties|
    then Some(days[dayIndex].parties[partyIndex])
    else None
  }

  /** The itinerary with one party taken out of one day; the day stays even when emptied. */
  function WithoutParty(days: seq<ItineraryDay>, dayIndex: nat, partyIndex: nat): (r: seq<ItineraryDay>)
    requires dayIndex < |days| && partyIndex < |days[dayIndex].parties|
    ensures |r| == |days|
    ensures forall i :: 0 <= i < |days| && i != dayIndex ==> r[i] == days[i]
    ensures r[dayIndex].date == days[dayIndex].date
    ensures r[dayIndex].dayLabel == days[dayIndex].dayLabel
    ensures r[dayIndex].dayNumber == days[dayIndex].dayNumber
    ensures r[dayIndex].parties == DropAt(days[dayIndex].parties, partyIndex)
  {
    days[dayIndex := days[dayIndex].(parties := DropAt(days[dayIndex].parties, partyIndex))]
  }

  /** Every party of every day, day by day. */
  function AllParties(days: seq<ItineraryDay>): seq<Party> {
    if days == [] then [] else days[0].parties + AllParties(days[1..])
  }

  lemma {:induction false} AllPartiesAppend(a: seq<ItineraryDay>, b: seq<ItineraryDay>)
    ensures AllParties(a + b) == AllParties(a) + AllParties(b)
  {
    if a == [] {
      assert a + b == b;
    } else {
      assert (a + b)[0] == a[0] && (a + b)[1..] == a[1..] + b;
      AllPartiesAppend(a[1..], b);
    }
  }

  lemma AllPartiesCons(day: ItineraryDay, rest: seq<ItineraryDay>)
    ensures AllParties([day] + rest) == day.parties + AllParties(rest)
  {
    assert ([day] + rest)[0] == day && ([day] + rest)[1..] == rest;
  }

  /** The parties of the days before one day, of that day, and of the days after it. */
  lemma AllPartiesAround(before: seq<ItineraryDay>, day: ItineraryDay, after: seq<ItineraryDay>)
    ensures AllParties(before + [day] + after) == AllParties(before) + day.parties + AllParties(after)
  {
    assert before + [day] + after == before + ([day] + after);
    AllPartiesAppend(before, [day] + after);
    AllPartiesCons(day, after);
  }

  /** Removal takes exactly the one party out of the itinerary and nothing else. */
  lemma WithoutPartyRemovesOne(days: seq<ItineraryDay>, dayIndex: nat, partyIndex: nat)
    requires dayIndex < |days| && partyIndex < |days[dayIndex].parties|
    ensures multiset(AllParties(WithoutParty(days, dayIndex, partyIndex)))
         == multiset(AllParties(days)) - multiset{days[dayIndex].parties[partyIndex]}
  {
    var r := WithoutParty(days, dayIndex, partyIndex);
    var before, day, after := days[..dayIndex], days[dayIndex], days[dayIndex + 1..];
    assert days == before + [day] + after;
    assert r == before + [r[dayIndex]] + after;
    AllPartiesAround(before, day, after);
    AllPartiesAround(before, r[dayIndex], after);
    var x := day.parties[partyIndex];
    assert multiset(r[dayIndex].parties) == multiset(day.parties) - multiset{x};
    assert x in multiset(day.parties);
  }

  /** `Math.max(0, totalCost - price)`. */
  function CostAfterRemoval(totalCost: int, price: nat): (r: int)
    ensures r >= 0
    ensures totalCost >= price ==> r == totalCost - price
    ensures totalCost < price ==> r == 0
  {
    if totalCost - price > 0 then totalCost - price else 0
  }

  /** If the total was the sum of the parsed prices of every party, it still is after a
      removal: the floor at 0 never bites then. */
  lemma RemovalKeepsTotal(days: seq<ItineraryDay>, totalCost: int, dayIndex: nat, partyIndex: nat)
    requires dayIndex < |days| && partyIndex < |days[dayIndex].parties|
    requires totalCost == Api.ItineraryCost(days)
    ensures CostAfterRemoval(totalCost, Api.PartyPrice(days[dayIndex].parties[partyIndex]))
         == Api.ItineraryCost(WithoutParty(days, dayIndex, partyIndex))
  {
    var day := days[dayIndex];
    var newDay := day.(parties := DropAt(day.parties, partyIndex));
    assert WithoutParty(days, dayIndex, partyIndex) == days[dayIndex := newDay];
    var price := Api.PartyPrice(day.parties[partyIndex]);
    Api.PartiesCostWithout(day.parties, partyIndex);
    Api.ItineraryCostReplace(days, dayIndex, newDay);
    assert price <= Api.PartiesCost(day.parties) <= totalCost;
  }

  // ---------------------------------------------------------------- the store

  class Store {
    var currentStep: int
    var selectedEvent: Option<Event>
    var selectedTags: seq<string>
    var arrivalDate: Option<Instant>
    var departureDate: Option<Instant>
    var vibeSummary: string
    var itinerary: seq<ItineraryDay>
    var allParties: seq<Party>
    var totalCost: int
    var isLoading: bool
    var error: Option<string>

    /** The whole store as one record. */
    function State(): WizardState
      reads this
    {
      WizardState(currentStep, selectedEvent, selectedTags, arrivalDate, departureDate,
                  vibeSummary, itinerary, allParties, totalCost, isLoading, error)
    }

    /** `totalCost` is the sum of the parsed prices of every party of the itinerary. */
    ghost predicate TotalMatchesItinerary()
      reads this
    {
      totalCost == Api.ItineraryCost(itinerary)
    }

    /** The store as `create` builds it: the initial state. */
    constructor ()
      ensures State() == InitialState
      ensures TotalMatchesItinerary()
    {
      new;
      Reset();
    }

    /** `reset`: back to the initial state, the same record the constructor builds. */
    method Reset()
      modifies this
      ensures State() == InitialState
      ensures TotalMatchesItinerary()
    {
      currentStep, selectedEvent, selectedTags := FirstStep, None, [];
      arrivalDate, departureDate := None, None;
      vibeSummary, itinerary, allParties, totalCost := "", [], [], 0;
      isLoading, error := false, None;
    }

    /** `setCurrentStep`: any step, unchecked. */
    method SetCurrentStep(step: int)
      modifies this
      ensures State() == old(State()).(currentStep := step)
    {
      currentStep := step;
    }

    /** `nextStep`: one step forward, never past 6. */
    method NextStep()
      modifies this
      ensures State() == old(State()).(currentStep := NextStepOf(old(currentStep)))
      ensures FirstStep <= old(currentStep) <= LastStep ==> FirstStep <= currentStep <= LastStep
    {
      currentStep := NextStepOf(currentStep);
    }

    /** `prevStep`: one step back, never before 1. */
    method PrevStep()
      modifies this
      ensures State() == old(State()).(currentStep := PrevStepOf(old(currentStep)))
      ensures FirstStep <= old(currentStep) <= LastStep ==> FirstStep <= currentStep <= LastStep
    {
      currentStep := PrevStepOf(currentStep);
    }

    /** `setSelectedEvent`: tags, dates and results stay as they were. */
    method SetSelectedEvent(event: Option<Event>)
      modifies this
      ensures State() == old(State()).(selectedEvent := event)
    {
      selectedEvent := event;
    }

    /** `toggleTag`. */
    method ToggleTag(tag: string)
      modifies this
      ensures State() == old(State()).(selectedTags := Toggled(old(selectedTags), tag))
      ensures old(Distinct(selectedTags)) ==> Distinct(selectedTags)
    {
      if Distinct(selectedTags) {
        ToggleKeepsDistinct(selectedTags, tag);
      }
      selectedTags := Toggled(selectedTags, tag);
    }

    /** `setSelectedTags`. */
    method SetSelectedTags(tags: seq<string>)
      modifies this
      ensures State() == old(State()).(selectedTags := tags)
    {
      selectedTags := tags;
    }

    /** `setArrivalDate`. */
    method SetArrivalDate(date: Option<Instant>)
      modifies this
      ensures State() == old(State()).(arrivalDate := date)
    {
      arrivalDate := date;
    }

    /** `setDepartureDate`. */
    method SetDepartureDate(date: Option<Instant>)
      modifies this
      ensures State() == old(State()).(departureDate := date)
    {
      departureDate := date;
    }

    /** `setResults`: the four result fields replaced wholesale, nothing else touched. */
    method SetResults(data: Results)
      modifies this
      ensures State() == old(State()).(vibeSummary := data.vibeSummary, itinerary := data.itinerary,
                                       allParties := data.allParties, totalCost := data.totalCost)
      ensures TotalMatchesItinerary() <==> data.totalCost == Api.ItineraryCost(data.itinerary)
    {
      vibeSummary, itinerary, allParties, totalCost :=
        data.vibeSummary, data.itinerary, data.allParties, data.totalCost;
    }

    /** `removeParty`: with both indices in range, that one party leaves its day and its
        parsed price leaves the total (floored at 0); otherwise nothing changes. */
    method RemoveParty(dayIndex: int, partyIndex: int)
      modifies this
      ensures PartyAt(old(itinerary), dayIndex, partyIndex).None? ==> State() == old(State())
      ensures PartyAt(old(itinerary), dayIndex, partyIndex).Some? ==>
                State() == old(State()).(
                  itinerary := WithoutParty(old(itinerary), dayIndex, partyIndex),
                  totalCost := CostAfterRemoval(old(totalCost), Api.PartyPrice(old(itinerary)[dayIndex].parties[partyIndex])))
      ensures PartyAt(old(itinerary), dayIndex, partyIndex).Some? ==> totalCost >= 0
      ensures |itinerary| == old(|itinerary|)
      ensures old(TotalMatchesItinerary()) ==> TotalMatchesItinerary()
    {
      var removed := PartyAt(itinerary, dayIndex, partyIndex);
      if removed.None? {
        return;
      }
      var price := Api.MatchPrice(removed.value.ticketPrice);
      if totalCost == Api.ItineraryCost(itinerary) {
        RemovalKeepsTotal(itinerary, totalCost, dayIndex, partyIndex);
      }
      itinerary := WithoutParty(itinerary, dayIndex, partyIndex);
      totalCost := CostAfterRemoval(totalCost, price);
    }

    /** `setIsLoading`. */
    method SetIsLoading(loading: bool)
      modifies this
      ensures State() == old(State()).(isLoading := loading)
    {
      isLoading := loading;
    }

    /** `setError`. */
    method SetError(message: Option<string>)
      modifies this
      ensures State() == old(State()).(error := message)
    {
      error := message;
    }
  }
}
