# GPW weekend planner — client-side core in Dafny

The GPW app plans a weekend of parties around a Pride event. The user goes through a six-step
wizard: pick an event, pick vibe tags, pick arrival and departure dates, wait while the backend
builds an itinerary, then browse and prune it. This project models the rules the client applies
along the way and proves what they guarantee:

- **The wizard store** (`WizardStore.Store`). This is a class whose fields are the store's
  fields. Each action is a method that states the whole new state. The module proves:
  - step navigation stays within 1..6;
  - tag toggling flips membership, keeps other tags and their order, and preserves "no duplicates";
  - removing a party takes out exactly that party;
  - removing a party keeps `totalCost` equal to the sum of parsed prices when it was before.
- **Backend response handling** (`Api`). This covers `parsePrice`, the first-digit-run price
  extraction, the itinerary total, and the classification of a request's outcome. The outcome is
  a normalised response or one of five failures: the timeout message, the rejection's own
  message for any other network failure, "API error: " with the status, the no-parties message,
  or "Invalid response from backend: " with an excerpt of the body.
- **Database rows** (`PartyService`). This covers `transformPartyRow` and the unique-and-sort
  step that lists event names. The sort is insertion sort under the lexicographic order, proved
  to be a sorted permutation.
- **The calendar** (`Calendar`): the inclusive day predicates, the month grid (built by two loops
  as in the source), the month arrows with year wrap-around, and the two-click start/end state
  machine.
- **The date step** (`DateSelection`): overlap with the event, the "can proceed" rule,
  defaulting the stay to the event's dates, and the build action.
- **The contact form schema** (`ContactSchema`): per-field predicates and the ordered issue list.

The helper modules model what the JavaScript runtime provides:
- `JsStrings`: `trim`, `split`, the digit-run match, and the default string order.
- `JsDates`: local days, month lengths, and the weekday of the first of a month.
- `Wrappers`: `Option` and `Result`.
- `Types`: the records of `src/types/index.ts`.

An instant is a count of local wall-clock milliseconds. Its calendar day is the floor of the
instant divided by the length of a day, so "same `getFullYear`, `getMonth` and `getDate`" becomes
"same day ordinal".

## Model

| member | source | states |
|---|---|---|
| WizardStore.Store.constructor | src/features/wizard/stores/wizardStore.ts:63-78 | the new store is the initial state: step 1, no event, no tags, no dates, empty results, total 0, not loading, no error |
| WizardStore.Store.Reset | src/features/wizard/stores/wizardStore.ts:141 | `reset` yields the same record as the initial state, and that state's total matches its (empty) itinerary |
| WizardStore.Store.SetCurrentStep | src/features/wizard/stores/wizardStore.ts:81 | the step becomes the argument unchecked; nothing else changes |
| WizardStore.NextStepOf | src/features/wizard/stores/wizardStore.ts:82 | `min(step+1, 6)`: one forward below 6, otherwise 6 |
| WizardStore.PrevStepOf | src/features/wizard/stores/wizardStore.ts:83 | `max(step-1, 1)`: one back above 1, otherwise 1 |
| WizardStore.Store.NextStep | src/features/wizard/stores/wizardStore.ts:82 | only the step changes, to `NextStepOf` of the old step; a step in 1..6 stays in 1..6 |
| WizardStore.Store.PrevStep | src/features/wizard/stores/wizardStore.ts:83 | only the step changes, to `PrevStepOf` of the old step; a step in 1..6 stays in 1..6 |
| WizardStore.NavigationStaysInRange | src/features/wizard/stores/wizardStore.ts:82-83 | from a step in 1..6, any sequence of next/prev calls ends in 1..6 |
| WizardStore.Store.SetSelectedEvent | src/features/wizard/stores/wizardStore.ts:86 | only `selectedEvent` changes; tags, dates and results are untouched |
| WizardStore.RemoveAll | src/features/wizard/stores/wizardStore.ts:94 | the result is no longer than the input, and a tag is in it exactly when it was in the input and is not the removed tag |
| WizardStore.RemoveAllCounts | src/features/wizard/stores/wizardStore.ts:94 | the filter removes every occurrence of the tag and keeps each other tag's count |
| WizardStore.RemoveAllAppend | src/features/wizard/stores/wizardStore.ts:94 | filtering is piecewise over concatenation, so the kept tags keep their relative order |
| WizardStore.Toggled | src/features/wizard/stores/wizardStore.ts:89-97 | the tag's membership flips; other tags keep their counts; an absent tag is appended at the end |
| WizardStore.ToggleTwiceRestores | src/features/wizard/stores/wizardStore.ts:89-97 | toggling an absent tag twice gives back the original list |
| WizardStore.ToggleKeepsDistinct | src/features/wizard/stores/wizardStore.ts:89-97 | a duplicate-free tag list stays duplicate-free |
| WizardStore.Store.ToggleTag | src/features/wizard/stores/wizardStore.ts:89-97 | only the tags change, to `Toggled`; duplicate-freedom is preserved |
| WizardStore.Store.SetSelectedTags | src/features/wizard/stores/wizardStore.ts:98 | only the tags change, to the argument |
| WizardStore.Store.SetArrivalDate | src/features/wizard/stores/wizardStore.ts:101 | only the arrival date changes |
| WizardStore.Store.SetDepartureDate | src/features/wizard/stores/wizardStore.ts:102 | only the departure date changes |
| WizardStore.Store.SetResults | src/features/wizard/stores/wizardStore.ts:105-111 | exactly summary, itinerary, all-parties and total are replaced; the total matches the itinerary iff the given total is its parsed sum |
| WizardStore.PartyAt | src/features/wizard/stores/wizardStore.ts:116-118 | a party is found iff both indices are in range (negative ones are not), and it is the one at those indices |
| WizardStore.DropAt | src/features/wizard/stores/wizardStore.ts:123 | the day's list loses exactly its entry at the index; the others keep their order |
| WizardStore.WithoutParty | src/features/wizard/stores/wizardStore.ts:115-124 | the day count is unchanged (an emptied day stays); other days are untouched; the day keeps its date, label and number |
| WizardStore.WithoutPartyRemovesOne | src/features/wizard/stores/wizardStore.ts:115-124 | the parties of the whole itinerary lose exactly the removed party, as a multiset |
| WizardStore.CostAfterRemoval | src/features/wizard/stores/wizardStore.ts:132 | `max(0, total - price)`: never negative, exact when the total covers the price |
| WizardStore.RemovalKeepsTotal | src/features/wizard/stores/wizardStore.ts:127-133 | if the total was the sum of parsed prices of all parties, after removal it still is |
| WizardStore.Store.RemoveParty | src/features/wizard/stores/wizardStore.ts:113-134 | out-of-range indices leave the state unchanged; otherwise only itinerary and total change, via `WithoutParty` and `CostAfterRemoval` of the first-digit-run price; total stays >= 0; the total-matches-itinerary invariant is kept |
| WizardStore.Store.SetIsLoading | src/features/wizard/stores/wizardStore.ts:137 | only the loading flag changes |
| WizardStore.Store.SetError | src/features/wizard/stores/wizardStore.ts:138 | only the error changes |
| Api.MatchPrice | src/services/api.ts:45-46 | a ticket text without a digit costs 0; with `MatchPriceOf`, any other costs the value of its leftmost maximal digit run |
| Api.PartyPrice | src/services/api.ts:45-46 | a party whose ticket text has no digit costs 0 |
| Api.PartiesCost | src/services/api.ts:44-47 | a day's cost is at least the price of each of its parties |
| Api.ItineraryCost | src/services/api.ts:43-48 | the itinerary's total is at least the cost of each of its days |
| Api.ParsePrice | src/services/api.ts:73-79 | "", "Free" and "Door Only" cost 0; a string without digits costs 0 |
| Api.ParsePriceIsMatchPrice | src/services/api.ts:45-46 | for every string, `parsePrice` equals the inline `/\$?(\d+)/` extraction |
| Api.MatchPriceOf | src/services/api.ts:77-78 | after a digit-free prefix, the price is the value of the maximal digit run that follows |
| Api.DollarPriceExample | src/services/api.ts:73-79 | "$75" costs 75 |
| Api.ThousandsPriceExample | src/services/api.ts:73-79 | "$1,200" costs 1, because the digit run stops at the comma |
| Api.UnknownPriceExample | src/services/api.ts:73-79 | "TBD" costs 0 |
| Api.PartiesCostAppend | src/services/api.ts:44-47 | the per-day fold is additive over concatenation |
| Api.ItineraryCostAppend | src/services/api.ts:43-48 | the per-itinerary fold is additive over concatenation |
| Api.PartiesCostWithout | src/services/api.ts:44-47 | dropping one party lowers a day's cost by exactly its price |
| Api.ItineraryCostReplace | src/services/api.ts:43-48 | replacing a day changes the total by the difference of the two days' costs |
| Api.PartiesCostIsParsed | src/services/api.ts:43-48 | the inline-extraction total equals the sum of `parsePrice` over the parties |
| Api.ResponseObject | src/services/api.ts:37-38 | an object is the response itself; a non-empty array gives its first element when that is an object, and an object with no fields when that is an array; an empty array, null, a primitive, or an array whose first element is null or a primitive gives the `TypeError` (`None`) |
| Api.Excerpt | src/services/api.ts:58 | the excerpt is `substring(0, 100)`: the whole body when it has at most 100 characters, otherwise its first 100 |
| Api.FetchItinerary | src/services/api.ts:23-64 | abort gives the timeout message; any other rejection gives its own message; a non-OK status gives "API error: " and the status; a blank body gives "No parties found…"; an unparsable body, null, a primitive or an empty array gives "Invalid response from backend: " and the excerpt; otherwise success iff parse succeeded; an array is replaced by its first element; an absent total is filled with the itinerary's sum and a present one is kept; absent all-parties becomes []; nothing else changes |
| PartyService.Map | src/services/partyService.ts:38 | `.map` keeps the length and applies the function at every index |
| PartyService.DropEmpty | src/services/partyService.ts:38 | `.filter(Boolean)` keeps exactly the non-empty strings: every kept one is non-empty and from the input, every non-empty input is kept, and the result is no longer |
| PartyService.DropEmptyAppend | src/services/partyService.ts:38 | filtering is piecewise over concatenation |
| PartyService.TrimmedNonEmpty | src/services/partyService.ts:38 | every kept piece is non-empty and trimmed; every piece that is not blank is kept, trimmed; there are never more than the pieces |
| PartyService.TrimmedNonEmptyAppend | src/services/partyService.ts:38 | trimming and dropping empties works piecewise over concatenation |
| PartyService.ParseTags | src/services/partyService.ts:37-39 | a null or empty column gives []; otherwise at most commas+1 tags; each is non-empty and trimmed |
| PartyService.ParseTagsPresent | src/services/partyService.ts:37-39 | a present column, even an empty one, reads as its trimmed non-empty comma pieces |
| PartyService.ParseTagsOfPiece | src/services/partyService.ts:37-39 | a column without commas gives its trimmed text, or nothing if blank |
| PartyService.ParseTagsConcat | src/services/partyService.ts:37-39 | the tags left of a comma come before those right of it, so left-to-right order is kept |
| PartyService.Truthy | src/services/partyService.ts:42-54 | a nullable string is truthy exactly when it is present and non-empty |
| PartyService.OrElse | src/services/partyService.ts:46-54 | `s || fallback` is the value when it is truthy, otherwise the fallback, so it is empty only when both are |
| PartyService.TicketPrice | src/services/partyService.ts:42 | the first truthy tier in the order 1, 2, 3, otherwise "TBD"; never empty |
| PartyService.UnpricedPartyIsFree | src/services/partyService.ts:42 | a row with no tier set costs 0 |
| PartyService.TransformPartyRow | src/services/partyService.ts:35-56 | name, date and day are copied; tags are parsed; price from the first tier; times and venue default to ""; confirmed defaults to "No"; an empty link becomes absent |
| PartyService.UniqueInOrder | src/services/partyService.ts:116 | the Set dedup is duplicate-free, with the same members, and no longer than the input |
| PartyService.InsertSorted | src/services/partyService.ts:117 | inserting adds exactly one element, as a multiset |
| PartyService.InsertSortedKeepsOrder | src/services/partyService.ts:117 | insertion into a sorted list keeps it sorted |
| PartyService.SortStrings | src/services/partyService.ts:117 | sorting is a permutation |
| PartyService.SortStringsSorted | src/services/partyService.ts:117 | the sorted list is ascending |
| PartyService.SortedDistinctIsStrict | src/services/partyService.ts:116-117 | ascending and duplicate-free means strictly ascending |
| PartyService.EventNames | src/services/partyService.ts:116 | one name per row, in row order |
| PartyService.AvailableEvents | src/services/partyService.ts:116-117 | strictly ascending; contains a name iff some row has it as its weekend |
| PartyService.StrictlySortedUnique | src/services/partyService.ts:116-117 | the event list is the only strictly ascending list of those names |
| Calendar.IsSameDay | src/shared/components/ui/Calendar.tsx:18-24 | true iff the second instant falls within the first one's calendar day |
| Calendar.SameDayEquivalence | src/shared/components/ui/Calendar.tsx:18-24 | same-day is reflexive, symmetric and transitive |
| Calendar.IsInRange | src/shared/components/ui/Calendar.tsx:26-32 | false when either bound is null; otherwise the inclusive day test start <= date <= end |
| Calendar.InvertedRangeIsEmpty | src/shared/components/ui/Calendar.tsx:28-31 | a start day after the end day contains no date |
| Calendar.InRangeIgnoresTimeOfDay | src/shared/components/ui/Calendar.tsx:28-31 | time of day never matters, and both bound days are in range |
| Calendar.IsEventDate | src/shared/components/ui/Calendar.tsx:34-39 | the same inclusive day test as `isInRange` against the event's dates |
| Calendar.MonthGrid | src/shared/components/ui/Calendar.tsx:52-71 | the grid has firstDay + daysInMonth cells; the first firstDay are empty; cell firstDay+d-1 is day d |
| JsDates.DaysInMonth | src/shared/components/ui/Calendar.tsx:56 | between 28 and 31; 29 exactly for February of a leap year |
| JsDates.YearLength | src/shared/components/ui/Calendar.tsx:56 | the twelve month lengths add up to 365, or 366 in a leap year |
| JsDates.FirstWeekday | src/shared/components/ui/Calendar.tsx:55 | the weekday of the first of the month is in 0..6 |
| Calendar.NextMonthStartsWhereThisEnds | src/shared/components/ui/Calendar.tsx:55-56 | the next month's first weekday is this month's first weekday plus its length, modulo 7 |
| Calendar.WeekdayExamples | src/shared/components/ui/Calendar.tsx:55 | 1 January 2024 is a Monday and 1 June 2025 a Sunday |
| Calendar.PrevMonthOf | src/shared/components/ui/Calendar.tsx:73-75 | the month before, as year*12+month minus one; January wraps to December of the year before |
| Calendar.NextMonthOf | src/shared/components/ui/Calendar.tsx:77-79 | the month after, as year*12+month plus one; December wraps to January of the year after |
| Calendar.PrevNextRoundTrip | src/shared/components/ui/Calendar.tsx:73-79 | either arrow then the other returns to the same year and month |
| Calendar.CalendarWidget.constructor | src/shared/components/ui/Calendar.tsx:49-50 | the view opens on the event's year and month, and the next click picks a start |
| Calendar.CalendarWidget.PrevMonth | src/shared/components/ui/Calendar.tsx:73-75 | the view moves to `PrevMonthOf`; the selection flag is kept |
| Calendar.CalendarWidget.NextMonth | src/shared/components/ui/Calendar.tsx:77-79 | the view moves to `NextMonthOf`; the selection flag is kept |
| Calendar.ClickEdit | src/shared/components/ui/Calendar.tsx:81-94 | a click sets the start iff not selecting the end, or no start, or the date is before the start; then end-selection is entered or kept; otherwise it sets the end (never before the start) and leaves end-selection |
| Calendar.Click | src/shared/components/ui/Calendar.tsx:81-94 | a start click keeps the end; an end click keeps the start |
| Calendar.ClicksKeepSettled | src/shared/components/ui/Calendar.tsx:81-94 | over any sequence of clicks, end-selection always has a start, and when not selecting the end a shown start and end are in order |
| Calendar.TwoClicksSelectRange | src/shared/components/ui/Calendar.tsx:81-94 | from outside end-selection, clicking a then b >= a selects exactly [a, b] and leaves end-selection |
| Calendar.CalendarWidget.HandleDateClick | src/shared/components/ui/Calendar.tsx:81-94 | the returned edit and new flag are `ClickEdit`'s; the view is unchanged |
| DateSelection.RangesOverlap | src/features/wizard/components/DateSelection.tsx:15-26 | true iff start1 <= end2 and end1 >= start2, compared as calendar days |
| DateSelection.RangesOverlapSymmetric | src/features/wizard/components/DateSelection.tsx:25 | swapping the two ranges does not change the answer |
| DateSelection.RangeOverlapsItself | src/features/wizard/components/DateSelection.tsx:25 | a range with start day <= end day overlaps itself |
| DateSelection.OverlapIffCommonDay | src/features/wizard/components/DateSelection.tsx:15-26 | a shared calendar day implies overlap; for non-inverted ranges overlap implies a shared day |
| DateSelection.HasOverlap | src/features/wizard/components/DateSelection.tsx:63-66 | false when either date is unset; otherwise the day-overlap of stay and event |
| DateSelection.CanProceed | src/features/wizard/components/DateSelection.tsx:68-72 | true iff both dates are set, arrival is strictly before departure, and the stay overlaps the event |
| DateSelection.ProceedingStayMeetsEvent | src/features/wizard/components/DateSelection.tsx:68-72 | a stay that can proceed shares a calendar day with the event |
| DateSelection.DefaultStayCanProceed | src/features/wizard/components/DateSelection.tsx:55-72 | the default stay (the event's dates) can proceed iff the event ends after it starts |
| DateSelection.EventWindow | src/features/wizard/components/DateSelection.tsx:40-52 | with no event, the window is now..now; otherwise the parsed start and end dates |
| DateSelection.ApplyDefaultDates | src/features/wizard/components/DateSelection.tsx:40-60 | with an event and both dates unset, arrival and departure become the event's start and end dates as the date parser reads them, and nothing else changes; otherwise nothing changes |
| DateSelection.BuildWeekend | src/features/wizard/components/DateSelection.tsx:74-77 | loading becomes true and the step 4; nothing else changes |
| DateSelection.OnCalendarClick | src/features/wizard/components/DateSelection.tsx:108-115 | the click's edit lands on the arrival (start) or the departure (end) date; nothing else in the store changes |
| ContactSchema.NameIssues | src/features/contact/schemas/contactSchema.ts:4-7 | no issue iff the name has 2 to 100 characters; at most one issue, about the name; a shorter name gets the "at least 2 characters" message and a longer one the "under 100 characters" message |
| ContactSchema.EmailIssues | src/features/contact/schemas/contactSchema.ts:8-10 | no issue iff the e-mail predicate accepts; otherwise the e-mail message |
| ContactSchema.SubjectIssues | src/features/contact/schemas/contactSchema.ts:11-20 | no issue iff the subject is one of the five listed; otherwise "Please select a subject" |
| ContactSchema.MessageIssues | src/features/contact/schemas/contactSchema.ts:21-24 | no issue iff the message has 10 to 2000 characters; at most one issue, about the message; a shorter message gets the "at least 10 characters" message and a longer one the "under 2000 characters" message |
| ContactSchema.WebsiteIssues | src/features/contact/schemas/contactSchema.ts:26 | no issue iff the honeypot is absent or empty; otherwise "Bot detected" |
| ContactSchema.LengthIssues | src/features/contact/schemas/contactSchema.ts:4-7 | no issue iff min <= length <= max; too short and too long get their own messages |
| ContactSchema.Validate | src/features/contact/schemas/contactSchema.ts:3-27 | no issues iff every field predicate holds |
| ContactSchema.ValidateMentions | src/features/contact/schemas/contactSchema.ts:3-27 | the issue list mentions a field iff that field's own check failed |
| ContactSchema.IssueForFieldIffFieldFails | src/features/contact/schemas/contactSchema.ts:3-27 | each field is reported iff its own predicate fails, whatever the other fields |
| ContactSchema.FilledHoneypotIsRefused | src/features/contact/schemas/contactSchema.ts:26 | a non-empty honeypot is refused, and "Bot detected" is the last issue |
| ContactSchema.NameBoundaries | src/features/contact/schemas/contactSchema.ts:4-7 | lengths 2 and 100 pass; 1 and 101 get the short and long messages |
| JsStrings.Trim | src/services/partyService.ts:38 | the result has no surrounding whitespace, is empty iff the input is blank, and is a slice of the input with only whitespace before and after it |
| JsStrings.TrimOfTrimmed | src/services/partyService.ts:38 | a string with no whitespace at either end is its own trim |
| JsStrings.TrimIdempotent | src/services/partyService.ts:38 | trimming twice is trimming once |
| JsStrings.Split | src/services/partyService.ts:38 | there is always at least one piece, even for the empty string |
| JsStrings.SplitCount | src/services/partyService.ts:38 | there is one more piece than there are separators |
| JsStrings.SplitPiecesSeparatorFree | src/services/partyService.ts:38 | no piece contains the separator |
| JsStrings.JoinSplit | src/services/partyService.ts:38 | joining the pieces with the separator gives back the string |
| JsStrings.SplitJoin | src/services/partyService.ts:38 | splitting a join of separator-free pieces gives back the pieces |
| JsStrings.SplitConcat | src/services/partyService.ts:38 | splitting around one separator splits each side |
| JsStrings.DecimalString | src/services/api.ts:24 | the status text is all digits, has no leading zero and reads back as the status |
| JsStrings.DigitsValue | src/services/api.ts:46 | `parseInt` of a digit run is 0 exactly when every digit is '0' |
| JsStrings.FirstDigitRunOf | src/services/api.ts:77 | after a digit-free prefix, the match is the maximal digit run that follows |
| JsStrings.StrLessTransitive | src/services/partyService.ts:117 | the default sort order is transitive |
| JsStrings.StrLessTotal | src/services/partyService.ts:117 | any two different strings are ordered one way |

## Left out

- Network, timers and storage are left out: `fetch`, the abort controller and its 30-second timer, the Supabase queries, EmailJS and `sessionStorage`. Their results are inputs: a `FetchOutcome`, the rows, and the e-mail predicate.
- `JSON.parse` is a function parameter. The JSON value keeps only the distinctions the normalisation needs: null, a primitive, an array, and an object with the response fields.
- Api.FetchItinerary: the JSON fields are assumed to have their declared types. A truthy non-array `itinerary`, or a `total_cost` of `null` rather than absent, would throw or misbehave in the source. The model does not capture that.
- Api.ItineraryCost: `total_cost` and `totalCost` are JavaScript numbers and may be fractional when the backend sends one. The model uses integers throughout, including for the `Math.max(0, totalCost - price)` of `removeParty`.
- Api.MatchPrice: `parseInt` loses precision on digit runs longer than about 15 digits. The model uses unbounded naturals instead.
- A party whose `ticket_price` is absent (`ticket_price?.match`) is modelled as the empty string, which has the same price, 0.
- Time zones and daylight saving are left out. An instant is local wall-clock milliseconds, and every day has the same length.
- The event's date strings are read by a caller-supplied parser (`DateSelection.EventWindow`). The widget opens on a year and month the caller supplies, rather than one derived from an instant. The grid's cells are (year, month, date) triples, not instants.
- Calendar.PrevMonthOf, Calendar.NextMonthOf, Calendar.PrevNextRoundTrip, Calendar.MonthGrid, JsDates.FirstWeekday, JsDates.DaysInMonth: these use the proleptic Gregorian calendar for every integer year. `new Date(y, m, d)` reads years 0 to 99 as 1900 + y, and a JavaScript date is invalid more than 8.64e15 ms from the epoch. Neither is modelled.
- Calendar.CalendarWidget.constructor: the view's day-of-month is dropped. Only the year and month are read by the grid and the arrows.
- String lengths and the default sort order in the source count UTF-16 code units. The model counts Unicode scalar values, so they differ only outside the Basic Multilingual Plane.
- Presentation, effects and hooks are left out: rendering, the loading screen's latch and retries, toasts, `useParties`, and the step-to-view mapping.
- The tag step's "at least 3 tags" guard and the event step's non-null guard are UI checks outside the store, so they are not modelled.
- `PartyService.PartyRow` keeps only the columns `transformPartyRow` reads.
- The contact schema's type errors for non-string fields are left out, because the form record is typed.
- `formatDate`, `formatDisplayDate` and analytics are left out.
