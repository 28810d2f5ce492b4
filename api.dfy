/** The itinerary request's response handling and price parsing (src/services/api.ts).
    The transport is not modelled: what `fetch` produced is a `FetchOutcome`, and `JSON.parse`
    is a function the caller supplies. What is modelled is how that outcome becomes either a
    normalised response or one of five failures. */
module Api {

  import opened Wrappers
  import opened JsStrings
  import opened Types

  // ---------------------------------------------------------------- prices

  /** The price `s.match(/\$?(\d+)/)` extracts, as the itinerary total and the store's
      removal use it: the leftmost digit run, 0 when there is none. */
  function MatchPrice(s: string): (r: nat)
    ensures (forall k :: 0 <= k < |s| ==> !IsDigit(s[k])) ==> r == 0
  {
    match FirstDigitRun(s)
    case None => 0
    case Some(digits) => DigitsValue(digits)
  }

  /** `parsePrice`: the empty string and the sentinels "Free" and "Door Only" cost nothing;
      anything else costs the value of its first digit run, or nothing if it has none. */
  function ParsePrice(s: string): (r: nat)
    ensures s == "" || s == "Free" || s == "Door Only" ==> r == 0
    ensures (forall k :: 0 <= k < |s| ==> !IsDigit(s[k])) ==> r == 0
  {
    if s == "" || s == "Free" || s == "Door Only" then 0 else MatchPrice(s)
  }

  /** The sentinels have no digits, so `parsePrice` and the inline extraction agree on every
      string. */
  lemma ParsePriceIsMatchPrice(s: string)
    ensures ParsePrice(s) == MatchPrice(s)
  {
    if s == "Free" || s == "Door Only" {
      assert forall k :: 0 <= k < |s| ==> !IsDigit(s[k]);
    }
  }

  /** The price is the value of the digit run that follows a digit-free prefix. */
  lemma MatchPriceOf(prefix: string, digits: string, rest: string)
    requires forall k :: 0 <= k < |prefix| ==> !IsDigit(prefix[k])
    requires digits != [] && AllDigits(digits)
    requires rest == [] || !IsDigit(rest[0])
    ensures MatchPrice(prefix + digits + rest) == DigitsValue(digits)
  {
    FirstDigitRunOf(prefix, digits, rest);
  }

  /** "$75" costs 75. */
  lemma DollarPriceExample()
    ensures ParsePrice("$75") == 75
  {
    MatchPriceOf("$", "75", "");
    assert "$75" == "$" + "75" + "";
  }

  /** "$1,200" costs 1: the digit run stops at the comma. */
  lemma ThousandsPriceExample()
    ensures ParsePrice("$1,200") == 1
  {
    MatchPriceOf("$", "1", ",200");
    assert "$1,200" == "$" + "1" + ",200";
  }

  /** "TBD" costs nothing. */
  lemma UnknownPriceExample()
    ensures ParsePrice("TBD") == 0
  {
    assert forall k :: 0 <= k < |"TBD"| ==> !IsDigit("TBD"[k]);
  }

  // ---------------------------------------------------------------- itinerary cost

  /** The price one party contributes to a total. */
  function PartyPrice(p: Party): (r: nat)
    ensures (forall k :: 0 <= k < |p.ticketPrice| ==> !IsDigit(p.ticketPrice[k])) ==> r == 0
  {
    MatchPrice(p.ticketPrice)
  }

  /** The inner `reduce` of `fetchItinerary`: the prices of a day's parties, added up. */
  function PartiesCost(parties: seq<Party>): (r: nat)
    ensures forall i :: 0 <= i < |parties| ==> PartyPrice(parties[i]) <= r
  {
    if parties == [] then 0 else PartyPrice(parties[0]) + PartiesCost(parties[1..])
  }

  /** The outer `reduce`: the prices of every party of every day, added up. */
  function ItineraryCost(days: seq<ItineraryDay>): (r: nat)
    ensures forall i :: 0 <= i < |days| ==> PartiesCost(days[i].parties) <= r
  {
    if days == [] then 0 else PartiesCost(days[0].parties) + ItineraryCost(days[1..])
  }

  lemma {:induction false} PartiesCostAppend(a: seq<Party>, b: seq<Party>)
    ensures PartiesCost(a + b) == PartiesCost(a) + PartiesCost(b)
  {
    if a != [] {
      assert (a + b)[0] == a[0] && (a + b)[1..] == a[1..] + b;
      PartiesCostAppend(a[1..], b);
    } else {
      assert a + b == b;
    }
  }

  lemma {:induction false} ItineraryCostAppend(a: seq<ItineraryDay>, b: seq<ItineraryDay>)
    ensures ItineraryCost(a + b) == ItineraryCost(a) + ItineraryCost(b)
  {
    if a != [] {
      assert (a + b)[0] == a[0] && (a + b)[1..] == a[1..] + b;
      ItineraryCostAppend(a[1..], b);
    } else {
      assert a + b == b;
    }
  }

  lemma PartiesCostCons(p: Party, rest: seq<Party>)
    ensures PartiesCost([p] + rest) == PartyPrice(p) + PartiesCost(rest)
  {
    assert ([p] + rest)[0] == p && ([p] + rest)[1..] == rest;
  }

  /** Taking one party out of a list lowers its cost by exactly that party's price. */
  lemma PartiesCostWithout(parties: seq<Party>, k: nat)
    requires k < |parties|
    ensures PartiesCost(parties[..k] + parties[k + 1..]) == PartiesCost(parties) - PartyPrice(parties[k])
  {
    var front, p, back := parties[..k], parties[k], parties[k + 1..];
    assert parties == front + ([p] + back);
    PartiesCostAppend(front, [p] + back);
    PartiesCostAppend(front, back);
    PartiesCostCons(p, back);
  }

  /** Replacing one day changes the itinerary's cost by the difference of the two days. */
  lemma ItineraryCostReplace(days: seq<ItineraryDay>, i: nat, day: ItineraryDay)
    requires i < |days|
    ensures ItineraryCost(days[i := day])
         == ItineraryCost(days) - PartiesCost(days[i].parties) + PartiesCost(day.parties)
  {
    assert days == days[..i] + ([days[i]] + days[i + 1..]);
    assert days[i := day] == days[..i] + ([day] + days[i + 1..]);
    ItineraryCostAppend(days[..i], [days[i]] + days[i + 1..]);
    ItineraryCostAppend(days[..i], [day] + days[i + 1..]);
    assert ([days[i]] + days[i + 1..])[1..] == days[i + 1..];
    assert ([day] + days[i + 1..])[1..] == days[i + 1..];
  }

  /** The same total computed with `parsePrice` instead of the inline extraction. */
  function ParsedPartiesCost(parties: seq<Party>): nat {
    if parties == [] then 0 else ParsePrice(parties[0].ticketPrice) + ParsedPartiesCost(parties[1..])
  }

  /** The itinerary total agrees with the sum of `parsePrice` over every party. */
  lemma {:induction false} PartiesCostIsParsed(parties: seq<Party>)
    ensures PartiesCost(parties) == ParsedPartiesCost(parties)
  {
    if parties != [] {
      ParsePriceIsMatchPrice(parties[0].ticketPrice);
      PartiesCostIsParsed(parties[1..]);
    }
  }

  // ---------------------------------------------------------------- response handling

  /** The fields of the backend's response object that the client looks at. An absent
      `total_cost` is `None`; `itinerary` and `all_parties` are `None` when missing or falsy. */
  datatype RawResponse = RawResponse(
    event: Option<string>,
    selectedTags: Option<seq<string>>,
    vibeSummary: Option<string>,
    itinerary: Option<seq<ItineraryDay>>,
    totalCost: Option<int>,
    allParties: Option<seq<Party>>)

  /** What `JSON.parse` returned, as far as the normalisation can tell values apart. */
  datatype JsonValue =
    | JsonNull
    | JsonScalar                       // a string, number or boolean
    | JsonArray(items: seq<JsonValue>)
    | JsonObject(fields: RawResponse)

  /** How the request ended: aborted by the 30-second timer, rejected by `fetch` with some
      other error, or answered with a status and a body. */
  datatype FetchOutcome =
    | Aborted
    | NetworkFailure(message: string)
    | Received(ok: bool, status: nat, body: string)

  const TimeoutMessage: string := "Request timed out. Please try again."
  const ApiErrorPrefix: string := "API error: "
  const NoPartiesMessage: string := "No parties found for your selection. Try different dates or tags."
  const InvalidResponsePrefix: string := "Invalid response from backend: "

  /** The response object: the first element of an array, the object itself otherwise.
      `None` is the `TypeError` the normalisation then throws: an empty array (whose first
      element is `undefined`), `null`, or a primitive (on which strict-mode code cannot set
      `all_parties`). An array nested in the array is an object with none of the fields. */
  function ResponseObject(v: JsonValue): (r: Option<RawResponse>)
    ensures v.JsonObject? ==> r == Some(v.fields)
    ensures v.JsonArray? && v.items != [] && v.items[0].JsonObject? ==> r == Some(v.items[0].fields)
    ensures v.JsonArray? && v.items != [] && v.items[0].JsonArray?
            ==> r == Some(RawResponse(None, None, None, None, None, None))
    ensures v.JsonArray? && v.items == [] ==> r.None?
    ensures v.JsonNull? || v.JsonScalar? ==> r.None?
    ensures v.JsonArray? && v.items != [] && (v.items[0].JsonNull? || v.items[0].JsonScalar?)
            ==> r.None?
  {
    match v
    case JsonObject(o) => Some(o)
    case JsonArray(items) =>
      if items == [] then None
      else (match items[0]
            case JsonObject(o) => Some(o)
            case JsonArray(_) => Some(RawResponse(None, None, None, None, None, None))
            case _ => None)
    case _ => None
  }

  /** `text.substring(0, 100)`. */
  function Excerpt(text: string): (r: string)
    ensures |r| <= 100
    ensures r <= text
    ensures |text| <= 100 ==> r == text
    ensures |text| > 100 ==> r == text[..100]
  {
    if |text| <= 100 then text else text[..100]
  }

  /** `fetchItinerary` after the request: classifies the outcome into one of the error
      messages, or returns the response object with `total_cost` derived from the itinerary
      when absent and `all_parties` defaulted to the empty list. */
  method FetchItinerary(outcome: FetchOutcome, parse: string -> Option<JsonValue>)
    returns (r: Result<RawResponse, string>)
    ensures outcome.Aborted? ==> r == Failure(TimeoutMessage)
    ensures outcome.NetworkFailure? ==> r == Failure(outcome.message)
    ensures outcome.Received? && !outcome.ok
         ==> r == Failure(ApiErrorPrefix + DecimalString(outcome.status))
    ensures outcome.Received? && outcome.ok && IsBlank(outcome.body)
         ==> r == Failure(NoPartiesMessage)
    ensures r.Success? <==>
              && outcome.Received? && outcome.ok && !IsBlank(outcome.body)
              && parse(outcome.body).Some?
              && ResponseObject(parse(outcome.body).value).Some?
    ensures r.Failure? && outcome.Received? && outcome.ok && !IsBlank(outcome.body)
         ==> r.error == InvalidResponsePrefix + Excerpt(outcome.body)
    ensures r.Success? ==>
              var o := ResponseObject(parse(outcome.body).value).value;
              && r.value.allParties == (if o.allParties.Some? then o.allParties else Some([]))
              && r.value.totalCost
                 == (if o.totalCost.None? && o.itinerary.Some?
                     then Some(ItineraryCost(o.itinerary.value) as int) else o.totalCost)
              && r.value.(totalCost := o.totalCost, allParties := o.allParties) == o
    ensures r.Success? ==> r.value.allParties.Some?
    ensures r.Success? && r.value.itinerary.Some? ==> r.value.totalCost.Some?
  {
    match outcome
    case Aborted =>
      return Failure(TimeoutMessage);
    case NetworkFailure(message) =>
      return Failure(message);
    case Received(ok, status, text) =>
      if !ok {
        return Failure(ApiErrorPrefix + DecimalString(status));
      }
      if Trim(text) == "" {
        return Failure(NoPartiesMessage);
      }
      var parsed := parse(text);
      if parsed.None? {
        return Failure(InvalidResponsePrefix + Excerpt(text));
      }
      var picked := ResponseObject(parsed.value);
      if picked.None? {
        return Failure(InvalidResponsePrefix + Excerpt(text));
      }
      var result := picked.value;
      if result.totalCost.None? && result.itinerary.Some? {
        result := result.(totalCost := Some(ItineraryCost(result.itinerary.value)));
      }
      if result.allParties.None? {
        result := result.(allParties := Some([]));
      }
      return Success(result);
  }
}
