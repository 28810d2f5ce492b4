/** The records the client exchanges with the backend and the database (src/types/index.ts).
    Field names follow the wire names in lower camel case: `party_name` is `partyName`,
    `ticket_price` is `ticketPrice`, `day_label` is `dayLabel`, `day_number` is `dayNumber`.
    An optional field (`description?`, `date?`, `day?`, `link?`) is an `Option`. */
module Types {

  import opened Wrappers

  /** A weekend event from the static configuration; never changed. */
  datatype Event = Event(
    id: string,
    name: string,
    city: string,
    startDate: string,
    endDate: string,
    displayText: string,
    displayTextShort: string)

  /** One party; `confirmed` keeps the source's free-form spelling ("Confirmed", "Yes", ...). */
  datatype Party = Party(
    partyName: string,
    description: Option<string>,
    tags: seq<string>,
    startTime: string,
    endTime: string,
    venue: string,
    ticketPrice: string,
    confirmed: string,
    date: Option<string>,
    day: Option<string>,
    link: Option<string>)

  /** One day of the itinerary as the backend groups it. */
  datatype ItineraryDay = ItineraryDay(
    date: string,
    dayLabel: string,
    dayNumber: int,
    parties: seq<Party>)
}
