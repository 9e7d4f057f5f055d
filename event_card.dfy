/** The event card's derived texts (src/components/EventCard.tsx): the type's colours
    and icon with their fallback, the price label and badge, the location line, the
    organizer row and the date line. Date formatting is a parameter. */
module EventCard {
  import opened Seqs
  import opened Types
  import Text

  /** The badge background, text colour, placeholder gradient and icon of a type. */
  datatype TypeConfig = TypeConfig(bg: string, text: string, gradient: string, icon: string)

  const EventTypeConfig: map<string, TypeConfig> := map[
    "Conference" := TypeConfig("bg-purple-600", "text-white", "from-purple-600 to-purple-800", "Presentation"),
    "Seminar" := TypeConfig("bg-blue-600", "text-white", "from-blue-600 to-blue-800", "BookOpen"),
    "Workshop" := TypeConfig("bg-amber-500", "text-white", "from-amber-500 to-amber-700", "Wrench"),
    "Summit" := TypeConfig("bg-indigo-600", "text-white", "from-indigo-600 to-indigo-800", "Globe"),
    "Meetup" := TypeConfig("bg-green-600", "text-white", "from-green-600 to-green-800", "Users2"),
    "Webinar" := TypeConfig("bg-cyan-600", "text-white", "from-cyan-600 to-cyan-800", "Video"),
    "Hackathon" := TypeConfig("bg-rose-600", "text-white", "from-rose-600 to-rose-800", "Code")
  ]

  /** `eventTypeConfig[event.type] || eventTypeConfig.Meetup`. */
  function ConfigFor(eventType: string): (r: TypeConfig)
    ensures eventType in EventTypeConfig ==> r == EventTypeConfig[eventType]
    ensures eventType !in EventTypeConfig ==> r == EventTypeConfig["Meetup"]
    ensures r in EventTypeConfig.Values
  {
    if eventType in EventTypeConfig then EventTypeConfig[eventType] else EventTypeConfig["Meetup"]
  }

  /** The price badge: "Free"; "<amount> SEK" for Paid with a non-zero amount; the
      price name otherwise. */
  function PriceLabel(price: string, priceAmount: Option<int>): (r: string)
    ensures price == "Free" ==> r == "Free"
    ensures price == "Paid" && priceAmount.Some? && priceAmount.value != 0 ==>
      r == Text.Decimal(priceAmount.value) + " SEK"
    ensures price != "Free" && !(price == "Paid" && priceAmount.Some? && priceAmount.value != 0) ==> r == price
  {
    if price == "Free" then "Free"
    else if price == "Paid" && priceAmount.Some? && priceAmount.value != 0 then Text.Decimal(priceAmount.value) + " SEK"
    else price
  }

  /** A paid event without an amount, or with amount 0, shows "Paid". */
  lemma PaidWithoutAmount(priceAmount: Option<int>)
    requires priceAmount.None? || priceAmount.value == 0
    ensures PriceLabel("Paid", priceAmount) == "Paid"
  {
  }

  /** The price badge's colours: green for Free, yellow for Freemium, white otherwise. */
  function PriceBadgeClass(price: string): (r: string)
    ensures price == "Free" ==> r == "bg-green-500 text-white"
    ensures price == "Freemium" ==> r == "bg-yellow-500 text-white"
    ensures price != "Free" && price != "Freemium" ==> r == "bg-white/90 text-gray-800"
  {
    if price == "Free" then "bg-green-500 text-white"
    else if price == "Freemium" then "bg-yellow-500 text-white"
    else "bg-white/90 text-gray-800"
  }

  /** `event.location || event.city`. */
  function LocationLine(e: AIEvent): (r: string)
    ensures e.location != "" ==> r == e.location
    ensures e.location == "" ==> r == e.city
    ensures r == "" <==> e.location == "" && e.city == ""
  {
    if e.location != "" then e.location else e.city
  }

  /** The organizer row: shown, with the name, only for a non-empty organizer. */
  function OrganizerRow(e: AIEvent): (r: Option<string>)
    ensures r.Some? <==> e.organizer != ""
    ensures r.Some? ==> r.value == e.organizer
  {
    if e.organizer != "" then Some(e.organizer) else None
  }

  /** The formatted date or time: empty for an empty date, the formatter's text otherwise. */
  function Formatted(date: string, format: string -> string): (r: string)
    ensures date == "" ==> r == ""
    ensures date != "" ==> r == format(date)
  {
    if date != "" then format(date) else ""
  }
}
