/** The events API (src/app/api/events/route.ts): GET turns query parameters into
    filters and answers the matching events; POST validates a submission and hands
    it to the store once. Request parsing and the store are parameters. */
module EventsRoute {
  import opened Seqs
  import opened Types
  import opened NotionPages
  import opened NotionEvents

  /** The JSON bodies the route answers with. */
  datatype ResponseBody =
    | ErrorBody(error: string)
    | SubmittedBody(success: bool, eventId: string)
    | EventsBody(events: seq<AIEvent>)

  datatype Response = Response(status: int, body: ResponseBody)

  const MissingFields: Response := Response(400, ErrorBody("Missing required fields"))
  const SubmitFailed: Response := Response(500, ErrorBody("Failed to submit event"))
  const FetchFailed: Response := Response(500, ErrorBody("Failed to fetch events"))

  // ---------------------------------------------------------------------------
  // POST

  /** Every required field is truthy: the nine string fields are non-empty and at
      least one category is given. End date, location, address and price amount are
      not required. */
  predicate HasRequiredFields(body: SubmitEventData) {
    && body.name != ""
    && body.date != ""
    && body.city != ""
    && body.eventType != ""
    && body.organizer != ""
    && body.url != ""
    && body.description != ""
    && body.price != ""
    && body.language != ""
    && |body.categories| > 0
  }

  /** The answer to a POST and the submissions it made, in order. */
  datatype PostOutcome = PostOutcome(response: Response, submitted: seq<SubmitEventData>)

  /** POST. `body` is None when the request body does not parse, or parses to null
      (the property reads then throw); a primitive or an array parses, lacks every
      field and is modelled as a body whose fields are all empty; a body whose
      fields have other JSON types is outside this model;
      `submit` is the persistence call, which returns the new id or throws. */
  function Post(body: Option<SubmitEventData>, submit: SubmitEventData -> Attempt<string>): (r: PostOutcome)
    ensures body.None? ==> r == PostOutcome(SubmitFailed, [])
    // a body missing a required field is rejected, and nothing is submitted
    ensures body.Some? && !HasRequiredFields(body.value) ==> r == PostOutcome(MissingFields, [])
    // a valid body is submitted unchanged, exactly once
    ensures body.Some? && HasRequiredFields(body.value) ==> r.submitted == [body.value]
    ensures body.Some? && HasRequiredFields(body.value) && submit(body.value).Ok? ==>
      r.response == Response(200, SubmittedBody(true, submit(body.value).value))
    ensures body.Some? && HasRequiredFields(body.value) && submit(body.value).Thrown? ==>
      r.response == SubmitFailed
    ensures r.response.status == 200 <==> body.Some? && HasRequiredFields(body.value) && submit(body.value).Ok?
  {
    if body.None? then PostOutcome(SubmitFailed, [])
    else if !HasRequiredFields(body.value) then PostOutcome(MissingFields, [])
    else
      match submit(body.value)
      case Ok(id) => PostOutcome(Response(200, SubmittedBody(true, id)), [body.value])
      case Thrown => PostOutcome(SubmitFailed, [body.value])
  }

  /** Changing the optional fields never changes whether a body is accepted. */
  lemma OptionalFieldsNotRequired(body: SubmitEventData, endDate: Option<string>, location: string,
                                  address: Option<string>, priceAmount: Option<int>)
    ensures HasRequiredFields(body)
        == HasRequiredFields(body.(endDate := endDate, location := location, address := address, priceAmount := priceAmount))
  {
  }

  /** Clearing any one required field gets the body rejected. */
  lemma EachRequiredFieldIsRequired(body: SubmitEventData)
    ensures !HasRequiredFields(body.(name := ""))
    ensures !HasRequiredFields(body.(date := ""))
    ensures !HasRequiredFields(body.(city := ""))
    ensures !HasRequiredFields(body.(eventType := ""))
    ensures !HasRequiredFields(body.(organizer := ""))
    ensures !HasRequiredFields(body.(url := ""))
    ensures !HasRequiredFields(body.(description := ""))
    ensures !HasRequiredFields(body.(price := ""))
    ensures !HasRequiredFields(body.(language := ""))
    ensures !HasRequiredFields(body.(categories := []))
  {
  }

  /** With the store's own submitEvent as the persistence call, an accepted submission
      is written as an unfeatured draft. */
  lemma AcceptedSubmissionIsDraft(body: SubmitEventData, create: NewPage -> Attempt<string>)
    requires HasRequiredFields(body)
    ensures Post(Some(body), (d: SubmitEventData) => SubmitEvent(d, true, create)).response.status == 200
        <==> create(NewEventPage(body)).Ok?
    ensures NewEventPage(body).status == "Draft" && !NewEventPage(body).featured
  {
  }

  // ---------------------------------------------------------------------------
  // GET

  /** `searchParams.get(key)` tested for truthiness: the value when present and non-empty. */
  function Param(params: map<string, string>, key: string): (r: Option<string>)
    ensures r.Some? <==> key in params && params[key] != ""
    ensures r.Some? ==> r.value == params[key]
  {
    if key in params && params[key] != "" then Some(params[key]) else None
  }

  /** The filters GET asks for: every parameter it reads, when non-empty; no language. */
  function RouteFilters(params: map<string, string>): EventFilters {
    EventFilters(Param(params, "city"), Param(params, "category"), Param(params, "type"), Param(params, "price"),
                 None, Param(params, "dateFrom"), Param(params, "dateTo"), Param(params, "search"))
  }

  /** GET's filter assembly: each of city, category, type, price, search, dateFrom and
      dateTo is copied when its parameter is non-empty; language is never read. */
  method BuildFilters(params: map<string, string>) returns (filters: EventFilters)
    ensures filters == RouteFilters(params)
    ensures filters.city == Param(params, "city")
    ensures filters.category == Param(params, "category")
    ensures filters.eventType == Param(params, "type")
    ensures filters.price == Param(params, "price")
    ensures filters.search == Param(params, "search")
    ensures filters.dateFrom == Param(params, "dateFrom")
    ensures filters.dateTo == Param(params, "dateTo")
    ensures filters.language.None?
  {
    filters := NoFilters;
    var city := if "city" in params then Some(params["city"]) else None;
    var category := if "category" in params then Some(params["category"]) else None;
    var eventType := if "type" in params then Some(params["type"]) else None;
    var price := if "price" in params then Some(params["price"]) else None;
    var search := if "search" in params then Some(params["search"]) else None;
    var dateFrom := if "dateFrom" in params then Some(params["dateFrom"]) else None;
    var dateTo := if "dateTo" in params then Some(params["dateTo"]) else None;
    if IsSet(city) { filters := filters.(city := city); }
    assert filters == EventFilters(Param(params, "city"), None, None, None, None, None, None, None);
    if IsSet(category) { filters := filters.(category := category); }
    assert filters == EventFilters(Param(params, "city"), Param(params, "category"), None, None, None, None, None, None);
    if IsSet(eventType) { filters := filters.(eventType := eventType); }
    assert filters == EventFilters(Param(params, "city"), Param(params, "category"), Param(params, "type"), None, None, None, None, None);
    if IsSet(price) { filters := filters.(price := price); }
    assert filters == EventFilters(Param(params, "city"), Param(params, "category"), Param(params, "type"), Param(params, "price"), None, None, None, None);
    if IsSet(search) { filters := filters.(search := search); }
    assert filters == EventFilters(Param(params, "city"), Param(params, "category"), Param(params, "type"), Param(params, "price"), None, None, None, Param(params, "search"));
    if IsSet(dateFrom) { filters := filters.(dateFrom := dateFrom); }
    assert filters == EventFilters(Param(params, "city"), Param(params, "category"), Param(params, "type"), Param(params, "price"), None, Param(params, "dateFrom"), None, Param(params, "search"));
    if IsSet(dateTo) { filters := filters.(dateTo := dateTo); }
    assert filters == EventFilters(Param(params, "city"), Param(params, "category"), Param(params, "type"), Param(params, "price"), None, Param(params, "dateFrom"), Param(params, "dateTo"), Param(params, "search"));
  }

  /** The filters GET builds never produce a Language clause, even when the request
      carries a language parameter. */
  lemma {:induction false} NoLanguageClause(filters: EventFilters, value: string)
    requires filters.language.None?
    ensures Condition("Language", SelectEquals, value) !in OptionalConditions(filters, UpcomingFields)
  {
    OptionalConditionsExact(filters, UpcomingFields);
  }

  /** GET: 200 with the events, or 500 when fetching throws. */
  method HandleGet(params: map<string, string>, configured: bool, today: string, store: Store)
    returns (response: Response)
    ensures response == FetchFailed || (response.status == 200 && response.body.EventsBody?)
    ensures response.status == 200 ==>
      forall i :: 0 <= i < |response.body.events| ==> !ShouldHideEvent(response.body.events[i].url)
    ensures response.status == 200 && Param(params, "search").Some? ==>
      forall i :: 0 <= i < |response.body.events| ==> MatchesSearch(response.body.events[i], params["search"])
    ensures !configured ==> response == Response(200, EventsBody([]))
    // configured: exactly getEvents' presentation of the store's answer to its query
    ensures configured ==>
      var events := PresentEvents(store(EventsQuery(RouteFilters(params), today)), Param(params, "search"));
      && (response == FetchFailed <==> events.Thrown?)
      && (events.Ok? ==> response == Response(200, EventsBody(events.value)))
  {
    var filters := BuildFilters(params);
    var events, _ := GetEvents(filters, configured, today, store);
    if events.Thrown? {
      return FetchFailed;
    }
    return Response(200, EventsBody(events.value));
  }
}
