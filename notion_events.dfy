/** The events side of the content store (src/lib/notion.ts): reading a page into an
    event, hiding aggregator sites, recognising listing-page URLs, building the
    query filters, searching, the slug lookup and writing a submission.
    Configuration and the store are parameters: `configured` stands for both
    environment variables being set, `store` for the database client. */
module NotionEvents {
  import opened Seqs
  import opened Text
  import opened Types
  import opened Slug
  import opened NotionPages

  // ---------------------------------------------------------------------------
  // Reading pages

  /** getPropertyValue: the value of one property, null when the page lacks it. */
  function GetPropertyValue(page: Page, name: string): (v: Value)
    ensures name !in page.properties ==> v == Null
    ensures name in page.properties && page.properties[name].TitleProp? ==>
      v == Str(if page.properties[name].segments == [] then "" else page.properties[name].segments[0])
    ensures name in page.properties && page.properties[name].RichTextProp? ==>
      v == Str(if page.properties[name].segments == [] then "" else page.properties[name].segments[0])
    ensures name in page.properties && page.properties[name].SelectProp? ==>
      (v == Null <==> page.properties[name].name.None? || page.properties[name].name.value == "")
  {
    if name !in page.properties then Null
    else match page.properties[name]
      case TitleProp(segments) => Str(if segments == [] then "" else segments[0])
      case RichTextProp(segments) => Str(if segments == [] then "" else segments[0])
      case DateProp(date) => if date.Some? then DateValue(date.value) else Null
      case SelectProp(name) => if name.Some? && name.value != "" then Str(name.value) else Null
      case MultiSelectProp(names) => Names(names)
      case CheckboxProp(checked) => Bool(checked)
      case UrlProp(url) => Str(if url.Some? then url.value else "")
      case NumberProp(number) => if number.Some? then Num(number.value) else Null
      case OtherProp => Null
  }

  /** pageToEvent. None when the Name property does not read as a string: the source
      then calls toLowerCase on a non-string while building the slug, and throws. */
  function PageToEvent(page: Page): (r: Option<AIEvent>)
    ensures r.None? <==> !GetPropertyValue(page, "Name").Str?
    ensures r.Some? ==> r.value.id == page.id && r.value.name == GetPropertyValue(page, "Name").text
    ensures r.Some? ==> r.value.slug == GenerateSlug(r.value.name, page.id)
    // defaults for properties the page does not have
    ensures r.Some? && "Date" !in page.properties ==> r.value.date == "" && r.value.endDate.None?
    ensures r.Some? && "Location" !in page.properties ==> r.value.location == ""
    ensures r.Some? && "City" !in page.properties ==> r.value.city == "Other"
    ensures r.Some? && "Category" !in page.properties ==> r.value.categories == []
    ensures r.Some? && "Type" !in page.properties ==> r.value.eventType == "Meetup"
    ensures r.Some? && "Organizer" !in page.properties ==> r.value.organizer == ""
    ensures r.Some? && "URL" !in page.properties ==> r.value.url == ""
    ensures r.Some? && "Price" !in page.properties ==> r.value.price == "Free"
    ensures r.Some? && "Price Amount" !in page.properties ==> r.value.priceAmount.None?
    ensures r.Some? && "Language" !in page.properties ==> r.value.language == "Swedish"
    ensures r.Some? && "Status" !in page.properties ==> r.value.status == "Draft"
    ensures r.Some? && "Featured" !in page.properties ==> !r.value.featured
  {
    var nameValue := GetPropertyValue(page, "Name");
    if !nameValue.Str? then None
    else
      var name := nameValue.text;
      var dateValue := GetPropertyValue(page, "Date");
      var range := if dateValue.DateValue? then Some(dateValue.range) else None;
      Some(AIEvent(
        id := page.id,
        slug := GenerateSlug(name, page.id),
        name := name,
        date := if range.Some? then range.value.start else "",
        endDate := if range.Some? && range.value.end != "" then Some(range.value.end) else None,
        location := StrOr(GetPropertyValue(page, "Location"), ""),
        city := StrOr(GetPropertyValue(page, "City"), "Other"),
        address := StrOrAbsent(GetPropertyValue(page, "Address")),
        categories := NamesOr(GetPropertyValue(page, "Category")),
        eventType := StrOr(GetPropertyValue(page, "Type"), "Meetup"),
        organizer := StrOr(GetPropertyValue(page, "Organizer"), ""),
        url := StrOr(GetPropertyValue(page, "URL"), ""),
        description := StrOr(GetPropertyValue(page, "Description"), ""),
        price := StrOr(GetPropertyValue(page, "Price"), "Free"),
        priceAmount := NumOrAbsent(GetPropertyValue(page, "Price Amount")),
        language := StrOr(GetPropertyValue(page, "Language"), "Swedish"),
        imageUrl := StrOrAbsent(GetPropertyValue(page, "Image URL")),
        status := StrOr(GetPropertyValue(page, "Status"), "Draft"),
        featured := FlagOr(GetPropertyValue(page, "Featured"))))
  }

  /** `pages.map(pageToEvent)`: None when any page throws. */
  function PagesToEvents(pages: seq<Page>): (r: Option<seq<AIEvent>>)
    ensures r.Some? <==> forall i :: 0 <= i < |pages| ==> PageToEvent(pages[i]).Some?
    ensures r.Some? ==> |r.value| == |pages|
    ensures r.Some? ==> forall i :: 0 <= i < |pages| ==> r.value[i] == PageToEvent(pages[i]).value
  {
    MapAll(pages, PageToEvent)
  }

  // ---------------------------------------------------------------------------
  // Hidden sites and listing pages

  /** Aggregator and spam domains whose events are hidden entirely. */
  const BlockedDomains: seq<string> := [
    "allconferencealert.com",
    "allconferencealerts.com",
    "conferencealert.com",
    "conferenceindex.org",
    "10times.com",
    "eventbrite.com",
    "eventbrite.se",
    "eventbrite.ie",
    "eventbrite.co.uk"
  ]

  /** shouldHideEvent: false for an empty url; otherwise whether the lower-cased url
      contains one of the blocked domains anywhere. */
  predicate ShouldHideEvent(url: string) {
    url != "" && exists i | 0 <= i < |BlockedDomains| :: Contains(Lower(url), BlockedDomains[i])
  }

  /** Hiding ignores letter case: a url and its lower-cased form are hidden alike. */
  lemma HidingIgnoresCase(url: string)
    ensures ShouldHideEvent(url) == ShouldHideEvent(Lower(url))
  {
    assert Lower(Lower(url)) == Lower(url);
  }

  /** The events of `events` that are not hidden. */
  function Visible(events: seq<AIEvent>): (r: seq<AIEvent>)
    ensures forall i :: 0 <= i < |r| ==> !ShouldHideEvent(r[i].url)
    ensures forall i :: 0 <= i < |events| && !ShouldHideEvent(events[i].url) ==> events[i] in r
    ensures Subsequence(r, events)
  {
    Filter(events, (e: AIEvent) => !ShouldHideEvent(e.url))
  }

  /** The generic-listing patterns, matched case-insensitively:
      a path ending in the segment (optionally followed by "/"), the segment followed
      (optionally after "/") by a query string, or a fixed text anywhere. */
  datatype ListingPattern = PathAtEnd(segment: string) | PathBeforeQuery(segment: string) | Infix(text: string)

  const ListingPatterns: seq<ListingPattern> := [
    PathAtEnd("/events"),
    PathBeforeQuery("/events"),
    PathAtEnd("/upcoming"),
    PathAtEnd("/calendar"),
    PathAtEnd("/all-events"),
    Infix("eventbrite.com/d/"),
    Infix("meetup.com/find/")
  ]

  predicate Matches(pattern: ListingPattern, url: string) {
    var u := Lower(url);
    match pattern
    case PathAtEnd(segment) => EndsWith(u, segment) || EndsWith(u, segment + "/")
    case PathBeforeQuery(segment) => Contains(u, segment + "?") || Contains(u, segment + "/?")
    case Infix(text) => Contains(u, text)
  }

  /** isSpecificEventUrl: tries the patterns in order and stops at the first match. */
  method IsSpecificEventUrl(url: string) returns (specific: bool)
    ensures specific <==> url != "" && forall i :: 0 <= i < |ListingPatterns| ==> !Matches(ListingPatterns[i], url)
  {
    if url == "" {
      return false;
    }
    var i := 0;
    while i < |ListingPatterns|
      invariant 0 <= i <= |ListingPatterns|
      invariant forall j :: 0 <= j < i ==> !Matches(ListingPatterns[j], url)
    {
      if Matches(ListingPatterns[i], url) {
        return false;
      }
      i := i + 1;
    }
    return true;
  }

  // ---------------------------------------------------------------------------
  // Query filters

  /** The optional filters, in the order the query builders append them. */
  datatype FilterField = CityField | CategoryField | TypeField | PriceField | LanguageField | DateFromField | DateToField

  const UpcomingFields: seq<FilterField> := [CityField, CategoryField, TypeField, PriceField, LanguageField, DateFromField, DateToField]

  /** getPastEvents reads only these; language, dateFrom and dateTo are ignored there. */
  const PastFields: seq<FilterField> := [CityField, CategoryField, TypeField, PriceField]

  function FieldValue(filters: EventFilters, field: FilterField): Option<string> {
    match field
    case CityField => filters.city
    case CategoryField => filters.category
    case TypeField => filters.eventType
    case PriceField => filters.price
    case LanguageField => filters.language
    case DateFromField => filters.dateFrom
    case DateToField => filters.dateTo
  }

  /** The clause pushed for a field that is set. */
  function ConditionFor(field: FilterField, value: string): Condition {
    match field
    case CityField => Condition("City", SelectEquals, value)
    case CategoryField => Condition("Category", MultiSelectContains, value)
    case TypeField => Condition("Type", SelectEquals, value)
    case PriceField => Condition("Price", SelectEquals, value)
    case LanguageField => Condition("Language", SelectEquals, value)
    case DateFromField => Condition("Date", DateOnOrAfter, value)
    case DateToField => Condition("Date", DateOnOrBefore, value)
  }

  /** The clause for one field: none when the field is unset or empty. */
  function Clause(filters: EventFilters, field: FilterField): seq<Condition> {
    var v := FieldValue(filters, field);
    if IsSet(v) then [ConditionFor(field, v.value)] else []
  }

  /** The clauses for the set fields among `fields`, in the order of `fields`. */
  function OptionalConditions(filters: EventFilters, fields: seq<FilterField>): (r: seq<Condition>)
  {
    if fields == [] then []
    else OptionalConditions(filters, fields[..|fields| - 1]) + Clause(filters, fields[|fields| - 1])
  }

  predicate SetAt(filters: EventFilters, fields: seq<FilterField>, k: int) {
    0 <= k < |fields| && IsSet(FieldValue(filters, fields[k]))
  }

  /** A clause is sent exactly when it is the clause of a field that is set (to a
      non-empty value): no clause for an unset field, none missing for a set one. */
  lemma {:induction false} OptionalConditionsExact(filters: EventFilters, fields: seq<FilterField>)
    ensures forall c :: c in OptionalConditions(filters, fields) <==>
      exists k :: SetAt(filters, fields, k) && c == ConditionFor(fields[k], FieldValue(filters, fields[k]).value)
    decreases |fields|
  {
    if fields != [] {
      var init := fields[..|fields| - 1];
      var last := |fields| - 1;
      OptionalConditionsExact(filters, init);
      forall c
        ensures c in OptionalConditions(filters, fields) <==>
          exists k :: SetAt(filters, fields, k) && c == ConditionFor(fields[k], FieldValue(filters, fields[k]).value)
      {
        if c in OptionalConditions(filters, init) {
          var k :| SetAt(filters, init, k) && c == ConditionFor(init[k], FieldValue(filters, init[k]).value);
          assert SetAt(filters, fields, k);
        } else if c in Clause(filters, fields[last]) {
          assert SetAt(filters, fields, last);
        }
        if exists k :: SetAt(filters, fields, k) && c == ConditionFor(fields[k], FieldValue(filters, fields[k]).value) {
          var k :| SetAt(filters, fields, k) && c == ConditionFor(fields[k], FieldValue(filters, fields[k]).value);
          if k < last {
            assert SetAt(filters, init, k);
          }
        }
      }
    }
  }

  /** Over fields without repeats, no clause is sent twice: different fields push
      different clauses whatever their values. */
  lemma {:induction false} NoRepeatedClause(filters: EventFilters, fields: seq<FilterField>)
    requires NoRepeats(fields)
    ensures NoRepeats(OptionalConditions(filters, fields))
    decreases |fields|
  {
    if fields != [] {
      var init := fields[..|fields| - 1];
      var field := fields[|fields| - 1];
      var front := OptionalConditions(filters, init);
      assert NoRepeats(init) by {
        forall i, j | 0 <= i < j < |init|
          ensures init[i] != init[j]
        {
          assert init[i] == fields[i] && init[j] == fields[j];
        }
      }
      NoRepeatedClause(filters, init);
      OptionalConditionsExact(filters, init);
      var v := FieldValue(filters, field);
      if !IsSet(v) {
        assert OptionalConditions(filters, fields) == front + [];
      } else {
        var c := ConditionFor(field, v.value);
        forall k | SetAt(filters, init, k)
          ensures ConditionFor(init[k], FieldValue(filters, init[k]).value) != c
        {
          assert init[k] == fields[k] != field;
        }
        assert c !in front;
        var r := OptionalConditions(filters, fields);
        assert r == front + [c];
        forall i, j | 0 <= i < j < |r|
          ensures r[i] != r[j]
        {
          assert r[i] == front[i];
          if j == |front| {
            assert r[i] in front;
          } else {
            assert r[j] == front[j];
          }
        }
      }
    }
  }

  /** Neither fetcher sends a filter clause twice. */
  lemma FetcherClausesDistinct(filters: EventFilters)
    ensures NoRepeats(OptionalConditions(filters, UpcomingFields))
    ensures NoRepeats(OptionalConditions(filters, PastFields))
  {
    NoRepeatedClause(filters, UpcomingFields);
    NoRepeatedClause(filters, PastFields);
  }

  /** One more field: its clause, if any, goes at the end. */
  lemma PrefixStep(filters: EventFilters, fields: seq<FilterField>, k: nat)
    requires k < |fields|
    ensures OptionalConditions(filters, fields[..k + 1]) == OptionalConditions(filters, fields[..k]) + Clause(filters, fields[k])
  {
    assert fields[..k + 1][..k] == fields[..k];
  }

  /** The same step behind a fixed prefix of clauses: a list holding the clauses of
      the first k fields, extended by the clause of field k, holds those of k + 1. */
  lemma PrefixStepAfter(base: seq<Condition>, filters: EventFilters, fields: seq<FilterField>, k: nat,
                        before: seq<Condition>, after: seq<Condition>)
    requires k < |fields|
    requires before == base + OptionalConditions(filters, fields[..k])
    requires after == before + Clause(filters, fields[k])
    ensures after == base + OptionalConditions(filters, fields[..k + 1])
  {
    PrefixStep(filters, fields, k);
  }

  /** The clauses depend only on the values of the listed fields. */
  lemma {:induction false} SameValuesSameConditions(a: EventFilters, b: EventFilters, fields: seq<FilterField>)
    requires forall k :: 0 <= k < |fields| ==> FieldValue(a, fields[k]) == FieldValue(b, fields[k])
    ensures OptionalConditions(a, fields) == OptionalConditions(b, fields)
    decreases |fields|
  {
    if fields != [] {
      SameValuesSameConditions(a, b, fields[..|fields| - 1]);
    }
  }

  /** The past-events query never carries a language or date-range clause: those
      filters have no effect there. */
  lemma PastIgnoresLanguageAndDates(filters: EventFilters)
    ensures OptionalConditions(filters, PastFields)
         == OptionalConditions(filters.(language := None, dateFrom := None, dateTo := None), PastFields)
  {
    SameValuesSameConditions(filters, filters.(language := None, dateFrom := None, dateTo := None), PastFields);
  }

  /** `if (value) conditions.push(clause)` for one field. */
  method PushIfSet(conditions: seq<Condition>, filters: EventFilters, field: FilterField) returns (r: seq<Condition>)
    ensures r == conditions + Clause(filters, field)
  {
    var v := FieldValue(filters, field);
    if IsSet(v) {
      r := conditions + [ConditionFor(field, v.value)];
    } else {
      r := conditions;
    }
  }

  /** The filter of getEvents: Published status, a date on or after today, then one
      clause per set filter in the order city, category, type, price, language,
      dateFrom, dateTo. */
  method BuildUpcomingConditions(filters: EventFilters, today: string) returns (conditions: seq<Condition>)
    ensures conditions == [PublishedCondition, Condition("Date", DateOnOrAfter, today)] + OptionalConditions(filters, UpcomingFields)
  {
    ghost var f := UpcomingFields;
    ghost var base := [PublishedCondition, Condition("Date", DateOnOrAfter, today)];
    conditions := [PublishedCondition, Condition("Date", DateOnOrAfter, today)];
    ghost var previous := conditions;
    assert f[..0] == [];
    previous := conditions;
    conditions := PushIfSet(conditions, filters, CityField);
    PrefixStepAfter(base, filters, f, 0, previous, conditions);
    previous := conditions;
    conditions := PushIfSet(conditions, filters, CategoryField);
    PrefixStepAfter(base, filters, f, 1, previous, conditions);
    previous := conditions;
    conditions := PushIfSet(conditions, filters, TypeField);
    PrefixStepAfter(base, filters, f, 2, previous, conditions);
    previous := conditions;
    conditions := PushIfSet(conditions, filters, PriceField);
    PrefixStepAfter(base, filters, f, 3, previous, conditions);
    previous := conditions;
    conditions := PushIfSet(conditions, filters, LanguageField);
    PrefixStepAfter(base, filters, f, 4, previous, conditions);
    previous := conditions;
    conditions := PushIfSet(conditions, filters, DateFromField);
    PrefixStepAfter(base, filters, f, 5, previous, conditions);
    previous := conditions;
    conditions := PushIfSet(conditions, filters, DateToField);
    PrefixStepAfter(base, filters, f, 6, previous, conditions);
    assert f[..|f|] == f;
  }

  /** The filter of getPastEvents: Published status, a date before today, then one
      clause per set filter among city, category, type and price, in that order. */
  method BuildPastConditions(filters: EventFilters, today: string) returns (conditions: seq<Condition>)
    ensures conditions == [PublishedCondition, Condition("Date", DateBefore, today)] + OptionalConditions(filters, PastFields)
  {
    ghost var f := PastFields;
    ghost var base := [PublishedCondition, Condition("Date", DateBefore, today)];
    conditions := [PublishedCondition, Condition("Date", DateBefore, today)];
    ghost var previous := conditions;
    assert f[..0] == [];
    previous := conditions;
    conditions := PushIfSet(conditions, filters, CityField);
    PrefixStepAfter(base, filters, f, 0, previous, conditions);
    previous := conditions;
    conditions := PushIfSet(conditions, filters, CategoryField);
    PrefixStepAfter(base, filters, f, 1, previous, conditions);
    previous := conditions;
    conditions := PushIfSet(conditions, filters, TypeField);
    PrefixStepAfter(base, filters, f, 2, previous, conditions);
    previous := conditions;
    conditions := PushIfSet(conditions, filters, PriceField);
    PrefixStepAfter(base, filters, f, 3, previous, conditions);
    assert f[..4] == f;
  }

  // ---------------------------------------------------------------------------
  // Search and the event fetchers

  /** The client-side search test: the lower-cased query occurs in the lower-cased
      name, description or organizer. */
  predicate MatchesSearch(e: AIEvent, query: string) {
    var q := Lower(query);
    Contains(Lower(e.name), q) || Contains(Lower(e.description), q) || Contains(Lower(e.organizer), q)
  }

  /** Keeps, in order, exactly the events that match the query. */
  function SearchEvents(events: seq<AIEvent>, query: string): (r: seq<AIEvent>)
    ensures forall i :: 0 <= i < |r| ==> MatchesSearch(r[i], query)
    ensures forall e :: e in events && MatchesSearch(e, query) ==> e in r
    ensures Subsequence(r, events)
  {
    var matches := (e: AIEvent) => MatchesSearch(e, query);
    var r := Filter(events, matches);
    assert forall e :: e in events && MatchesSearch(e, query) ==> e in r by {
      forall e | e in events && matches(e) ensures e in r {
        FilterKeeps(events, matches, e);
      }
    }
    r
  }

  /** `results.filter(full).map(pageToEvent).filter(visible)`: the events a fetcher
      reads from the store's answer, hidden sites dropped; Thrown when the query or
      any page throws. */
  function VisibleEvents(answer: Attempt<seq<QueryItem>>): (r: Attempt<seq<AIEvent>>)
    ensures r.Thrown? <==> answer.Thrown? || PagesToEvents(FullPages(answer.value)).None?
    ensures r.Ok? ==> forall i :: 0 <= i < |r.value| ==> !ShouldHideEvent(r.value[i].url)
    ensures r.Ok? ==> Subsequence(r.value, PagesToEvents(FullPages(answer.value)).value)
    ensures r.Ok? ==> forall e :: e in PagesToEvents(FullPages(answer.value)).value && !ShouldHideEvent(e.url) ==> e in r.value
  {
    if answer.Thrown? then Thrown
    else
      var converted := PagesToEvents(FullPages(answer.value));
      if converted.None? then Thrown else Ok(Visible(converted.value))
  }

  /** The search applied to the visible events keeps the visible events' guarantees
      and adds the match. */
  lemma {:induction false} SearchVisible(answer: Attempt<seq<QueryItem>>, query: string)
    requires VisibleEvents(answer).Ok?
    ensures var events := SearchEvents(VisibleEvents(answer).value, query);
      && (forall i :: 0 <= i < |events| ==> !ShouldHideEvent(events[i].url) && MatchesSearch(events[i], query))
      && Subsequence(events, PagesToEvents(FullPages(answer.value)).value)
      && forall e :: e in PagesToEvents(FullPages(answer.value)).value && !ShouldHideEvent(e.url) && MatchesSearch(e, query) ==> e in events
  {
    var visible := VisibleEvents(answer).value;
    var events := SearchEvents(visible, query);
    var all := PagesToEvents(FullPages(answer.value)).value;
    SubsequenceTransitive(events, visible, all);
    forall i | 0 <= i < |events|
      ensures !ShouldHideEvent(events[i].url)
    {
      assert events[i] in visible;
    }
    forall e | e in all && !ShouldHideEvent(e.url) && MatchesSearch(e, query)
      ensures e in events
    {
      assert e in visible;
    }
  }

  /** What a fetcher makes of the store's answer: full pages only, read into events
      (throwing if a page throws), hidden sites dropped, then the search if one is set. */
  function PresentEvents(answer: Attempt<seq<QueryItem>>, search: Option<string>): (r: Attempt<seq<AIEvent>>)
    ensures answer.Thrown? ==> r.Thrown?
    ensures answer.Ok? ==> (r.Thrown? <==> PagesToEvents(FullPages(answer.value)).None?)
    ensures r.Ok? ==> forall i :: 0 <= i < |r.value| ==> !ShouldHideEvent(r.value[i].url)
    ensures r.Ok? && IsSet(search) ==> forall i :: 0 <= i < |r.value| ==> MatchesSearch(r.value[i], search.value)
    ensures r.Ok? ==> Subsequence(r.value, PagesToEvents(FullPages(answer.value)).value)
    ensures r.Ok? ==> forall e :: e in PagesToEvents(FullPages(answer.value)).value ==>
      (!ShouldHideEvent(e.url) && (IsSet(search) ==> MatchesSearch(e, search.value)) ==> e in r.value)
  {
    var visible := VisibleEvents(answer);
    if visible.Thrown? || !IsSet(search) then visible
    else
      SearchVisible(answer, search.value);
      Ok(SearchEvents(visible.value, search.value))
  }

  /** getEvents' query: published, from today on, the filter clauses, by date ascending,
      no page size. */
  function EventsQuery(filters: EventFilters, today: string): Query {
    Query([PublishedCondition, Condition("Date", DateOnOrAfter, today)] + OptionalConditions(filters, UpcomingFields),
          Some(Sort("Date", Ascending)), None)
  }

  /** getPastEvents' query: published, before today, the city, category, type and price
      clauses, by date descending, no page size. */
  function PastEventsQuery(filters: EventFilters, today: string): Query {
    Query([PublishedCondition, Condition("Date", DateBefore, today)] + OptionalConditions(filters, PastFields),
          Some(Sort("Date", Descending)), None)
  }

  /** getEvents: [] when unconfigured; otherwise one query for published events from
      today on, with the filter clauses, sorted by date ascending, and the answer
      presented with the search. */
  method GetEvents(filters: EventFilters, configured: bool, today: string, store: Store)
    returns (r: Attempt<seq<AIEvent>>, sent: Option<Query>)
    ensures !configured ==> r == Ok([]) && sent.None?
    ensures configured ==> sent == Some(EventsQuery(filters, today))
    ensures configured ==> r == PresentEvents(store(sent.value), filters.search)
    ensures configured && store(sent.value).Thrown? ==> r.Thrown?
    ensures r.Ok? ==> forall i :: 0 <= i < |r.value| ==> !ShouldHideEvent(r.value[i].url)
    ensures r.Ok? && IsSet(filters.search) ==>
      forall i :: 0 <= i < |r.value| ==> MatchesSearch(r.value[i], filters.search.value)
  {
    if !configured {
      return Ok([]), None;
    }
    var conditions := BuildUpcomingConditions(filters, today);
    var query := Query(conditions, Some(Sort("Date", Ascending)), None);
    sent := Some(query);
    r := PresentEvents(store(query), filters.search);
  }

  /** getPastEvents: like getEvents, for dates before today, sorted descending; only
      city, category, type and price become clauses (search still applies). */
  method GetPastEvents(filters: EventFilters, configured: bool, today: string, store: Store)
    returns (r: Attempt<seq<AIEvent>>, sent: Option<Query>)
    ensures !configured ==> r == Ok([]) && sent.None?
    ensures configured ==> sent == Some(PastEventsQuery(filters, today))
    ensures configured ==> r == PresentEvents(store(sent.value), filters.search)
    ensures configured && store(sent.value).Thrown? ==> r.Thrown?
    ensures r.Ok? ==> forall i :: 0 <= i < |r.value| ==> !ShouldHideEvent(r.value[i].url)
    ensures r.Ok? && IsSet(filters.search) ==>
      forall i :: 0 <= i < |r.value| ==> MatchesSearch(r.value[i], filters.search.value)
  {
    if !configured {
      return Ok([]), None;
    }
    var conditions := BuildPastConditions(filters, today);
    var query := Query(conditions, Some(Sort("Date", Descending)), None);
    sent := Some(query);
    r := PresentEvents(store(query), filters.search);
  }

  /** getFeaturedEvents' query: published, featured, from today on, by date, five at most. */
  function FeaturedQuery(today: string): Query {
    Query([PublishedCondition, Condition("Featured", CheckboxEquals, "true"), Condition("Date", DateOnOrAfter, today)],
          Some(Sort("Date", Ascending)), Some(5))
  }

  /** getUpcomingEvents' query: published, from today on, by date, `limit` at most. */
  function UpcomingQuery(today: string, limit: nat): Query {
    Query([PublishedCondition, Condition("Date", DateOnOrAfter, today)], Some(Sort("Date", Ascending)), Some(limit))
  }

  /** The default page size of getUpcomingEvents. */
  const DefaultUpcomingLimit: nat := 10

  /** The visible events are never more than the results of the query. */
  lemma {:induction false} VisibleAtMostResults(answer: Attempt<seq<QueryItem>>)
    ensures VisibleEvents(answer).Ok? ==> |VisibleEvents(answer).value| <= |answer.value|
  {
    if VisibleEvents(answer).Ok? {
      SubsequenceLength(VisibleEvents(answer).value, PagesToEvents(FullPages(answer.value)).value);
    }
  }

  /** getFeaturedEvents: [] when unconfigured, otherwise the visible events of one query,
      five at most when the store keeps to the page size. */
  function GetFeaturedEvents(configured: bool, today: string, store: Store): (r: Attempt<seq<AIEvent>>)
    ensures !configured ==> r == Ok([])
    ensures configured ==> r == VisibleEvents(store(FeaturedQuery(today)))
    ensures r.Ok? ==> forall i :: 0 <= i < |r.value| ==> !ShouldHideEvent(r.value[i].url)
    ensures HonoursPageSize(store) && r.Ok? ==> |r.value| <= 5
  {
    if !configured then Ok([])
    else
      VisibleAtMostResults(store(FeaturedQuery(today)));
      VisibleEvents(store(FeaturedQuery(today)))
  }

  /** getUpcomingEvents(limit = 10): [] when unconfigured, otherwise the visible events
      of one query, `limit` at most when the store keeps to the page size. */
  function GetUpcomingEvents(configured: bool, today: string, store: Store, limit: nat := DefaultUpcomingLimit): (r: Attempt<seq<AIEvent>>)
    ensures !configured ==> r == Ok([])
    ensures configured ==> r == VisibleEvents(store(UpcomingQuery(today, limit)))
    ensures r.Ok? ==> forall i :: 0 <= i < |r.value| ==> !ShouldHideEvent(r.value[i].url)
    ensures HonoursPageSize(store) && r.Ok? ==> |r.value| <= limit
  {
    if !configured then Ok([])
    else
      VisibleAtMostResults(store(UpcomingQuery(today, limit)));
      VisibleEvents(store(UpcomingQuery(today, limit)))
  }

  // ---------------------------------------------------------------------------
  // Slug lookup

  /** The lookup's query: every published page, unsorted. */
  const PublishedQuery: Query := Query([PublishedCondition], None, None)

  predicate IdMatches(page: Page, idPart: string) {
    EndsWith(RemoveChar(page.id, '-'), idPart)
  }

  /** `pages.find(...)`: the first page whose dashless id ends with idPart. */
  function FindById(pages: seq<Page>, idPart: string): (r: Option<Page>)
    ensures r.None? ==> forall i :: 0 <= i < |pages| ==> !IdMatches(pages[i], idPart)
    ensures r.Some? ==> exists k :: FirstMatchAt(pages, idPart, k) && pages[k] == r.value
  {
    if pages == [] then None
    else if IdMatches(pages[0], idPart) then
      assert FirstMatchAt(pages, idPart, 0);
      Some(pages[0])
    else
      var r := FindById(pages[1..], idPart);
      if r.Some? then
        var k :| FirstMatchAt(pages[1..], idPart, k) && pages[1..][k] == r.value;
        assert FirstMatchAt(pages, idPart, k + 1);
        r
      else r
  }

  predicate FirstMatchAt(pages: seq<Page>, idPart: string, k: int) {
    0 <= k < |pages| && IdMatches(pages[k], idPart) && forall j :: 0 <= j < k ==> !IdMatches(pages[j], idPart)
  }

  /** getEventBySlug: null when unconfigured or when the slug's last segment is shorter
      than 12 (no query is made); otherwise the first published page whose dashless
      id ends with that segment. */
  function GetEventBySlug(slug: string, configured: bool, store: Store): (r: Attempt<Option<AIEvent>>)
    ensures !configured || |LastSegment(slug)| < 12 ==> r == Ok(None)
    ensures configured && |LastSegment(slug)| >= 12 && store(PublishedQuery).Thrown? ==> r.Thrown?
    ensures r.Ok? && r.value.Some? ==> EndsWith(RemoveChar(r.value.value.id, '-'), LastSegment(slug))
  {
    if !configured then Ok(None)
    else
      var idPart := LastSegment(slug);
      if |idPart| < 12 then Ok(None)
      else
        match store(PublishedQuery)
        case Thrown => Thrown
        case Ok(items) =>
          match FindById(FullPages(items), idPart)
          case None => Ok(None)
          case Some(page) =>
            match PageToEvent(page)
            case None => Thrown
            case Some(e) => Ok(Some(e))
  }

  /** Round trip: the slug of an event read from a page whose id has at least 12
      characters besides dashes leads the lookup back to that event, provided no
      earlier published page's id ends with the same 12 characters. */
  lemma SlugLookupFindsEvent(page: Page, items: seq<QueryItem>, store: Store, k: nat)
    requires store(PublishedQuery) == Ok(items)
    requires PageToEvent(page).Some? && |RemoveChar(page.id, '-')| >= 12
    requires k < |FullPages(items)| && FullPages(items)[k] == page
    requires forall j :: 0 <= j < k ==> !IdMatches(FullPages(items)[j], IdSuffix(page.id))
    ensures GetEventBySlug(PageToEvent(page).value.slug, true, store) == Ok(PageToEvent(page))
  {
    var e := PageToEvent(page).value;
    SlugRoundTrip(e.name, page.id);
    var pages := FullPages(items);
    assert FirstMatchAt(pages, IdSuffix(page.id), k);
    var found := FindById(pages, IdSuffix(page.id));
    var k' :| FirstMatchAt(pages, IdSuffix(page.id), k') && pages[k'] == found.value;
    assert k' == k;
  }

  // ---------------------------------------------------------------------------
  // Submission

  /** The properties submitEvent writes for a new page. */
  datatype NewPage = NewPage(
    name: string,
    dateStart: string,
    dateEnd: Option<string>,
    location: string,
    city: string,
    address: string,
    categories: seq<string>,
    eventType: string,
    organizer: string,
    url: string,
    description: string,
    price: string,
    priceAmount: Option<int>,
    language: string,
    status: string,
    featured: bool)

  /** A submission always lands as an unfeatured draft; empty end date and zero or
      missing price amount are written as null, a missing address as "". */
  function NewEventPage(data: SubmitEventData): (p: NewPage)
    ensures p.status == "Draft" && !p.featured
    ensures p.dateEnd.None? <==> !IsSet(data.endDate)
    ensures p.dateEnd.Some? ==> p.dateEnd == data.endDate
    ensures p.priceAmount.None? <==> data.priceAmount.None? || data.priceAmount.value == 0
    ensures p.priceAmount.Some? ==> p.priceAmount == data.priceAmount
    ensures p.address == if IsSet(data.address) then data.address.value else ""
    ensures p.name == data.name && p.dateStart == data.date && p.location == data.location
      && p.city == data.city && p.categories == data.categories && p.eventType == data.eventType
      && p.organizer == data.organizer && p.url == data.url && p.description == data.description
      && p.price == data.price && p.language == data.language
  {
    NewPage(
      name := data.name,
      dateStart := data.date,
      dateEnd := if IsSet(data.endDate) then data.endDate else None,
      location := data.location,
      city := data.city,
      address := if IsSet(data.address) then data.address.value else "",
      categories := data.categories,
      eventType := data.eventType,
      organizer := data.organizer,
      url := data.url,
      description := data.description,
      price := data.price,
      priceAmount := if data.priceAmount.Some? && data.priceAmount.value != 0 then data.priceAmount else None,
      language := data.language,
      status := "Draft",
      featured := false)
  }

  /** submitEvent: throws when unconfigured; otherwise creates the page and returns
      the new page's id (or throws if the store does). */
  function SubmitEvent(data: SubmitEventData, configured: bool, create: NewPage -> Attempt<string>): (r: Attempt<string>)
    ensures !configured ==> r.Thrown?
    ensures configured ==> r == create(NewEventPage(data))
  {
    if !configured then Thrown else create(NewEventPage(data))
  }
}
