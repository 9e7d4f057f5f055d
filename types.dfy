/** The records the site passes around (src/lib/types.ts, and the article record that
    src/lib/notion-articles.ts builds). Union-typed fields (city, category, type, price,
    language, status) are strings: the content store can hold any select name. */
module Types {
  import opened Seqs

  datatype AIEvent = AIEvent(
    id: string,
    slug: string,
    name: string,
    date: string,
    endDate: Option<string>,
    location: string,
    city: string,
    address: Option<string>,
    categories: seq<string>,
    eventType: string,
    organizer: string,
    url: string,
    description: string,
    price: string,
    priceAmount: Option<int>,
    language: string,
    imageUrl: Option<string>,
    status: string,
    featured: bool)

  /** Query filters; every field may be absent, and an empty string counts as absent. */
  datatype EventFilters = EventFilters(
    city: Option<string>,
    category: Option<string>,
    eventType: Option<string>,
    price: Option<string>,
    language: Option<string>,
    dateFrom: Option<string>,
    dateTo: Option<string>,
    search: Option<string>)

  const NoFilters: EventFilters := EventFilters(None, None, None, None, None, None, None, None)

  /** JavaScript truthiness of an optional string. */
  predicate IsSet(o: Option<string>) {
    o.Some? && o.value != ""
  }

  /** The body of a submission, taken as a typed record: every field holds a value
      of its declared type, and a field missing from the JSON is modelled as "" (or
      [], or None). For the required fields this agrees with the route's truthiness
      tests; JSON values of other types and a missing `location`, which the source
      passes on as undefined, are outside this model. */
  datatype SubmitEventData = SubmitEventData(
    name: string,
    date: string,
    endDate: Option<string>,
    location: string,
    city: string,
    address: Option<string>,
    categories: seq<string>,
    eventType: string,
    organizer: string,
    url: string,
    description: string,
    price: string,
    priceAmount: Option<int>,
    language: string)

  /** A news article. `title` is None when the store's Title property is not a string. */
  datatype Article = Article(
    id: string,
    slug: string,
    title: Option<string>,
    content: string,
    excerpt: string,
    publishedDate: string,
    author: string,
    category: string,
    tags: seq<string>,
    imageUrl: Option<string>,
    status: string,
    featured: bool)
}
