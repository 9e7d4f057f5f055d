/** The content store's side of src/lib/notion.ts and src/lib/notion-articles.ts:
    page properties as the store returns them, the values the property reader
    produces, JavaScript's `value || fallback` on those values, and queries. */
module NotionPages {
  import opened Seqs

  /** A date property: its start and end ("" when the end is null). */
  datatype DateRange = DateRange(start: string, end: string)

  /** One page property. Title and rich text hold the plain_text of their segments. */
  datatype Property =
    | TitleProp(segments: seq<string>)
    | RichTextProp(segments: seq<string>)
    | DateProp(date: Option<DateRange>)
    | SelectProp(name: Option<string>)
    | MultiSelectProp(names: seq<string>)
    | CheckboxProp(checked: bool)
    | UrlProp(url: Option<string>)
    | NumberProp(number: Option<int>)
    | OtherProp

  datatype Page = Page(id: string, properties: map<string, Property>)

  /** A query result: a full page, or a partial object without properties. */
  datatype QueryItem = FullPage(page: Page) | PartialPage(id: string)

  /** What the property reader returns: null, a string, a date object, a list of
      names, a boolean or a number. */
  datatype Value = Null | Str(text: string) | DateValue(range: DateRange) | Names(names: seq<string>)
                 | Bool(flag: bool) | Num(number: int)

  /** `(value as string) || fallback`. */
  function StrOr(v: Value, fallback: string): (r: string)
    ensures v.Str? && v.text != "" ==> r == v.text
    ensures !(v.Str? && v.text != "") ==> r == fallback
  {
    if v.Str? && v.text != "" then v.text else fallback
  }

  /** `(value as string) || undefined`. */
  function StrOrAbsent(v: Value): (r: Option<string>)
    ensures r.Some? <==> v.Str? && v.text != ""
    ensures r.Some? ==> r.value == v.text
  {
    if v.Str? && v.text != "" then Some(v.text) else None
  }

  /** `(value as string[]) || []`: any array is truthy, so only non-arrays fall back. */
  function NamesOr(v: Value): (r: seq<string>)
    ensures v.Names? ==> r == v.names
    ensures !v.Names? ==> r == []
  {
    if v.Names? then v.names else []
  }

  /** `(value as boolean) || false`. */
  function FlagOr(v: Value): (r: bool)
    ensures r <==> v == Bool(true)
  {
    v.Bool? && v.flag
  }

  /** `(value as number) || undefined`: 0 is falsy. */
  function NumOrAbsent(v: Value): (r: Option<int>)
    ensures r.Some? <==> v.Num? && v.number != 0
    ensures r.Some? ==> r.value == v.number
  {
    if v.Num? && v.number != 0 then Some(v.number) else None
  }

  datatype FilterOp = SelectEquals | MultiSelectContains | CheckboxEquals | DateOnOrAfter | DateOnOrBefore | DateBefore

  /** One clause of a query's `and` filter. */
  datatype Condition = Condition(property: string, op: FilterOp, operand: string)

  datatype Direction = Ascending | Descending

  datatype Sort = Sort(property: string, direction: Direction)

  /** A database query: the filter clauses (all must hold), the sort and the page size. */
  datatype Query = Query(conditions: seq<Condition>, sort: Option<Sort>, pageSize: Option<nat>)

  /** The content store: what it returns for a query, or Thrown when the call fails. */
  type Store = Query -> Attempt<seq<QueryItem>>

  /** A store that keeps to page sizes: a query with a page size is answered with at
      most that many results. */
  ghost predicate HonoursPageSize(store: Store) {
    forall q: Query :: q.pageSize.Some? && store(q).Ok? ==> |store(q).value| <= q.pageSize.value
  }

  const PublishedCondition: Condition := Condition("Status", SelectEquals, "Published")

  /** `results.filter((p) => "properties" in p)`. */
  function FullPages(items: seq<QueryItem>): (pages: seq<Page>)
    ensures |pages| <= |items|
    ensures forall i :: 0 <= i < |items| && items[i].FullPage? ==> items[i].page in pages
    ensures forall p :: p in pages ==> FullPage(p) in items
  {
    if items == [] then []
    else (if items[0].FullPage? then [items[0].page] else []) + FullPages(items[1..])
  }

  /** Dropping partial results keeps the order of the answer: the full pages of two
      consecutive stretches are those of the first followed by those of the second. */
  lemma {:induction false} FullPagesAppend(a: seq<QueryItem>, b: seq<QueryItem>)
    ensures FullPages(a + b) == FullPages(a) + FullPages(b)
  {
    if a == [] {
      assert a + b == b;
    } else {
      assert (a + b)[0] == a[0];
      assert (a + b)[1..] == a[1..] + b;
      FullPagesAppend(a[1..], b);
      var head := if a[0].FullPage? then [a[0].page] else [];
      assert FullPages(a + b) == head + (FullPages(a[1..]) + FullPages(b));
      assert head + (FullPages(a[1..]) + FullPages(b)) == (head + FullPages(a[1..])) + FullPages(b);
    }
  }
}
