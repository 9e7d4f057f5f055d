/** The archives page (src/app/archives/page.tsx): past events grouped by year and
    month, the year list and its filter, the filters handed to the past-events query,
    and the summary statistics. The year and the locale month name of a date are the
    parameters `yearOf` and `monthOf`. */
module Archives {
  import opened Seqs
  import opened Types
  import opened NotionPages
  import opened NotionEvents

  // ---------------------------------------------------------------------------
  // Grouping

  /** year -> month -> events, the page's nested Map. */
  type Grouping = map<int, map<string, seq<AIEvent>>>

  /** The events of one (year, month), in input order. */
  function Bucket(events: seq<AIEvent>, year: int, month: string, yearOf: string -> int, monthOf: string -> string): seq<AIEvent> {
    if events == [] then []
    else
      var e := events[|events| - 1];
      Bucket(events[..|events| - 1], year, month, yearOf, monthOf)
        + (if yearOf(e.date) == year && monthOf(e.date) == month then [e] else [])
  }

  /** The years in order of first appearance: the outer map's insertion order. */
  function YearsOf(events: seq<AIEvent>, yearOf: string -> int): seq<int> {
    if events == [] then []
    else
      var prior := YearsOf(events[..|events| - 1], yearOf);
      var y := yearOf(events[|events| - 1].date);
      if y in prior then prior else prior + [y]
  }

  /** A year's months in order of first appearance: the inner map's insertion order. */
  function MonthsOf(events: seq<AIEvent>, year: int, yearOf: string -> int, monthOf: string -> string): seq<string> {
    if events == [] then []
    else
      var prior := MonthsOf(events[..|events| - 1], year, yearOf, monthOf);
      var e := events[|events| - 1];
      if yearOf(e.date) == year && monthOf(e.date) !in prior then prior + [monthOf(e.date)] else prior
  }

  /** The outer map's keys, in insertion order, are the events' distinct years. */
  ghost predicate YearsGrouped(events: seq<AIEvent>, grouped: Grouping, years: seq<int>, yearOf: string -> int) {
    && years == YearsOf(events, yearOf)
    && (forall y :: y in grouped <==> y in years)
  }

  /** One year's map, with its insertion order, holds that year's buckets. */
  ghost predicate YearGrouped(events: seq<AIEvent>, y: int, yearMap: map<string, seq<AIEvent>>, order: seq<string>,
                              yearOf: string -> int, monthOf: string -> string) {
    && order == MonthsOf(events, y, yearOf, monthOf)
    && (forall m :: m in yearMap <==> m in order)
    && (forall m :: m in yearMap ==> yearMap[m] == Bucket(events, y, m, yearOf, monthOf))
  }

  /** The nested maps, with their insertion orders, hold exactly the buckets of the
      events seen so far. */
  ghost predicate Grouped(events: seq<AIEvent>, grouped: Grouping, years: seq<int>,
                          months: map<int, seq<string>>, yearOf: string -> int, monthOf: string -> string) {
    && YearsGrouped(events, grouped, years, yearOf)
    && (forall y :: y in grouped ==> y in months && YearGrouped(events, y, grouped[y], months[y], yearOf, monthOf))
  }

  /** groupEventsByDate: every event is pushed onto the list of its (year, month). */
  method GroupEventsByDate(events: seq<AIEvent>, yearOf: string -> int, monthOf: string -> string)
    returns (grouped: Grouping, years: seq<int>, months: map<int, seq<string>>)
    ensures Grouped(events, grouped, years, months, yearOf, monthOf)
  {
    grouped, years, months := map[], [], map[];
    ghost var seen: seq<AIEvent> := [];
    var i := 0;
    while i < |events|
      invariant 0 <= i <= |events|
      invariant seen == events[..i]
      invariant Grouped(seen, grouped, years, months, yearOf, monthOf)
    {
      grouped, years, months := AddToGroup(grouped, years, months, events[i], seen, yearOf, monthOf);
      seen := seen + [events[i]];
      i := i + 1;
    }
    assert events[..i] == events;
  }

  /** The forEach callback: takes the year's map, or a new one; takes the month's
      list, or a new one; appends the event and stores both back. */
  method AddToGroup(grouped: Grouping, years: seq<int>, months: map<int, seq<string>>,
                    event: AIEvent, ghost seen: seq<AIEvent>, yearOf: string -> int, monthOf: string -> string)
    returns (grouped': Grouping, years': seq<int>, months': map<int, seq<string>>)
    requires Grouped(seen, grouped, years, months, yearOf, monthOf)
    ensures Grouped(seen + [event], grouped', years', months', yearOf, monthOf)
  {
    var year := yearOf(event.date);
    var month := monthOf(event.date);
    var yearMap := if year in grouped then grouped[year] else map[];
    var order := if year in grouped then months[year] else [];
    years' := if year in grouped then years else years + [year];
    ghost var before, oldOrder := yearMap, order;
    if month !in yearMap {
      yearMap := yearMap[month := []];
      order := order + [month];
    }
    ghost var withMonth := yearMap;
    yearMap := yearMap[month := yearMap[month] + [event]];
    grouped' := grouped[year := yearMap];
    months' := months[year := order];
    GroupStep(seen, event, grouped, years, months, before, oldOrder, withMonth, yearOf, monthOf);
  }

  /** The callback's new maps and orders are those of the events with one more. */
  lemma GroupStep(seen: seq<AIEvent>, e: AIEvent, grouped: Grouping, years: seq<int>, months: map<int, seq<string>>,
                  before: map<string, seq<AIEvent>>, oldOrder: seq<string>, withMonth: map<string, seq<AIEvent>>,
                  yearOf: string -> int, monthOf: string -> string)
    requires Grouped(seen, grouped, years, months, yearOf, monthOf)
    requires var y := yearOf(e.date);
      && before == (if y in grouped then grouped[y] else map[])
      && oldOrder == (if y in grouped then months[y] else [])
    requires var m := monthOf(e.date);
      withMonth == if m in before then before else before[m := []]
    ensures var y, m := yearOf(e.date), monthOf(e.date);
      Grouped(seen + [e], grouped[y := withMonth[m := withMonth[m] + [e]]], if y in grouped then years else years + [y],
              months[y := if m in before then oldOrder else oldOrder + [m]], yearOf, monthOf)
  {
    var y, m := yearOf(e.date), monthOf(e.date);
    var yearMap := withMonth[m := withMonth[m] + [e]];
    var order := if m in before then oldOrder else oldOrder + [m];
    var grouped', years', months' := grouped[y := yearMap], if y in grouped then years else years + [y], months[y := order];
    YearsSnoc(seen, e, yearOf);
    assert YearsGrouped(seen + [e], grouped', years', yearOf);
    if y !in grouped {
      EmptyYear(seen, y, yearOf, monthOf);
    }
    ThisYear(seen, e, before, oldOrder, withMonth, yearOf, monthOf);
    forall y2 | y2 in grouped'
      ensures y2 in months' && YearGrouped(seen + [e], y2, grouped'[y2], months'[y2], yearOf, monthOf)
    {
      if y2 != y {
        OtherYear(seen, e, y2, grouped[y2], months[y2], yearOf, monthOf);
      }
    }
  }

  /** One more event: the years' order gains its year when new. */
  lemma YearsSnoc(seen: seq<AIEvent>, e: AIEvent, yearOf: string -> int)
    ensures YearsOf(seen + [e], yearOf)
      == if yearOf(e.date) in YearsOf(seen, yearOf) then YearsOf(seen, yearOf) else YearsOf(seen, yearOf) + [yearOf(e.date)]
  {
    assert (seen + [e])[..|seen|] == seen;
  }

  /** One more event: its year's month order gains its month when new; other years' stay. */
  lemma MonthsSnoc(seen: seq<AIEvent>, e: AIEvent, y: int, yearOf: string -> int, monthOf: string -> string)
    ensures MonthsOf(seen + [e], y, yearOf, monthOf)
      == if y == yearOf(e.date) && monthOf(e.date) !in MonthsOf(seen, y, yearOf, monthOf)
         then MonthsOf(seen, y, yearOf, monthOf) + [monthOf(e.date)]
         else MonthsOf(seen, y, yearOf, monthOf)
  {
    assert (seen + [e])[..|seen|] == seen;
  }

  lemma BucketSnoc(events: seq<AIEvent>, e: AIEvent, y: int, m: string, yearOf: string -> int, monthOf: string -> string)
    ensures Bucket(events + [e], y, m, yearOf, monthOf)
      == Bucket(events, y, m, yearOf, monthOf) + (if yearOf(e.date) == y && monthOf(e.date) == m then [e] else [])
  {
    assert (events + [e])[..|events|] == events;
  }

  /** Another year's map is still right after the event. */
  lemma OtherYear(seen: seq<AIEvent>, e: AIEvent, y: int, yearMap: map<string, seq<AIEvent>>, order: seq<string>,
                  yearOf: string -> int, monthOf: string -> string)
    requires y != yearOf(e.date)
    requires YearGrouped(seen, y, yearMap, order, yearOf, monthOf)
    ensures YearGrouped(seen + [e], y, yearMap, order, yearOf, monthOf)
  {
    MonthsSnoc(seen, e, y, yearOf, monthOf);
    forall m | m in yearMap ensures yearMap[m] == Bucket(seen + [e], y, m, yearOf, monthOf) {
      BucketSnoc(seen, e, y, m, yearOf, monthOf);
    }
  }

  /** The event's own year: its month joins the order when new, and its list gains it. */
  lemma ThisYear(seen: seq<AIEvent>, e: AIEvent, before: map<string, seq<AIEvent>>, oldOrder: seq<string>,
                 withMonth: map<string, seq<AIEvent>>, yearOf: string -> int, monthOf: string -> string)
    requires YearGrouped(seen, yearOf(e.date), before, oldOrder, yearOf, monthOf)
    requires var m := monthOf(e.date);
      withMonth == if m in before then before else before[m := []]
    ensures var m := monthOf(e.date);
      YearGrouped(seen + [e], yearOf(e.date), withMonth[m := withMonth[m] + [e]],
                  if m in before then oldOrder else oldOrder + [m], yearOf, monthOf)
  {
    var y, m := yearOf(e.date), monthOf(e.date);
    var yearMap := withMonth[m := withMonth[m] + [e]];
    MonthsSnoc(seen, e, y, yearOf, monthOf);
    if m !in before {
      NoMonthNoBucket(seen, y, m, yearOf, monthOf);
    }
    forall m2 | m2 in yearMap ensures yearMap[m2] == Bucket(seen + [e], y, m2, yearOf, monthOf) {
      BucketSnoc(seen, e, y, m2, yearOf, monthOf);
    }
  }

  /** A year not seen yet is rightly an empty map with no months. */
  lemma {:induction false} EmptyYear(events: seq<AIEvent>, y: int, yearOf: string -> int, monthOf: string -> string)
    requires y !in YearsOf(events, yearOf)
    ensures YearGrouped(events, y, map[], [], yearOf, monthOf)
    decreases |events|
  {
    if events != [] {
      EmptyYear(events[..|events| - 1], y, yearOf, monthOf);
    }
  }

  /** A month absent from a year's order has an empty bucket. */
  lemma {:induction false} NoMonthNoBucket(events: seq<AIEvent>, y: int, m: string, yearOf: string -> int, monthOf: string -> string)
    requires m !in MonthsOf(events, y, yearOf, monthOf)
    ensures Bucket(events, y, m, yearOf, monthOf) == []
    decreases |events|
  {
    if events != [] {
      NoMonthNoBucket(events[..|events| - 1], y, m, yearOf, monthOf);
    }
  }

  // ---------------------------------------------------------------------------
  // What the grouping states

  /** The events of one (year, month), as a filter. */
  function InSlot(year: int, month: string, yearOf: string -> int, monthOf: string -> string): AIEvent -> bool {
    (e: AIEvent) => yearOf(e.date) == year && monthOf(e.date) == month
  }

  /** A bucket is the events filtered by their (year, month), in input order. */
  lemma {:induction false} BucketIsFilter(events: seq<AIEvent>, y: int, m: string, yearOf: string -> int, monthOf: string -> string)
    ensures Bucket(events, y, m, yearOf, monthOf) == Filter(events, InSlot(y, m, yearOf, monthOf))
    decreases |events|
  {
    if events != [] {
      var init, e := events[..|events| - 1], events[|events| - 1];
      BucketIsFilter(init, y, m, yearOf, monthOf);
      assert events == init + [e];
      FilterSnoc(init, e, InSlot(y, m, yearOf, monthOf));
    }
  }

  /** The year of each event, in order. */
  function YearList(events: seq<AIEvent>, yearOf: string -> int): seq<int> {
    if events == [] then [] else YearList(events[..|events| - 1], yearOf) + [yearOf(events[|events| - 1].date)]
  }

  /** The month of each event of the given year, in order. */
  function MonthList(events: seq<AIEvent>, year: int, yearOf: string -> int, monthOf: string -> string): seq<string> {
    if events == [] then []
    else
      var e := events[|events| - 1];
      MonthList(events[..|events| - 1], year, yearOf, monthOf) + (if yearOf(e.date) == year then [monthOf(e.date)] else [])
  }

  /** The year order is the events' years without repeats, each at its first position. */
  lemma {:induction false} YearsOfIsDedup(events: seq<AIEvent>, yearOf: string -> int)
    ensures YearsOf(events, yearOf) == Dedup(YearList(events, yearOf))
    decreases |events|
  {
    if events != [] {
      var init := events[..|events| - 1];
      YearsOfIsDedup(init, yearOf);
      DedupSnoc(YearList(init, yearOf), yearOf(events[|events| - 1].date));
    }
  }

  /** A year's month order is its events' months without repeats, each at its first
      position. */
  lemma {:induction false} MonthsOfIsDedup(events: seq<AIEvent>, y: int, yearOf: string -> int, monthOf: string -> string)
    ensures MonthsOf(events, y, yearOf, monthOf) == Dedup(MonthList(events, y, yearOf, monthOf))
    decreases |events|
  {
    if events != [] {
      var init, e := events[..|events| - 1], events[|events| - 1];
      MonthsOfIsDedup(init, y, yearOf, monthOf);
      if yearOf(e.date) == y {
        DedupSnoc(MonthList(init, y, yearOf, monthOf), monthOf(e.date));
      } else {
        assert MonthList(events, y, yearOf, monthOf) == MonthList(init, y, yearOf, monthOf);
      }
    }
  }

  /** Each event lies in the bucket of its own (year, month) and in no other. */
  lemma EachEventInOneBucket(events: seq<AIEvent>, i: int, y: int, m: string, yearOf: string -> int, monthOf: string -> string)
    requires 0 <= i < |events|
    ensures events[i] in Bucket(events, yearOf(events[i].date), monthOf(events[i].date), yearOf, monthOf)
    ensures (y, m) != (yearOf(events[i].date), monthOf(events[i].date)) ==> events[i] !in Bucket(events, y, m, yearOf, monthOf)
  {
    BucketIsFilter(events, yearOf(events[i].date), monthOf(events[i].date), yearOf, monthOf);
    BucketIsFilter(events, y, m, yearOf, monthOf);
    var p := InSlot(yearOf(events[i].date), monthOf(events[i].date), yearOf, monthOf);
    assert p(events[i]);
  }

  /** A bucket keeps the events' input order. */
  lemma BucketKeepsOrder(events: seq<AIEvent>, y: int, m: string, yearOf: string -> int, monthOf: string -> string)
    ensures Subsequence(Bucket(events, y, m, yearOf, monthOf), events)
  {
    BucketIsFilter(events, y, m, yearOf, monthOf);
  }

  /** The shown orders list each year, and each month of a year, exactly once. */
  lemma OrdersExact(events: seq<AIEvent>, y: int, yearOf: string -> int, monthOf: string -> string)
    ensures forall i, j :: 0 <= i < j < |YearsOf(events, yearOf)| ==> YearsOf(events, yearOf)[i] != YearsOf(events, yearOf)[j]
    ensures forall x :: x in YearsOf(events, yearOf) <==> exists e :: e in events && yearOf(e.date) == x
    ensures forall i, j :: 0 <= i < j < |MonthsOf(events, y, yearOf, monthOf)| ==>
      MonthsOf(events, y, yearOf, monthOf)[i] != MonthsOf(events, y, yearOf, monthOf)[j]
  {
    YearsOfIsDedup(events, yearOf);
    MonthsOfIsDedup(events, y, yearOf, monthOf);
    forall x ensures x in YearsOf(events, yearOf) <==> exists e :: e in events && yearOf(e.date) == x {
      YearListMembers(events, yearOf, x);
    }
  }

  /** The (year, month) pairs in order of first appearance. */
  function SlotList(events: seq<AIEvent>, yearOf: string -> int, monthOf: string -> string): seq<(int, string)> {
    if events == [] then []
    else
      var e := events[|events| - 1];
      SlotList(events[..|events| - 1], yearOf, monthOf) + [(yearOf(e.date), monthOf(e.date))]
  }

  /** The total size of the buckets of the listed slots. */
  function TotalSize(events: seq<AIEvent>, slots: seq<(int, string)>, yearOf: string -> int, monthOf: string -> string): nat {
    if slots == [] then 0
    else |Bucket(events, slots[0].0, slots[0].1, yearOf, monthOf)| + TotalSize(events, slots[1..], yearOf, monthOf)
  }

  /** The bucket sizes sum to the number of events. */
  lemma BucketSizesSum(events: seq<AIEvent>, yearOf: string -> int, monthOf: string -> string)
    ensures TotalSize(events, Dedup(SlotList(events, yearOf, monthOf)), yearOf, monthOf) == |events|
  {
    var slots := Dedup(SlotList(events, yearOf, monthOf));
    forall k | 0 <= k < |events|
      ensures (yearOf(events[k].date), monthOf(events[k].date)) in slots
    {
      SlotListHas(events, k, yearOf, monthOf);
    }
    TotalOverDistinct(events, slots, yearOf, monthOf);
  }

  lemma {:induction false} SlotListHas(events: seq<AIEvent>, k: int, yearOf: string -> int, monthOf: string -> string)
    requires 0 <= k < |events|
    ensures (yearOf(events[k].date), monthOf(events[k].date)) in SlotList(events, yearOf, monthOf)
    decreases |events|
  {
    if k < |events| - 1 {
      var init := events[..|events| - 1];
      SlotListHas(init, k, yearOf, monthOf);
      assert init[k] == events[k];
    }
  }

  /** Summing over distinct slots that cover every event counts each event once. */
  lemma {:induction false} TotalOverDistinct(events: seq<AIEvent>, slots: seq<(int, string)>, yearOf: string -> int, monthOf: string -> string)
    requires forall i, j :: 0 <= i < j < |slots| ==> slots[i] != slots[j]
    requires forall k :: 0 <= k < |events| ==> (yearOf(events[k].date), monthOf(events[k].date)) in slots
    ensures TotalSize(events, slots, yearOf, monthOf) == |events|
    decreases |events|
  {
    if events == [] {
      EmptyTotal(slots, yearOf, monthOf);
    } else {
      var init := events[..|events| - 1];
      var e := events[|events| - 1];
      assert events == init + [e];
      TotalOverDistinct(init, slots, yearOf, monthOf);
      TotalSnoc(init, e, slots, yearOf, monthOf);
      OccursOnce(slots, (yearOf(e.date), monthOf(e.date)));
    }
  }

  lemma {:induction false} EmptyTotal(slots: seq<(int, string)>, yearOf: string -> int, monthOf: string -> string)
    ensures TotalSize([], slots, yearOf, monthOf) == 0
    decreases |slots|
  {
    if slots != [] {
      EmptyTotal(slots[1..], yearOf, monthOf);
    }
  }

  /** How often x occurs in s. */
  function Occurrences<T(==)>(s: seq<T>, x: T): nat {
    if s == [] then 0 else (if s[0] == x then 1 else 0) + Occurrences(s[1..], x)
  }

  lemma {:induction false} TotalSnoc(events: seq<AIEvent>, e: AIEvent, slots: seq<(int, string)>, yearOf: string -> int, monthOf: string -> string)
    ensures TotalSize(events + [e], slots, yearOf, monthOf)
      == TotalSize(events, slots, yearOf, monthOf) + Occurrences(slots, (yearOf(e.date), monthOf(e.date)))
    decreases |slots|
  {
    if slots != [] {
      TotalSnoc(events, e, slots[1..], yearOf, monthOf);
      BucketSnoc(events, e, slots[0].0, slots[0].1, yearOf, monthOf);
    }
  }

  lemma {:induction false} OccursOnce<T>(s: seq<T>, x: T)
    requires forall i, j :: 0 <= i < j < |s| ==> s[i] != s[j]
    requires x in s
    ensures Occurrences(s, x) == 1
    decreases |s|
  {
    if s[0] == x {
      NotOccurring(s[1..], x);
    } else {
      OccursOnce(s[1..], x);
    }
  }

  lemma {:induction false} NotOccurring<T>(s: seq<T>, x: T)
    requires x !in s
    ensures Occurrences(s, x) == 0
    decreases |s|
  {
    if s != [] {
      NotOccurring(s[1..], x);
    }
  }

  // ---------------------------------------------------------------------------
  // Years

  predicate Descending(s: seq<int>) {
    forall i, j :: 0 <= i < j < |s| ==> s[i] >= s[j]
  }

  function InsertDescending(s: seq<int>, y: int): (r: seq<int>)
    ensures multiset(r) == multiset(s) + multiset{y}
  {
    if s == [] then [y]
    else if s[0] >= y then
      assert s == [s[0]] + s[1..];
      [s[0]] + InsertDescending(s[1..], y)
    else [y] + s
  }

  lemma {:induction false} InsertKeepsDescending(s: seq<int>, y: int)
    requires Descending(s)
    ensures Descending(InsertDescending(s, y))
    decreases |s|
  {
    if s != [] && s[0] >= y {
      var rest := InsertDescending(s[1..], y);
      InsertKeepsDescending(s[1..], y);
      assert s == [s[0]] + s[1..];
      forall j | 0 <= j < |rest|
        ensures s[0] >= rest[j]
      {
        assert rest[j] in multiset(rest);
      }
    }
  }

  /** `keys.sort((a, b) => Number(b) - Number(a))`: the years, latest first. */
  function SortYears(years: seq<int>): (r: seq<int>)
    ensures multiset(r) == multiset(years)
    ensures Descending(r)
  {
    if years == [] then []
    else
      assert years == years[..|years| - 1] + [years[|years| - 1]];
      InsertKeepsDescending(SortYears(years[..|years| - 1]), years[|years| - 1]);
      InsertDescending(SortYears(years[..|years| - 1]), years[|years| - 1])
  }

  /** The years shown: those equal to the `year` parameter when it is given and
      non-empty, all of them otherwise. A year renders as its decimal digits. */
  function ShownYears(years: seq<int>, selected: Option<string>): (r: seq<int>)
    ensures !IsSet(selected) ==> r == years
    ensures IsSet(selected) ==> forall i :: 0 <= i < |r| ==> Text.Decimal(r[i]) == selected.value
    ensures IsSet(selected) ==> forall i :: 0 <= i < |years| && Text.Decimal(years[i]) == selected.value ==> years[i] in r
    ensures IsSet(selected) ==> Subsequence(r, years)
  {
    if IsSet(selected) then Filter(years, (y: int) => Text.Decimal(y) == selected.value) else years
  }

  /** What the page lists for one month and for one year. */
  datatype MonthSection = MonthSection(month: string, events: seq<AIEvent>)
  datatype YearSection = YearSection(year: int, months: seq<MonthSection>)

  /** What one year lists: its months in order of first appearance, each with its
      bucket. */
  function Section(events: seq<AIEvent>, y: int, yearOf: string -> int, monthOf: string -> string): YearSection {
    var months := MonthsOf(events, y, yearOf, monthOf);
    YearSection(y, seq(|months|, k requires 0 <= k < |months| => MonthSection(months[k], Bucket(events, y, months[k], yearOf, monthOf))))
  }

  /** The page body: the shown years, latest first, each with its months in order of
      first appearance and each month with its events in input order. */
  method ArchiveSections(events: seq<AIEvent>, selected: Option<string>, yearOf: string -> int, monthOf: string -> string)
    returns (sections: seq<YearSection>)
    ensures var shown := ShownYears(SortYears(YearsOf(events, yearOf)), selected);
      && |sections| == |shown|
      && forall i :: 0 <= i < |sections| ==> sections[i] == Section(events, shown[i], yearOf, monthOf)
  {
    var grouped, years, months := GroupEventsByDate(events, yearOf, monthOf);
    var shown := ShownYears(SortYears(years), selected);
    ShownAreKeys(years, selected, grouped);
    sections := seq(|shown|, i requires 0 <= i < |shown| => SectionOf(events, grouped, years, months, shown[i], yearOf, monthOf));
  }

  /** Every shown year is a key of the grouping: the page's `if (!yearData)` never fires. */
  lemma ShownAreKeys(years: seq<int>, selected: Option<string>, grouped: Grouping)
    requires forall y :: y in grouped <==> y in years
    ensures forall i :: 0 <= i < |ShownYears(SortYears(years), selected)| ==> ShownYears(SortYears(years), selected)[i] in grouped
  {
    var sorted := SortYears(years);
    var shown := ShownYears(sorted, selected);
    forall i | 0 <= i < |shown| ensures shown[i] in grouped {
      assert shown[i] in sorted;
      assert shown[i] in multiset(sorted);
    }
  }

  /** One year's section read off the nested maps, as the page renders it. */
  function SectionOf(ghost events: seq<AIEvent>, grouped: Grouping, ghost years: seq<int>, months: map<int, seq<string>>, y: int,
                     ghost yearOf: string -> int, ghost monthOf: string -> string): (r: YearSection)
    requires Grouped(events, grouped, years, months, yearOf, monthOf) && y in grouped
    ensures r == Section(events, y, yearOf, monthOf)
  {
    assert YearGrouped(events, y, grouped[y], months[y], yearOf, monthOf);
    var order := months[y];
    YearSection(y, seq(|order|, k requires 0 <= k < |order| => MonthSection(order[k], grouped[y][order[k]])))
  }

  /** A selected year shows that one year when it has events, and nothing when it
      has none or names no year at all. */
  lemma SelectedYearOnly(events: seq<AIEvent>, selected: Option<string>, yearOf: string -> int)
    requires IsSet(selected)
    ensures var years := SortYears(YearsOf(events, yearOf));
      forall y :: Text.Decimal(y) == selected.value ==> ShownYears(years, selected) == (if y in years then [y] else [])
    ensures var years := SortYears(YearsOf(events, yearOf));
      (forall y :: Text.Decimal(y) != selected.value) ==> ShownYears(years, selected) == []
  {
    YearsOfIsDedup(events, yearOf);
    SortedDistinct(YearsOf(events, yearOf));
    SelectFromDistinct(SortYears(YearsOf(events, yearOf)), selected);
  }

  lemma SelectFromDistinct(years: seq<int>, selected: Option<string>)
    requires IsSet(selected) && NoRepeats(years)
    ensures forall y :: Text.Decimal(y) == selected.value ==> ShownYears(years, selected) == (if y in years then [y] else [])
    ensures (forall y :: Text.Decimal(y) != selected.value) ==> ShownYears(years, selected) == []
  {
    var p := (x: int) => Text.Decimal(x) == selected.value;
    assert ShownYears(years, selected) == Filter(years, p);
    forall y | Text.Decimal(y) == selected.value
      ensures Filter(years, p) == (if y in years then [y] else [])
    {
      forall x ensures p(x) <==> x == y {
        if p(x) {
          Text.DecimalInjective(x, y);
        }
      }
      FilterSingle(years, p, y);
    }
    if forall y :: Text.Decimal(y) != selected.value {
      FilterNone(years, p);
    }
  }

  /** Sorting a list without repeats gives a list without repeats. */
  lemma {:induction false} SortedDistinct(years: seq<int>)
    requires NoRepeats(years)
    ensures NoRepeats(SortYears(years))
    decreases |years|
  {
    if years != [] {
      var init, last := years[..|years| - 1], years[|years| - 1];
      SortedDistinct(init);
      assert last !in multiset(SortYears(init));
      InsertDistinct(SortYears(init), last);
    }
  }

  lemma {:induction false} InsertDistinct(s: seq<int>, y: int)
    requires NoRepeats(s) && y !in s
    ensures NoRepeats(InsertDescending(s, y))
    decreases |s|
  {
    if s != [] && s[0] >= y {
      var rest := InsertDescending(s[1..], y);
      InsertDistinct(s[1..], y);
      assert s[0] !in multiset(rest) by {
        assert s == [s[0]] + s[1..];
      }
      assert s[0] !in rest;
    }
  }

  // ---------------------------------------------------------------------------
  // Filters and statistics

  /** `Object.values(filters).some(Boolean)` over city, category and search. */
  predicate HasFilters(city: Option<string>, category: Option<string>, search: Option<string>) {
    IsSet(city) || IsSet(category) || IsSet(search)
  }

  /** What the page hands to getPastEvents: the three filters, or none at all. */
  function ArchiveFilters(city: Option<string>, category: Option<string>, search: Option<string>): (r: EventFilters)
    ensures HasFilters(city, category, search) ==> r == NoFilters.(city := city, category := category, search := search)
    ensures !HasFilters(city, category, search) ==> r == NoFilters
  {
    if HasFilters(city, category, search) then NoFilters.(city := city, category := category, search := search) else NoFilters
  }

  /** Passing no filters instead of all-empty ones changes nothing: the query's
      clauses and the search are those of the three parameters either way. */
  lemma FiltersOnlyWhenSet(city: Option<string>, category: Option<string>, search: Option<string>)
    ensures var direct := NoFilters.(city := city, category := category, search := search);
      && OptionalConditions(ArchiveFilters(city, category, search), PastFields) == OptionalConditions(direct, PastFields)
      && IsSet(ArchiveFilters(city, category, search).search) == IsSet(search)
      && (IsSet(search) ==> ArchiveFilters(city, category, search).search == search)
  {
    var direct := NoFilters.(city := city, category := category, search := search);
    if !HasFilters(city, category, search) {
      forall k | 0 <= k < |PastFields|
        ensures IsSet(FieldValue(NoFilters, PastFields[k])) == IsSet(FieldValue(direct, PastFields[k]))
      {
      }
      NoClauseWhenUnset(NoFilters, PastFields);
      NoClauseWhenUnset(direct, PastFields);
    }
  }

  /** Fields that are all unset give no clause. */
  lemma {:induction false} NoClauseWhenUnset(filters: EventFilters, fields: seq<FilterField>)
    requires forall k :: 0 <= k < |fields| ==> !IsSet(FieldValue(filters, fields[k]))
    ensures OptionalConditions(filters, fields) == []
    decreases |fields|
  {
    if fields != [] {
      NoClauseWhenUnset(filters, fields[..|fields| - 1]);
    }
  }

  /** The four statistics of the page. */
  datatype Stats = Stats(pastEvents: nat, organisers: nat, cities: nat, years: nat)

  function Organizers(events: seq<AIEvent>): (r: seq<string>)
    ensures |r| == |events| && forall i :: 0 <= i < |events| ==> r[i] == events[i].organizer
  {
    seq(|events|, i requires 0 <= i < |events| => events[i].organizer)
  }

  function Cities(events: seq<AIEvent>): (r: seq<string>)
    ensures |r| == |events| && forall i :: 0 <= i < |events| ==> r[i] == events[i].city
  {
    seq(|events|, i requires 0 <= i < |events| => events[i].city)
  }

  /** The statistics: the number of events, of distinct organizers (untrimmed), of
      distinct cities, and of years. */
  function StatsOf(events: seq<AIEvent>, years: seq<int>): (r: Stats)
    ensures r.organisers == |set e | e in events :: e.organizer|
    ensures r.cities == |set e | e in events :: e.city|
    ensures r.pastEvents == |events| && r.years == |years|
    ensures r.organisers <= r.pastEvents && r.cities <= r.pastEvents
  {
    var organisers := Organizers(events);
    var cities := Cities(events);
    assert (set x | x in organisers) == (set e | e in events :: e.organizer);
    assert (set x | x in cities) == (set e | e in events :: e.city);
    Stats(|events|, DistinctCount(organisers), DistinctCount(cities), |years|)
  }

  /** The year count of the statistics is the number of distinct years of the events. */
  lemma YearCountIsDistinctYears(events: seq<AIEvent>, yearOf: string -> int)
    ensures |YearsOf(events, yearOf)| == |set e | e in events :: yearOf(e.date)|
  {
    var years := YearsOf(events, yearOf);
    YearsOfIsDedup(events, yearOf);
    DistinctSize(years);
    forall x ensures x in years <==> x in (set e | e in events :: yearOf(e.date)) {
      YearListMembers(events, yearOf, x);
    }
    assert (set x | x in years) == (set e | e in events :: yearOf(e.date));
  }

  lemma {:induction false} YearListMembers(events: seq<AIEvent>, yearOf: string -> int, x: int)
    ensures x in YearList(events, yearOf) <==> exists e :: e in events && yearOf(e.date) == x
    decreases |events|
  {
    if events != [] {
      var init := events[..|events| - 1];
      YearListMembers(init, yearOf, x);
      assert events == init + [events[|events| - 1]];
    }
  }
}
