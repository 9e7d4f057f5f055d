/** The organisers page (src/app/organisers/page.tsx): the per-organiser summary of
    the upcoming events, its ordering, and the logo colour, initials and city line
    shown for each organiser. Date parsing is the parameter `parse` (None for an
    invalid date, which compares false with everything). */
module Organisers {
  import opened Seqs
  import opened Text
  import opened Types

  // ---------------------------------------------------------------------------
  // Logo colour

  const LogoColors: seq<string> := [
    "bg-violet-500", "bg-blue-500", "bg-emerald-500", "bg-orange-500",
    "bg-rose-500", "bg-cyan-500", "bg-amber-500", "bg-indigo-500",
    "bg-pink-500", "bg-teal-500", "bg-red-500", "bg-lime-500"
  ]

  const TwoTo31: int := 0x8000_0000
  const TwoTo32: int := 0x1_0000_0000

  /** ToInt32 of ECMA-262 section 7.1.6 on an integer: the value congruent to x
      modulo 2^32 in [-2^31, 2^31). */
  function ToInt32(x: int): (r: int)
    ensures -TwoTo31 <= r < TwoTo31
    ensures (x - r) % TwoTo32 == 0
    ensures -TwoTo31 <= x < TwoTo31 ==> r == x
  {
    var m := x % TwoTo32;
    if m >= TwoTo31 then m - TwoTo32 else m
  }

  /** The UTF-16 encoding of one character (`charCodeAt` sees these units). */
  function CharUnits(c: char): (r: seq<int>)
    ensures c as int < 0x10000 ==> r == [c as int]
    ensures c as int >= 0x10000 ==>
      && |r| == 2
      && 0xD800 <= r[0] < 0xDC00 && 0xDC00 <= r[1] < 0xE000
      && (r[0] - 0xD800) * 0x400 + (r[1] - 0xDC00) + 0x10000 == c as int
  {
    var n := c as int;
    if n < 0x10000 then [n] else [0xD800 + (n - 0x10000) / 0x400, 0xDC00 + (n - 0x10000) % 0x400]
  }

  /** The UTF-16 code units of a string. */
  function CodeUnits(s: string): (r: seq<int>)
    ensures |s| <= |r| <= 2 * |s|
    ensures forall i :: 0 <= i < |r| ==> 0 <= r[i] < 0x10000
  {
    if s == [] then [] else CodeUnits(s[..|s| - 1]) + CharUnits(s[|s| - 1])
  }

  /** The hash after the code units `units`: each step is
      `unit + ((hash << 5) - hash)`, the shift being ToInt32(hash * 32). */
  function Hash(units: seq<int>): int {
    if units == [] then 0
    else
      var h := Hash(units[..|units| - 1]);
      units[|units| - 1] + (ToInt32(h * 32) - h)
  }

  function Abs(x: int): nat { if x < 0 then -x else x }

  /** getOrganiserColor: always one of the twelve palette entries, chosen by the hash. */
  method GetOrganiserColor(name: string) returns (color: string)
    ensures color == LogoColors[Abs(Hash(CodeUnits(name))) % |LogoColors|]
    ensures color in LogoColors
  {
    var units := CodeUnits(name);
    var hash := 0;
    var i := 0;
    while i < |units|
      invariant 0 <= i <= |units|
      invariant hash == Hash(units[..i])
    {
      HashStep(units, i);
      hash := units[i] + (ToInt32(hash * 32) - hash);
      i := i + 1;
    }
    assert units[..|units|] == units;
    color := LogoColors[Abs(hash) % |LogoColors|];
  }

  lemma HashStep(units: seq<int>, i: int)
    requires 0 <= i < |units|
    ensures Hash(units[..i + 1]) == units[i] + (ToInt32(Hash(units[..i]) * 32) - Hash(units[..i]))
  {
    assert units[..i + 1][..i] == units[..i];
  }

  /** Each step moves the hash by less than 2^31 + 2^16, so it stays within
      |units| * (2^31 + 2^16) of zero. */
  lemma {:induction false} HashBound(units: seq<int>)
    requires forall i :: 0 <= i < |units| ==> 0 <= units[i] < 0x10000
    ensures Abs(Hash(units)) <= |units| * (TwoTo31 + 0x10000)
    decreases |units|
  {
    if units != [] {
      HashBound(units[..|units| - 1]);
    }
  }

  /** For names under 2^21 code units every intermediate hash is below 2^53 in
      magnitude, so the floating-point arithmetic of the source is exact and the
      integer model computes the same colour. */
  lemma HashIsExact(units: seq<int>, k: nat)
    requires forall i :: 0 <= i < |units| ==> 0 <= units[i] < 0x10000
    requires |units| <= 0x20_0000 && k <= |units|
    ensures Abs(Hash(units[..k])) < 0x20_0000_0000_0000
  {
    HashBound(units[..k]);
    assert k * (TwoTo31 + 0x10000) <= 0x20_0000 * (TwoTo31 + 0x10000);
  }

  // ---------------------------------------------------------------------------
  // Initials

  /** The index of the first white-space character, or |s| when there is none. */
  function FirstWhitespace(s: string): (k: nat)
    ensures k <= |s|
    ensures k < |s| ==> IsWhitespace(s[k])
    ensures forall i :: 0 <= i < k ==> !IsWhitespace(s[i])
  {
    if s == [] || IsWhitespace(s[0]) then 0 else 1 + FirstWhitespace(s[1..])
  }

  /** `s.split(/\s+/)`: the pieces between maximal runs of white space. */
  function SplitWhitespace(s: string): (r: seq<string>)
    ensures |r| >= 1
    ensures forall i :: 0 <= i < |r| ==> !HasWhitespace(r[i])
    ensures |r| == 1 <==> !HasWhitespace(s)
    ensures r[0] == s[..FirstWhitespace(s)]
    decreases |s|
  {
    var k := FirstWhitespace(s);
    if k == |s| then
      assert s[..k] == s;
      [s]
    else
      var rest := TrimStart(s[k..]);
      [s[..k]] + SplitWhitespace(rest)
  }

  /** getInitials: the first two characters of a one-word name, else the first
      characters of its first two words; upper-cased. */
  function GetInitials(name: string): (r: string)
    ensures |r| <= 2
  {
    var words := SplitWhitespace(Trim(name));
    if |words| == 1 then Upper(Take(words[0], 2))
    else Upper(Take(words[0], 1) + Take(words[1], 1))
  }

  /** j is where the second word of t starts: i is the first white space and
      t[i..j] is the run of white space after the first word. */
  predicate SecondWordAt(t: string, i: int, j: int) {
    && 0 < i < j < |t|
    && (forall m :: 0 <= m < i ==> !IsWhitespace(t[m]))
    && (forall m :: i <= m < j ==> IsWhitespace(t[m]))
    && !IsWhitespace(t[j])
  }

  /** A one-word name shows its first two characters, upper-cased. */
  lemma InitialsOfOneWord(name: string)
    requires !HasWhitespace(Trim(name))
    ensures GetInitials(name) == Upper(Take(Trim(name), 2))
  {
    var t := Trim(name);
    assert FirstWhitespace(t) == |t|;
    assert t[..|t|] == t;
  }

  /** A longer name shows the first character of its first word and the first
      character of its second word, upper-cased. */
  lemma InitialsOfWords(name: string)
    requires HasWhitespace(Trim(name))
    ensures exists i, j :: SecondWordAt(Trim(name), i, j) && GetInitials(name) == [UpperChar(Trim(name)[0]), UpperChar(Trim(name)[j])]
  {
    var t := Trim(name);
    var i, j := SecondWord(t);
    var words := SplitWhitespace(t);
    FirstLetters(words[0], words[1]);
    assert GetInitials(name) == [UpperChar(t[0]), UpperChar(t[j])];
  }

  lemma FirstLetters(a: string, b: string)
    requires a != [] && b != []
    ensures Upper(Take(a, 1) + Take(b, 1)) == [UpperChar(a[0]), UpperChar(b[0])]
  {
    assert Take(a, 1) + Take(b, 1) == [a[0], b[0]];
  }

  /** In a trimmed string with white space, the second piece of the split starts
      after the first run of white space. */
  lemma SecondWord(t: string) returns (i: int, j: int)
    requires HasWhitespace(t) && !IsWhitespace(t[0]) && !IsWhitespace(t[|t| - 1])
    ensures SecondWordAt(t, i, j)
    ensures |SplitWhitespace(t)| >= 2
    ensures SplitWhitespace(t)[0] != [] && SplitWhitespace(t)[0][0] == t[0]
    ensures SplitWhitespace(t)[1] != [] && SplitWhitespace(t)[1][0] == t[j]
  {
    i := FirstWhitespace(t);
    var rest := TrimStart(t[i..]);
    j := |t| - |rest|;
    assert rest[0] == t[j];
    forall m | i <= m < j
      ensures IsWhitespace(t[m])
    {
      assert t[i..][m - i] == t[m];
    }
    assert FirstWhitespace(rest) > 0;
  }

  // ---------------------------------------------------------------------------
  // City line

  /** What the city line shows: at most four cities, whether a dot follows each,
      and the "+N more" label. */
  datatype CityLine = CityLine(shown: seq<string>, separatorAfter: seq<bool>, more: Option<string>)

  function Min(a: int, b: int): int { if a <= b then a else b }

  function CityLineOf(cities: seq<string>): (r: CityLine)
    ensures r.shown == cities[..Min(|cities|, 4)]
    // a dot separates consecutive shown cities and never follows the last one
    ensures |r.separatorAfter| == |r.shown|
    ensures forall i :: 0 <= i < |r.shown| ==> (r.separatorAfter[i] <==> i + 1 < |r.shown|)
    ensures r.more.Some? <==> |cities| > 4
    ensures r.more.Some? ==> r.more.value == "+" + Decimal(|cities| - 4) + " more"
  {
    var shown := Take(cities, 4);
    assert Min(|cities| - 1, 3) == |shown| - 1;
    CityLine(shown,
             seq(|shown|, i requires 0 <= i < |shown| => i < Min(|cities| - 1, 3)),
             if |cities| > 4 then Some("+" + Decimal(|cities| - 4) + " more") else None)
  }

  // ---------------------------------------------------------------------------
  // The per-organiser summary

  datatype Upcoming = Upcoming(name: string, date: string, slug: string)

  datatype OrganiserData = OrganiserData(name: string, eventCount: int, cities: seq<string>, upcomingEvent: Upcoming)

  /** What the page reads from one event: its trimmed organizer, its city and the
      link it would show. */
  datatype Visit = Visit(organiser: string, city: string, upcoming: Upcoming)

  function VisitOf(e: AIEvent): Visit {
    Visit(Trim(e.organizer), e.city, Upcoming(e.name, e.date, e.slug))
  }

  function Visits(events: seq<AIEvent>): (r: seq<Visit>)
    ensures |r| == |events|
    ensures forall i :: 0 <= i < |events| ==> r[i] == VisitOf(events[i])
  {
    seq(|events|, i requires 0 <= i < |events| => VisitOf(events[i]))
  }

  lemma VisitsAppendOne(s: seq<AIEvent>, x: AIEvent)
    ensures Visits(s + [x]) == Visits(s) + [VisitOf(x)]
  {
    var longer, shorter := Visits(s + [x]), Visits(s) + [VisitOf(x)];
    forall k | 0 <= k < |s| + 1
      ensures longer[k] == shorter[k]
    {
      if k < |s| {
        assert (s + [x])[k] == s[k];
      }
    }
  }

  lemma VisitsSnoc(events: seq<AIEvent>, i: int)
    requires 0 <= i < |events|
    ensures Visits(events[..i + 1]) == Visits(events[..i]) + [VisitOf(events[i])]
  {
    assert events[..i + 1] == events[..i] + [events[i]];
    VisitsAppendOne(events[..i], events[i]);
  }

  /** `new Date(a) < new Date(b)`: false when either date is invalid. */
  predicate Earlier(a: string, b: string, parse: string -> Option<int>) {
    parse(a).Some? && parse(b).Some? && parse(a).value < parse(b).value
  }

  /** The number of o's events. */
  function CountBy(vs: seq<Visit>, o: string): (n: nat)
    ensures n <= |vs|
    ensures n == 0 <==> forall i :: 0 <= i < |vs| ==> vs[i].organiser != o
  {
    if vs == [] then 0 else CountBy(vs[..|vs| - 1], o) + (if vs[|vs| - 1].organiser == o then 1 else 0)
  }

  /** The non-empty organisers of the events, in order, repeats included. */
  function Names(vs: seq<Visit>): seq<string> {
    if vs == [] then []
    else
      var o := vs[|vs| - 1].organiser;
      Names(vs[..|vs| - 1]) + (if o != "" then [o] else [])
  }

  /** The organisers, each once, in order of their first event. */
  function OrganiserNames(vs: seq<Visit>): seq<string> {
    Dedup(Names(vs))
  }

  /** The cities of o's events, in order, repeats included. */
  function CityList(vs: seq<Visit>, o: string): (r: seq<string>)
    ensures |r| == CountBy(vs, o)
  {
    if vs == [] then []
    else
      var v := vs[|vs| - 1];
      CityList(vs[..|vs| - 1], o) + (if v.organiser == o then [v.city] else [])
  }

  /** The event the page links as o's next one: the first of o's events, replaced
      by each later one whose date is strictly earlier. None when o has no event. */
  function EarliestBy(vs: seq<Visit>, o: string, parse: string -> Option<int>): (r: Option<Upcoming>)
    ensures r.Some? <==> CountBy(vs, o) > 0
  {
    if vs == [] then None
    else
      var prev := EarliestBy(vs[..|vs| - 1], o, parse);
      var v := vs[|vs| - 1];
      if v.organiser != o then prev
      else if prev.None? || Earlier(v.upcoming.date, prev.value.date, parse) then Some(v.upcoming)
      else prev
  }

  /** The summary of organiser o. */
  function Summary(vs: seq<Visit>, o: string, parse: string -> Option<int>): OrganiserData
    requires CountBy(vs, o) > 0
  {
    OrganiserData(o, CountBy(vs, o), Dedup(CityList(vs, o)), EarliestBy(vs, o, parse).value)
  }

  /** The organisers' summaries in order of first appearance. */
  function Summaries(vs: seq<Visit>, parse: string -> Option<int>): (r: seq<OrganiserData>)
    ensures |r| == |OrganiserNames(vs)|
  {
    var names := OrganiserNames(vs);
    seq(|names|, k requires 0 <= k < |names| =>
      NamedHasEvents(vs, names[k]);
      Summary(vs, names[k], parse))
  }

  /** One summary per organiser: every non-empty organiser with an event has exactly
      one entry, and each entry counts that organiser's events. */
  lemma SummariesContents(vs: seq<Visit>, parse: string -> Option<int>)
    ensures var r := Summaries(vs, parse);
      forall k :: 0 <= k < |r| ==> r[k].name != "" && r[k].eventCount == CountBy(vs, r[k].name) > 0
    ensures var r := Summaries(vs, parse);
      forall i, j :: 0 <= i < j < |r| ==> r[i].name != r[j].name
    ensures var r := Summaries(vs, parse);
      forall o :: o != "" && CountBy(vs, o) > 0 <==> exists k :: 0 <= k < |r| && r[k].name == o
  {
    var r := Summaries(vs, parse);
    var names := OrganiserNames(vs);
    forall o
      ensures o != "" && CountBy(vs, o) > 0 <==> exists k :: 0 <= k < |r| && r[k].name == o
    {
      NamesExact(vs, o);
      if o in names {
        var k :| 0 <= k < |names| && names[k] == o;
        assert r[k].name == o;
      }
    }
  }

  /** An organiser is listed exactly when it is non-empty and has an event. */
  lemma {:induction false} NamesExact(vs: seq<Visit>, o: string)
    ensures o in Names(vs) <==> o != "" && CountBy(vs, o) > 0
    decreases |vs|
  {
    if vs != [] {
      NamesExact(vs[..|vs| - 1], o);
    }
  }

  lemma NamedHasEvents(vs: seq<Visit>, o: string)
    requires o in OrganiserNames(vs)
    ensures o != "" && CountBy(vs, o) > 0
  {
    NamesExact(vs, o);
  }

  // ---------------------------------------------------------------------------
  // Ordering by event count

  predicate SortedByCount(s: seq<OrganiserData>) {
    forall i, j :: 0 <= i < j < |s| ==> s[i].eventCount >= s[j].eventCount
  }

  function HasCount(c: int): OrganiserData -> bool {
    (d: OrganiserData) => d.eventCount == c
  }

  /** x placed after every entry whose count is at least its own. */
  function InsertByCount(s: seq<OrganiserData>, x: OrganiserData): (r: seq<OrganiserData>)
    ensures multiset(r) == multiset(s) + multiset{x}
  {
    if s == [] then [x]
    else if s[0].eventCount >= x.eventCount then
      assert s == [s[0]] + s[1..];
      [s[0]] + InsertByCount(s[1..], x)
    else [x] + s
  }

  lemma {:induction false} InsertKeepsSorted(s: seq<OrganiserData>, x: OrganiserData)
    requires SortedByCount(s)
    ensures SortedByCount(InsertByCount(s, x))
    decreases |s|
  {
    if s != [] && s[0].eventCount >= x.eventCount {
      var tail := s[1..];
      var rest := InsertByCount(tail, x);
      InsertKeepsSorted(tail, x);
      forall j | 0 <= j < |rest|
        ensures s[0].eventCount >= rest[j].eventCount
      {
        assert rest[j] in multiset(rest);
        if rest[j] != x {
          assert rest[j] in multiset(tail);
          var k :| 0 <= k < |tail| && tail[k] == rest[j];
          assert s[k + 1] == rest[j];
        }
      }
      assert InsertByCount(s, x) == [s[0]] + rest;
    }
  }

  /** `Array.prototype.sort` with `(a, b) => b.eventCount - a.eventCount`, which is
      stable: a stable sort by count, descending. */
  function SortByCount(s: seq<OrganiserData>): (r: seq<OrganiserData>)
    ensures multiset(r) == multiset(s)
    ensures SortedByCount(r)
  {
    if s == [] then []
    else
      assert s == s[..|s| - 1] + [s[|s| - 1]];
      InsertKeepsSorted(SortByCount(s[..|s| - 1]), s[|s| - 1]);
      InsertByCount(SortByCount(s[..|s| - 1]), s[|s| - 1])
  }

  lemma {:induction false} InsertKeepsTies(s: seq<OrganiserData>, x: OrganiserData, c: int)
    requires SortedByCount(s)
    ensures Filter(InsertByCount(s, x), HasCount(c)) == Filter(s, HasCount(c)) + (if x.eventCount == c then [x] else [])
    decreases |s|
  {
    if s == [] {
      FilterPrepend(x, [], HasCount(c));
    } else if s[0].eventCount >= x.eventCount {
      InsertKeepsTies(s[1..], x, c);
      TiesAfterHead(s, x, c);
    } else {
      TiesBeforeAll(s, x, c);
    }
  }

  /** x goes after s's head: the head is kept in front of the rest's filter. */
  lemma TiesAfterHead(s: seq<OrganiserData>, x: OrganiserData, c: int)
    requires s != [] && s[0].eventCount >= x.eventCount
    requires Filter(InsertByCount(s[1..], x), HasCount(c)) == Filter(s[1..], HasCount(c)) + (if x.eventCount == c then [x] else [])
    ensures Filter(InsertByCount(s, x), HasCount(c)) == Filter(s, HasCount(c)) + (if x.eventCount == c then [x] else [])
  {
    var p, rest := HasCount(c), InsertByCount(s[1..], x);
    var head, added := (if p(s[0]) then [s[0]] else []), (if x.eventCount == c then [x] else []);
    assert InsertByCount(s, x) == [s[0]] + rest;
    FilterPrepend(s[0], rest, p);
    FilterCons(s, p);
    ConcatAssoc(head, Filter(s[1..], p), added);
  }

  /** x goes before a sorted s whose counts are all smaller: no tie of x in s. */
  lemma TiesBeforeAll(s: seq<OrganiserData>, x: OrganiserData, c: int)
    requires SortedByCount(s) && s != [] && s[0].eventCount < x.eventCount
    ensures Filter(InsertByCount(s, x), HasCount(c)) == Filter(s, HasCount(c)) + (if x.eventCount == c then [x] else [])
  {
    FilterPrepend(x, s, HasCount(c));
    if x.eventCount == c {
      forall i | 0 <= i < |s| ensures s[i].eventCount != c {
        assert s[i].eventCount <= s[0].eventCount;
      }
      FilterNone(s, HasCount(c));
    }
  }

  lemma SortUnfold(s: seq<OrganiserData>)
    requires s != []
    ensures SortByCount(s) == InsertByCount(SortByCount(s[..|s| - 1]), s[|s| - 1])
    ensures SortedByCount(SortByCount(s[..|s| - 1]))
  {
  }

  /** Stability: the entries with any one count keep their relative order. */
  lemma {:induction false} SortKeepsTies(s: seq<OrganiserData>, c: int)
    ensures Filter(SortByCount(s), HasCount(c)) == Filter(s, HasCount(c))
    decreases |s|
  {
    if s != [] {
      var init, x, p := s[..|s| - 1], s[|s| - 1], HasCount(c);
      var sorted := SortByCount(init);
      var added := if x.eventCount == c then [x] else [];
      SortUnfold(s);
      SortKeepsTies(init, c);
      InsertKeepsTies(sorted, x, c);
      FilterLast(s, p);
    }
  }

  // ---------------------------------------------------------------------------
  // The aggregation

  /** The map and its insertion order hold, for the events seen so far, exactly
      one summary per organiser. */
  ghost predicate Summarised(vs: seq<Visit>, table: map<string, OrganiserData>, order: seq<string>,
                             parse: string -> Option<int>) {
    && order == OrganiserNames(vs)
    && (forall o :: o in table <==> o in order)
    && (forall o :: o in table ==> o != "" && CountBy(vs, o) > 0 && table[o] == Summary(vs, o, parse))
  }

  /** The page's forEach callback: folds one event into the organiser map. */
  method AddEvent(table: map<string, OrganiserData>, order: seq<string>, event: AIEvent,
                  ghost vs: seq<Visit>, parse: string -> Option<int>)
    returns (table': map<string, OrganiserData>, order': seq<string>)
    requires Summarised(vs, table, order, parse)
    ensures Summarised(vs + [VisitOf(event)], table', order', parse)
  {
    var organiser := Trim(event.organizer);
    ghost var v := VisitOf(event);
    assert v.organiser == organiser && v.city == event.city;
    assert v.upcoming == Upcoming(event.name, event.date, event.slug);
    table', order' := table, order;
    if organiser == "" {
      NoOrganiser(vs, v, table, order, parse);
      return;
    }
    if organiser in table {
      var existing := table[organiser];
      var cities := existing.cities;
      if event.city !in cities {
        cities := cities + [event.city];
      }
      var upcoming := existing.upcomingEvent;
      if Earlier(event.date, upcoming.date, parse) {
        upcoming := Upcoming(event.name, event.date, event.slug);
      }
      var entry := existing.(eventCount := existing.eventCount + 1, cities := cities, upcomingEvent := upcoming);
      KnownOrganiser(vs, v, table, order, parse, entry);
      table' := table[organiser := entry];
    } else {
      table' := table[organiser := OrganiserData(organiser, 1, [event.city], Upcoming(event.name, event.date, event.slug))];
      order' := order + [organiser];
      NewOrganiser(vs, v, table, order, parse);
    }
  }

  /** An event without organizer changes nothing. */
  lemma NoOrganiser(vs: seq<Visit>, v: Visit, table: map<string, OrganiserData>, order: seq<string>,
                    parse: string -> Option<int>)
    requires Summarised(vs, table, order, parse) && v.organiser == ""
    ensures Summarised(vs + [v], table, order, parse)
  {
    OrderSnoc(vs, v);
    OthersUnchanged(vs, v, table, order, parse);
    assert forall o :: o in table ==> o != "" && CountBy(vs + [v], o) > 0 && Summary(vs + [v], o, parse) == table[o];
  }

  /** A further event of a listed organiser updates its entry in place. */
  lemma KnownOrganiser(vs: seq<Visit>, v: Visit, table: map<string, OrganiserData>, order: seq<string>,
                       parse: string -> Option<int>, entry: OrganiserData)
    requires Summarised(vs, table, order, parse) && v.organiser != "" && v.organiser in table
    requires var d := table[v.organiser];
      entry == d.(eventCount := d.eventCount + 1,
                  cities := if v.city in d.cities then d.cities else d.cities + [v.city],
                  upcomingEvent := if Earlier(v.upcoming.date, d.upcomingEvent.date, parse) then v.upcoming else d.upcomingEvent)
    ensures Summarised(vs + [v], table[v.organiser := entry], order, parse)
  {
    var o := v.organiser;
    NamesExact(vs, o);
    OrderSnoc(vs, v);
    SameOrganiser(vs, v, parse);
    assert forall p :: p in table[o := entry] <==> p in order;
    UpdateEntry(vs, v, table, order, order, parse, entry);
  }

  /** The first event of an organiser appends it to the map. */
  lemma NewOrganiser(vs: seq<Visit>, v: Visit, table: map<string, OrganiserData>, order: seq<string>,
                     parse: string -> Option<int>)
    requires Summarised(vs, table, order, parse) && v.organiser != "" && v.organiser !in table
    ensures Summarised(vs + [v], table[v.organiser := OrganiserData(v.organiser, 1, [v.city], v.upcoming)],
                       order + [v.organiser], parse)
  {
    var o := v.organiser;
    assert o !in Names(vs) by {
      assert o !in order;
    }
    NamesExact(vs, o);
    OrderSnoc(vs, v);
    assert OrganiserNames(vs + [v]) == order + [o];
    FirstOfOrganiser(vs, v, parse);
    var entry := OrganiserData(o, 1, [v.city], v.upcoming);
    KeysGrow(table, order, o, entry);
    UpdateEntry(vs, v, table, order, order + [o], parse, entry);
  }

  /** A key stored anew joins the end of the insertion order. */
  lemma KeysGrow(table: map<string, OrganiserData>, order: seq<string>, o: string, entry: OrganiserData)
    requires forall p :: p in table <==> p in order
    ensures forall p :: p in table[o := entry] <==> p in order + [o]
  {
    forall p ensures p in table[o := entry] <==> p in order + [o] {
      assert p in order + [o] <==> p in order || p == o;
    }
  }

  /** Setting the new event's organiser to its new summary, with the new insertion
      order, summarises the events with one more. */
  lemma UpdateEntry(vs: seq<Visit>, v: Visit, table: map<string, OrganiserData>, order: seq<string>,
                    order': seq<string>, parse: string -> Option<int>, entry: OrganiserData)
    requires Summarised(vs, table, order, parse)
    requires v.organiser != "" && CountBy(vs + [v], v.organiser) > 0 && Summary(vs + [v], v.organiser, parse) == entry
    requires order' == OrganiserNames(vs + [v])
    requires forall p :: p in table[v.organiser := entry] <==> p in order'
    ensures Summarised(vs + [v], table[v.organiser := entry], order', parse)
  {
    var o, table' := v.organiser, table[v.organiser := entry];
    forall p | p in table'
      ensures p != "" && CountBy(vs + [v], p) > 0 && Summary(vs + [v], p, parse) == table'[p]
    {
      if p != o {
        OtherUnchanged(vs, v, p, parse);
      }
    }
    assert Summarised(vs + [v], table', order', parse);
  }

  lemma OthersUnchanged(vs: seq<Visit>, v: Visit, table: map<string, OrganiserData>, order: seq<string>,
                        parse: string -> Option<int>)
    requires Summarised(vs, table, order, parse)
    ensures forall o :: o in table && o != v.organiser ==>
      CountBy(vs + [v], o) > 0 && Summary(vs + [v], o, parse) == table[o]
  {
    forall o | o in table && o != v.organiser
      ensures CountBy(vs + [v], o) > 0 && Summary(vs + [v], o, parse) == table[o]
    {
      OtherUnchanged(vs, v, o, parse);
    }
  }

  /** The organiserMap fold of the page followed by the sort: one summary per
      organiser, ordered by event count, descending, ties in order of first event. */
  method AggregateOrganisers(events: seq<AIEvent>, parse: string -> Option<int>) returns (organisers: seq<OrganiserData>)
    ensures organisers == SortByCount(Summaries(Visits(events), parse))
  {
    var table: map<string, OrganiserData> := map[];
    var order: seq<string> := [];
    ghost var seen: seq<Visit> := [];
    var i := 0;
    while i < |events|
      invariant 0 <= i <= |events|
      invariant seen == Visits(events[..i])
      invariant Summarised(seen, table, order, parse)
    {
      VisitsSnoc(events, i);
      table, order := AddEvent(table, order, events[i], seen, parse);
      seen := seen + [VisitOf(events[i])];
      i := i + 1;
    }
    assert events[..i] == events;
    ValuesInOrder(seen, table, order, parse);
    var values := MapValues(table, order);
    organisers := SortByCount(values);
  }

  /** `Array.from(map.values())`: the entries in insertion order. */
  function MapValues(table: map<string, OrganiserData>, order: seq<string>): (r: seq<OrganiserData>)
    requires forall o :: o in order ==> o in table
    ensures |r| == |order|
    ensures forall k :: 0 <= k < |order| ==> r[k] == table[order[k]]
  {
    seq(|order|, k requires 0 <= k < |order| => table[order[k]])
  }

  lemma ValuesInOrder(vs: seq<Visit>, table: map<string, OrganiserData>, order: seq<string>,
                      parse: string -> Option<int>)
    requires Summarised(vs, table, order, parse)
    ensures forall o :: o in order ==> o in table
    ensures MapValues(table, order) == Summaries(vs, parse)
  {
  }

  /** The insertion order after one more event: its organiser joins at the end
      when non-empty and new. */
  lemma OrderSnoc(vs: seq<Visit>, v: Visit)
    ensures OrganiserNames(vs + [v])
      == if v.organiser == "" || v.organiser in Names(vs) then OrganiserNames(vs) else OrganiserNames(vs) + [v.organiser]
  {
    NamesSnoc(vs, v);
    if v.organiser != "" {
      DedupSnoc(Names(vs), v.organiser);
    } else {
      assert Names(vs + [v]) == Names(vs);
    }
  }

  lemma NamesSnoc(vs: seq<Visit>, v: Visit)
    ensures Names(vs + [v]) == Names(vs) + (if v.organiser != "" then [v.organiser] else [])
  {
    assert (vs + [v])[..|vs|] == vs;
  }

  /** An event of another organiser leaves o's summary as it was. */
  lemma OtherUnchanged(vs: seq<Visit>, v: Visit, o: string, parse: string -> Option<int>)
    requires o != v.organiser && CountBy(vs, o) > 0
    ensures CountBy(vs + [v], o) == CountBy(vs, o)
    ensures Summary(vs + [v], o, parse) == Summary(vs, o, parse)
  {
    assert (vs + [v])[..|vs|] == vs;
    assert CityList(vs + [v], o) == CityList(vs, o);
    assert EarliestBy(vs + [v], o, parse) == EarliestBy(vs, o, parse);
  }

  /** A further event of a listed organiser: one more event, its city added when
      new, and the linked event replaced when the new date is strictly earlier. */
  lemma SameOrganiser(vs: seq<Visit>, v: Visit, parse: string -> Option<int>)
    requires CountBy(vs, v.organiser) > 0
    ensures CountBy(vs + [v], v.organiser) == CountBy(vs, v.organiser) + 1
    ensures var d := Summary(vs, v.organiser, parse);
      Summary(vs + [v], v.organiser, parse)
        == d.(eventCount := d.eventCount + 1,
              cities := if v.city in d.cities then d.cities else d.cities + [v.city],
              upcomingEvent := if Earlier(v.upcoming.date, d.upcomingEvent.date, parse) then v.upcoming else d.upcomingEvent)
  {
    var o := v.organiser;
    assert (vs + [v])[..|vs|] == vs;
    assert CityList(vs + [v], o) == CityList(vs, o) + [v.city];
    DedupSnoc(CityList(vs, o), v.city);
    var prev := EarliestBy(vs, o, parse);
    assert EarliestBy(vs + [v], o, parse)
      == if Earlier(v.upcoming.date, prev.value.date, parse) then Some(v.upcoming) else prev;
  }

  /** The first event of an organiser starts its summary. */
  lemma FirstOfOrganiser(vs: seq<Visit>, v: Visit, parse: string -> Option<int>)
    requires CountBy(vs, v.organiser) == 0
    ensures CountBy(vs + [v], v.organiser) == 1
    ensures Summary(vs + [v], v.organiser, parse) == OrganiserData(v.organiser, 1, [v.city], v.upcoming)
  {
    var o := v.organiser;
    assert (vs + [v])[..|vs|] == vs;
    assert CityList(vs, o) == [];
    assert CityList(vs + [v], o) == [] + [v.city];
    DedupSnoc([], v.city);
    assert EarliestBy(vs, o, parse) == None;
    assert EarliestBy(vs + [v], o, parse) == Some(v.upcoming);
  }

  // ---------------------------------------------------------------------------
  // What a summary states

  /** An organiser's cities are the cities of its events, each once. */
  lemma SummaryCities(vs: seq<Visit>, o: string, parse: string -> Option<int>)
    requires CountBy(vs, o) > 0
    ensures forall c :: c in Summary(vs, o, parse).cities <==> exists i :: 0 <= i < |vs| && vs[i].organiser == o && vs[i].city == c
    ensures forall i, j :: 0 <= i < j < |Summary(vs, o, parse).cities| ==>
      Summary(vs, o, parse).cities[i] != Summary(vs, o, parse).cities[j]
  {
    var list := CityList(vs, o);
    CityListContents(vs, o);
    forall c
      ensures c in Dedup(list) <==> c in list
    {
      if c in list {
        var i :| 0 <= i < |list| && list[i] == c;
        assert list[i] in Dedup(list);
      }
    }
  }

  lemma {:induction false} CityListContents(vs: seq<Visit>, o: string)
    ensures forall c :: c in CityList(vs, o) <==> exists i :: 0 <= i < |vs| && vs[i].organiser == o && vs[i].city == c
    decreases |vs|
  {
    if vs != [] {
      var init := vs[..|vs| - 1];
      CityListContents(init, o);
      forall c
        ensures c in CityList(vs, o) <==> exists i :: 0 <= i < |vs| && vs[i].organiser == o && vs[i].city == c
      {
        if c in CityList(init, o) {
          var i :| 0 <= i < |init| && init[i].organiser == o && init[i].city == c;
          assert vs[i] == init[i];
        }
        if exists i :: 0 <= i < |vs| && vs[i].organiser == o && vs[i].city == c {
          var i :| 0 <= i < |vs| && vs[i].organiser == o && vs[i].city == c;
          if i < |init| {
            assert init[i] == vs[i];
          }
        }
      }
    }
  }

  /** k is one of o's events, none of o's events is dated strictly earlier, and every
      earlier one of o's events is dated strictly later. */
  predicate FirstEarliestAt(vs: seq<Visit>, o: string, parse: string -> Option<int>, k: int) {
    && 0 <= k < |vs| && vs[k].organiser == o
    && (forall j :: 0 <= j < |vs| && vs[j].organiser == o ==> !Earlier(vs[j].upcoming.date, vs[k].upcoming.date, parse))
    && (forall j :: 0 <= j < k && vs[j].organiser == o ==> Earlier(vs[k].upcoming.date, vs[j].upcoming.date, parse))
  }

  /** When every event date is valid, the linked event is the first of the
      organiser's events with the smallest date. */
  lemma {:induction false} EarliestIsFirstMinimum(vs: seq<Visit>, o: string, parse: string -> Option<int>)
    requires forall i :: 0 <= i < |vs| ==> parse(vs[i].upcoming.date).Some?
    requires CountBy(vs, o) > 0
    ensures exists k :: FirstEarliestAt(vs, o, parse, k) && vs[k].upcoming == EarliestBy(vs, o, parse).value
    decreases |vs|
  {
    var init := vs[..|vs| - 1];
    var last := |vs| - 1;
    var v := vs[last];
    var prev := EarliestBy(init, o, parse);
    assert EarliestBy(vs, o, parse) == if v.organiser != o then prev
      else if prev.None? || Earlier(v.upcoming.date, prev.value.date, parse) then Some(v.upcoming)
      else prev;
    if prev.None? {
      OnlyLast(vs, o, parse);
    } else {
      assert forall i :: 0 <= i < |init| ==> init[i] == vs[i];
      EarliestIsFirstMinimum(init, o, parse);
      var k :| FirstEarliestAt(init, o, parse, k) && init[k].upcoming == prev.value;
      assert vs[k] == init[k];
      if v.organiser == o && Earlier(v.upcoming.date, prev.value.date, parse) {
        NewMinimum(vs, o, parse, k);
        assert FirstEarliestAt(vs, o, parse, last) && vs[last].upcoming == EarliestBy(vs, o, parse).value;
      } else {
        OldMinimum(vs, o, parse, k);
        assert FirstEarliestAt(vs, o, parse, k) && vs[k].upcoming == EarliestBy(vs, o, parse).value;
      }
    }
  }

  lemma OnlyLast(vs: seq<Visit>, o: string, parse: string -> Option<int>)
    requires vs != [] && CountBy(vs, o) > 0 && CountBy(vs[..|vs| - 1], o) == 0
    ensures FirstEarliestAt(vs, o, parse, |vs| - 1)
    ensures EarliestBy(vs, o, parse) == Some(vs[|vs| - 1].upcoming)
  {
    var init := vs[..|vs| - 1];
    forall j | 0 <= j < |vs| - 1
      ensures vs[j].organiser != o
    {
      assert vs[j] == init[j];
    }
  }

  lemma NewMinimum(vs: seq<Visit>, o: string, parse: string -> Option<int>, k: int)
    requires forall i :: 0 <= i < |vs| ==> parse(vs[i].upcoming.date).Some?
    requires vs != [] && FirstEarliestAt(vs[..|vs| - 1], o, parse, k)
    requires vs[|vs| - 1].organiser == o && Earlier(vs[|vs| - 1].upcoming.date, vs[k].upcoming.date, parse)
    ensures FirstEarliestAt(vs, o, parse, |vs| - 1)
  {
    var init := vs[..|vs| - 1];
    var last := |vs| - 1;
    assert vs[k] == init[k];
    forall j | 0 <= j < last && vs[j].organiser == o
      ensures Earlier(vs[last].upcoming.date, vs[j].upcoming.date, parse)
    {
      assert vs[j] == init[j];
      assert !Earlier(init[j].upcoming.date, init[k].upcoming.date, parse);
    }
  }

  lemma OldMinimum(vs: seq<Visit>, o: string, parse: string -> Option<int>, k: int)
    requires forall i :: 0 <= i < |vs| ==> parse(vs[i].upcoming.date).Some?
    requires vs != [] && FirstEarliestAt(vs[..|vs| - 1], o, parse, k)
    requires vs[|vs| - 1].organiser == o ==> !Earlier(vs[|vs| - 1].upcoming.date, vs[k].upcoming.date, parse)
    ensures FirstEarliestAt(vs, o, parse, k)
  {
    var init := vs[..|vs| - 1];
    assert vs[k] == init[k];
    forall j | 0 <= j < |vs| - 1
      ensures vs[j] == init[j]
    {
    }
  }
}
