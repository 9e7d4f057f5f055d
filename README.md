# AI events in Sweden: a verified model of the site's core

The site lists AI events in Sweden and publishes news articles. Both come from a
Notion-style content store. This Dafny project models the parts of the site that
decide what is stored, fetched, shown and accepted:

- **Reading the store** (`NotionPages`, `NotionEvents`, `NotionArticles`). Page
  properties are read into values. Events and articles are built with their
  fallbacks, and aggregator and spam domains are hidden. The query filters are
  assembled clause by clause, and events are searched on the client side. Slug
  lookups work by the dashless id, and a submission is written as a draft page.
- **Slugs** (`Slug`). The name is lower-cased, its runs outside `[a-z0-9]` become
  single dashes, dashes at either end are trimmed, and the last twelve characters
  of the dashless id are appended. A lookup extracts the last dash-separated
  segment. The round trip is proved.
- **The events API** (`EventsRoute`). GET turns query parameters into filters. POST
  checks the required fields and submits a valid body exactly once.
- **The rate limiter** (`RateLimit`). This is a fixed-window counter per
  identifier, held in a process-wide table, with a periodic sweep of old entries.
- **The pages**:
  - the home page's featured, recent and upcoming selections (`HomePage`);
  - the archive's grouping by year and month, its year filter and its statistics
    (`Archives`);
  - the organisers page's aggregation, stable sort, logo colour hash and initials
    (`Organisers`);
  - the two forms, their toggles and submit flows (`SubmitPage`, `RegisterPage`,
    `Toggles`);
  - the event card's labels (`EventCard`);
  - the sitemap (`Sitemap`).

Some things are parameters of the model:

- the store and the page-create call;
- whether the store is configured;
- the current time and today's date;
- date parsing, and the year and month of a date;
- the HTTP fetch of the submit form.

JavaScript semantics are written out where they matter:

- truthiness (`""`, `0`, `null` and missing are falsy);
- 32-bit `ToInt32` in the colour hash;
- UTF-16 code units for `charCodeAt`;
- the ECMAScript white-space set for `trim` and `\s`;
- insertion order of `Map`, kept as an explicit order sequence;
- the stability of `Array.prototype.sort`.

`POST /api/events` has no honeypot field, no submission-timing check, no
top-level-domain check, no 429 response and no rate-limit headers, and it never
calls `checkRateLimit`. The limiter is modelled on its own, as
`src/lib/rate-limit.ts` defines it.

Modules and files:

| file | module | source |
|---|---|---|
| `seqs.dfy` | `Seqs` | shared sequence helpers (filter, dedup, subsequence) |
| `text.dfy` | `Text` | `toLowerCase`, `toUpperCase`, `trim`, `replace`, `slice`, `String(n)` |
| `types.dfy` | `Types` | `src/lib/types.ts` |
| `slug.dfy` | `Slug` | `generateSlug` and the slug lookups' id part |
| `notion_pages.dfy` | `NotionPages` | page properties, values and queries |
| `notion_events.dfy` | `NotionEvents` | `src/lib/notion.ts` |
| `notion_articles.dfy` | `NotionArticles` | `src/lib/notion-articles.ts` |
| `events_route.dfy` | `EventsRoute` | `src/app/api/events/route.ts` |
| `rate_limit.dfy` | `RateLimit` | `src/lib/rate-limit.ts` |
| `home_page.dfy` | `HomePage` | `src/app/page.tsx` |
| `archives.dfy` | `Archives` | `src/app/archives/page.tsx` |
| `organisers.dfy` | `Organisers` | `src/app/organisers/page.tsx` |
| `toggles.dfy` | `Toggles` | the list toggles of the two forms |
| `submit_page.dfy` | `SubmitPage` | `src/app/submit/page.tsx` |
| `register_page.dfy` | `RegisterPage` | `src/app/register/page.tsx` |
| `event_card.dfy` | `EventCard` | `src/components/EventCard.tsx` |
| `sitemap.dfy` | `Sitemap` | `src/app/sitemap.ts` |

## Model

| member | source | states |
|---|---|---|
| Text.Lower | src/lib/notion.ts:30 | `toLowerCase` maps each character to its lower-case form and keeps the length |
| Text.Upper | src/app/organisers/page.tsx:52-54 | `toUpperCase` maps each character to its upper-case form and keeps the length |
| Text.RemoveChar | src/lib/notion.ts:34 | `replace(/-/g, "")` leaves no dash and never lengthens the string |
| Text.TakeLast | src/lib/notion.ts:35 | `slice(-12)` is the last 12 characters, or the whole string when it is shorter, and is a suffix |
| Text.Trim | src/app/organisers/page.tsx:74 | `trim()` removes white space at both ends and nowhere else, and the result neither starts nor ends with white space |
| Text.DecimalInjective | src/app/archives/page.tsx:30 | different years have different decimal renderings, so comparing year strings compares years |
| Slug.Hyphenate | src/lib/notion.ts:31 | after replacing each run outside `[a-z0-9]` with a dash, only `[a-z0-9-]` remains and no two dashes are adjacent |
| Slug.HyphenateKeepsSlugChars | src/lib/notion.ts:31 | hyphenation keeps every `[a-z0-9]` character in order and adds only dashes |
| Slug.BaseSlug | src/lib/notion.ts:29-32 | the name part contains only `[a-z0-9-]`, has no double dash, and does not start or end with a dash |
| Slug.BaseSlugContent | src/lib/notion.ts:29-32 | deleting the base slug's dashes gives exactly the lower-cased name's `[a-z0-9]` characters, in order |
| Slug.IdSuffix | src/lib/notion.ts:34-35 | the id part has no dash, is `min(12, dashless length)` long and ends the dashless id |
| Slug.GenerateSlug | src/lib/notion.ts:28-37 | the slug is the base slug, one dash, then the id part |
| Slug.LastSegment | src/lib/notion.ts:246 | `split("-").pop()` has no dash, ends the slug, and is preceded by a dash when shorter than the slug |
| Slug.SlugRoundTrip | src/lib/notion.ts:246-247 | for an id with 12 or more dashless characters, the segment a lookup extracts from the slug is exactly the id part, 12 long |
| Slug.ShortIdSlugIsRejected | src/lib/notion.ts:247 | for an id with fewer than 12 dashless characters, the extracted segment is too short, so the lookup returns null |
| NotionPages.StrOr | src/lib/notion.ts:126 | `(v as string) \|\| fallback` is the string when it is a non-empty string, the fallback otherwise |
| NotionPages.StrOrAbsent | src/lib/notion.ts:128 | `(v as string) \|\| undefined` is present exactly for a non-empty string |
| NotionPages.NamesOr | src/lib/notion.ts:129 | any array is truthy, so only a non-array falls back to `[]` |
| NotionPages.FlagOr | src/lib/notion.ts:139 | `(v as boolean) \|\| false` is true exactly for a true checkbox |
| NotionPages.NumOrAbsent | src/lib/notion.ts:135 | `(v as number) \|\| undefined` drops 0 as well as non-numbers |
| NotionPages.FullPages | src/lib/notion.ts:223 | keeping only results that have properties loses no full page and adds none |
| NotionPages.FullPagesAppend | src/lib/notion.ts:223 | the filter keeps the store's order: the full pages of two consecutive stretches of results are those of the first followed by those of the second |
| NotionEvents.GetPropertyValue | src/lib/notion.ts:84-111 | a missing property reads as null; a title or rich text as its first segment or `""`; a select is null exactly when it has no name or an empty one |
| NotionEvents.PageToEvent | src/lib/notion.ts:113-141 | the event keeps the page id and name, and its slug is generated from them; each missing property takes the source's default; a non-string name throws |
| NotionEvents.PagesToEvents | src/lib/notion.ts:224 | the map succeeds exactly when every page reads, and then gives each page's event in order |
| NotionEvents.HidingIgnoresCase | src/lib/notion.ts:53-57 | a url and its lower-cased form are hidden alike |
| NotionEvents.Visible | src/lib/notion.ts:225 | no kept event is hidden, every visible event is kept, and the order is kept |
| NotionEvents.IsSpecificEventUrl | src/lib/notion.ts:71-82 | a url is specific exactly when it is non-empty and matches none of the seven listing patterns, case-insensitively |
| NotionEvents.OptionalConditionsExact | src/lib/notion.ts:166-209 | a clause is sent exactly when its field is set to a non-empty value |
| NotionEvents.NoRepeatedClause | src/lib/notion.ts:166-209 | over fields without repeats, no filter clause is sent twice, because different fields push different clauses |
| NotionEvents.FetcherClausesDistinct | src/lib/notion.ts:166-209 | neither getEvents' seven optional clauses nor getPastEvents' four ever repeat a clause |
| NotionEvents.SameValuesSameConditions | src/lib/notion.ts:372-397 | the clauses depend only on the values of the fields read |
| NotionEvents.PastIgnoresLanguageAndDates | src/lib/notion.ts:372-397 | getPastEvents never sends a language or date-range clause |
| NotionEvents.PushIfSet | src/lib/notion.ts:167-172 | `if (value) push(clause)` appends the field's clause when it is set and nothing otherwise |
| NotionEvents.BuildUpcomingConditions | src/lib/notion.ts:149-209 | the filter is Published, on or after today, then the set fields' clauses in the order city, category, type, price, language, dateFrom, dateTo |
| NotionEvents.BuildPastConditions | src/lib/notion.ts:355-397 | the filter is Published, before today, then the set clauses among city, category, type and price, in that order |
| NotionEvents.SearchEvents | src/lib/notion.ts:227-235 | keeps, in order, exactly the events whose lower-cased name, description or organizer contains the lower-cased query |
| NotionEvents.VisibleEvents | src/lib/notion.ts:306-309 | throws exactly when the query or a page throws; otherwise all visible events, in order, and no hidden one |
| NotionEvents.SearchVisible | src/lib/notion.ts:222-235 | searching the visible events keeps them visible, adds the match, keeps the store's order and drops no visible matching event |
| NotionEvents.PresentEvents | src/lib/notion.ts:222-237 | the fetched events are visible, match the search when one is set, keep the store's order, and include every event meeting both tests |
| NotionEvents.GetEvents | src/lib/notion.ts:143-238 | `[]` without a query when unconfigured; otherwise exactly one query with the exact filter, ascending by date with no page size, and the result is the store's answer to that query presented as PresentEvents states (thrown when it throws; visible, matching, in order, nothing dropped) |
| NotionEvents.GetPastEvents | src/lib/notion.ts:350-426 | like getEvents, but before today, descending, with only the four past filters as clauses; the result is the store's answer to that query presented with the search |
| NotionEvents.VisibleAtMostResults | src/lib/notion.ts:306-309 | the visible events are never more than the query's results |
| NotionEvents.GetFeaturedEvents | src/lib/notion.ts:268-310 | `[]` when unconfigured; otherwise the visible events of the published, featured, from-today query with page size 5, so five at most from a store that keeps to page sizes |
| NotionEvents.GetUpcomingEvents | src/lib/notion.ts:312-348 | `[]` when unconfigured; otherwise the visible events of the published, from-today query with page size `limit` (10 by default), so `limit` at most from a store that keeps to page sizes |
| NotionEvents.FindById | src/lib/notion.ts:259-261 | `find` returns the first page whose dashless id ends with the id part, or nothing when no page matches |
| NotionEvents.GetEventBySlug | src/lib/notion.ts:240-266 | null without a query when unconfigured or the id part is shorter than 12; otherwise a returned event's dashless id ends with the id part |
| NotionEvents.SlugLookupFindsEvent | src/lib/notion.ts:240-266 | an event's own slug leads the lookup back to it, unless an earlier published page has the same id tail |
| NotionEvents.NewEventPage | src/lib/notion.ts:433-485 | a submission is written as an unfeatured draft with its fields copied; an empty end date and a zero or missing amount become null, and a missing address becomes `""` |
| NotionEvents.SubmitEvent | src/lib/notion.ts:428-488 | throws when unconfigured; otherwise the store's create result, which is the new id or a throw |
| NotionArticles.Join | src/lib/notion-articles.ts:36 | `join("")` is empty exactly when every part is empty, and starts with the first part |
| NotionArticles.GetPropertyValue | src/lib/notion-articles.ts:25-50 | rich text joins every segment; a date reads as its start, or null when it is empty; a number property reads as null |
| NotionArticles.ArticleSlug | src/lib/notion-articles.ts:53-58 | a non-empty custom slug wins; otherwise the slug is generated from the title, and a non-string title throws |
| NotionArticles.PageToArticle | src/lib/notion-articles.ts:52-70 | the article keeps the page id and takes its slug by that rule, and the title is present exactly when it is a string, and then equals the Title text |
| NotionArticles.ArticleDefaults | src/lib/notion-articles.ts:60-68 | each missing property takes its default (`""`, "Industry News", `[]`, none, "Draft", false) |
| NotionArticles.ArticlesOrEmpty | src/lib/notion-articles.ts:95-101 | a throwing query or page gives `[]`; otherwise every full page's article, in order, never more than the results |
| NotionArticles.GetArticles | src/lib/notion-articles.ts:72-102 | `[]` when unconfigured; otherwise the published articles, newest first |
| NotionArticles.GetFeaturedArticles | src/lib/notion-articles.ts:139-179 | `[]` when unconfigured; otherwise published and featured, newest first, page size `limit` (3), so `limit` at most from a store that keeps to page sizes |
| NotionArticles.GetRecentArticles | src/lib/notion-articles.ts:181-211 | `[]` when unconfigured; otherwise published, newest first, page size `limit` (5), so `limit` at most from a store that keeps to page sizes |
| NotionArticles.GetArticlesByCategory | src/lib/notion-articles.ts:213-252 | `[]` when unconfigured; otherwise published and of the category, newest first |
| NotionArticles.FindArticleSound | src/lib/notion-articles.ts:123-128 | a found page reads and matches by slug or id tail; "not found" means every page read and none matched |
| NotionArticles.GetArticleBySlug | src/lib/notion-articles.ts:104-137 | null when unconfigured, when the id part is under 12, or on any error; a returned article has the slug or its dashless id ends with the id part |
| NotionArticles.ShortCustomSlugNeverFound | src/lib/notion-articles.ts:109-110 | a custom slug whose last segment is under 12 characters is never found, whatever the store holds |
| NotionArticles.FindsFirstMatch | src/lib/notion-articles.ts:123-128 | `find` returns the first matching page when every page up to it reads |
| NotionArticles.SlugLookupFindsArticle | src/lib/notion-articles.ts:123-132 | an article is found by its own slug when no earlier page matches |
| NotionArticles.GeneratedSlugIsLongEnough | src/lib/notion-articles.ts:58 | a generated slug of an id with 12 or more dashless characters has a 12-character last segment |
| NotionArticles.GetArticleBySlugFindsArticle | src/lib/notion-articles.ts:104-137 | the whole lookup returns the article for its own slug when no earlier published page matches |
| EventsRoute.Post | src/app/api/events/route.ts:39-72 | an unparsable or null body gives 500; a missing required field gives 400 and submits nothing; a valid body is submitted once, unchanged; 200 exactly when it is valid and the store returns an id |
| EventsRoute.OptionalFieldsNotRequired | src/app/api/events/route.ts:44-55 | end date, location, address and price amount never affect acceptance |
| EventsRoute.EachRequiredFieldIsRequired | src/app/api/events/route.ts:44-55 | clearing any one of the ten required fields gets the body rejected |
| EventsRoute.AcceptedSubmissionIsDraft | src/app/api/events/route.ts:62-64 | with the store's submitEvent, an accepted body answers 200 exactly when the page is created, and the page is an unfeatured draft |
| EventsRoute.Param | src/app/api/events/route.ts:11-17 | a parameter is present exactly when it is given and non-empty |
| EventsRoute.BuildFilters | src/app/api/events/route.ts:9-25 | each of the seven filters equals its parameter when non-empty, and is unset otherwise; language is never set |
| EventsRoute.NoLanguageClause | src/app/api/events/route.ts:9-27 | GET's filters never produce a Language clause, even when the request has a language parameter |
| EventsRoute.HandleGet | src/app/api/events/route.ts:5-37 | 200 with visible events matching the search, or 500; unconfigured gives 200 with `[]`; configured, 500 exactly when getEvents throws on the parameters' filters, and otherwise 200 with exactly getEvents' events |
| RateLimit.Check | src/lib/rate-limit.ts:26-59 | a new or expired (strictly older than the window) entry restarts the window at count 1; a full window rejects with the remaining time and leaves the table; otherwise the count goes up by one; no other entry changes |
| RateLimit.CheckKeepsCountsBounded | src/lib/rate-limit.ts:47-53 | with maxRequests at least 1, no stored count ever exceeds maxRequests |
| RateLimit.ResetInWithinWindow | src/lib/rate-limit.ts:36-57 | resetIn lies between 0 and the window when the clock does not go back |
| RateLimit.RunWithinWindow | src/lib/rate-limit.ts:40-58 | inside one window the start is kept, and exactly `min(N, room left)` checks are admitted |
| RateLimit.FreshWindowAdmitsAtMostMax | src/lib/rate-limit.ts:33-58 | N checks within one window of a new identifier admit exactly `min(N, maxRequests)` |
| RateLimit.Swept | src/lib/rate-limit.ts:14-18 | the sweep keeps exactly the entries not older than one hour, unchanged |
| RateLimit.SweepIsUnobservable | src/lib/rate-limit.ts:12-19 | a sweep never changes a later check's verdict or its entry, as long as the window is at most an hour |
| RateLimit.RateLimiter.constructor | src/lib/rate-limit.ts:9 | the table starts empty |
| RateLimit.RateLimiter.CheckRateLimit | src/lib/rate-limit.ts:26-59 | the verdict and the new table are those of the decision rule, with the default of 5 per hour |
| RateLimit.RateLimiter.SweepExpired | src/lib/rate-limit.ts:13-18 | the loop deletes exactly the expired entries |
| HomePage.Featured | src/app/page.tsx:137 | the first featured article, else the first article, else none |
| HomePage.Recent | src/app/page.tsx:138 | exactly the first six (or all, when fewer) of the articles other than the featured one, in order; so never the featured one and, below six, none dropped |
| HomePage.Upcoming | src/app/page.tsx:139 | the first five events |
| HomePage.EmptyStateExactly | src/app/page.tsx:193 | the empty state shows exactly when both article lists are empty |
| HomePage.FirstArticleLeads | src/app/page.tsx:137-138 | with no featured article, the newest leads and the next six follow |
| HomePage.FeaturedSkipped | src/app/page.tsx:138 | a featured article in the list is skipped and every other article keeps its place |
| Archives.GroupEventsByDate | src/app/archives/page.tsx:25-45 | the nested maps hold, for every year and month, exactly that slot's events, with years and months in order of first appearance |
| Archives.AddToGroup | src/app/archives/page.tsx:28-42 | one callback step keeps the grouping exact for the events seen so far |
| Archives.BucketIsFilter | src/app/archives/page.tsx:41 | a month's list is the events of that year and month, in input order |
| Archives.YearsOfIsDedup | src/app/archives/page.tsx:33-35 | the year keys are the events' years without repeats, in order of first appearance |
| Archives.MonthsOfIsDedup | src/app/archives/page.tsx:38-40 | a year's month keys are its events' months without repeats, in order of first appearance |
| Archives.EachEventInOneBucket | src/app/archives/page.tsx:41 | each event is in the list of its own year and month and in no other |
| Archives.BucketKeepsOrder | src/app/archives/page.tsx:41 | a month's list keeps the input order |
| Archives.OrdersExact | src/app/archives/page.tsx:33-40 | each year, and each month of a year, is listed once; a year is listed exactly when some event has it |
| Archives.BucketSizesSum | src/app/archives/page.tsx:28-42 | the list sizes add up to the number of events |
| Archives.SortYears | src/app/archives/page.tsx:114 | the years sorted latest first, a permutation of the keys |
| Archives.InsertKeepsDescending | src/app/archives/page.tsx:114 | inserting a year keeps the list descending |
| Archives.ShownYears | src/app/archives/page.tsx:117-118 | all years without a `year` parameter; otherwise, in order, exactly the years whose decimal form equals it |
| Archives.SelectedYearOnly | src/app/archives/page.tsx:117-118 | a selected year shows that year alone when it has events, and nothing otherwise |
| Archives.SortedDistinct | src/app/archives/page.tsx:114 | sorting keys without repeats gives a list without repeats |
| Archives.ArchiveSections | src/app/archives/page.tsx:180-194 | one section per shown year, each holding its months in order with each month's events |
| Archives.ShownAreKeys | src/app/archives/page.tsx:181-182 | every shown year is a key, so `if (!yearData)` never fires |
| Archives.SectionOf | src/app/archives/page.tsx:181-194 | reading a year's section off the nested maps gives that year's months and lists |
| Archives.ArchiveFilters | src/app/archives/page.tsx:103-110 | the three filters when any is non-empty, no filters otherwise |
| Archives.FiltersOnlyWhenSet | src/app/archives/page.tsx:109-110 | passing no filters instead of all-empty ones changes neither the clauses nor the search |
| Archives.StatsOf | src/app/archives/page.tsx:251-267 | the event count is the number of past events and the year count the number of years; the organiser and city counts are the numbers of distinct values, never above the event count |
| Archives.YearCountIsDistinctYears | src/app/archives/page.tsx:267 | the year count is the number of distinct event years |
| Organisers.ToInt32 | src/app/organisers/page.tsx:43 | the 32-bit wrap of `hash << 5`: in range, congruent modulo 2^32, and the identity on 32-bit values |
| Organisers.CodeUnits | src/app/organisers/page.tsx:42-43 | the UTF-16 units `charCodeAt` sees, each below 2^16, one or two per character |
| Organisers.GetOrganiserColor | src/app/organisers/page.tsx:40-46 | the colour is the palette entry at the absolute hash modulo 12, so always one of the twelve |
| Organisers.HashBound | src/app/organisers/page.tsx:42-44 | each step moves the hash by less than 2^31 + 2^16 |
| Organisers.HashIsExact | src/app/organisers/page.tsx:42-44 | for names under 2^21 units every intermediate hash is below 2^53, so the floating-point source computes the same value |
| Organisers.SplitWhitespace | src/app/organisers/page.tsx:50 | `split(/\s+/)` gives at least one piece, none holding white space, and one piece exactly when there is no white space |
| Organisers.GetInitials | src/app/organisers/page.tsx:49-55 | at most two characters |
| Organisers.InitialsOfOneWord | src/app/organisers/page.tsx:51-52 | a one-word name shows its first two characters, upper-cased |
| Organisers.InitialsOfWords | src/app/organisers/page.tsx:54 | a longer name shows the first letters of its first two words, upper-cased |
| Organisers.CityLineOf | src/app/organisers/page.tsx:157-169 | at most four cities, a dot between consecutive ones, and "+N more" exactly when there are more than four |
| Organisers.AddEvent | src/app/organisers/page.tsx:73-105 | the callback keeps the map and its insertion order an exact summary of the events seen |
| Organisers.NoOrganiser | src/app/organisers/page.tsx:74-75 | an event with a blank organiser changes nothing |
| Organisers.KnownOrganiser | src/app/organisers/page.tsx:78-92 | another event of a listed organiser counts once more, adds a new city, and replaces the linked event when strictly earlier |
| Organisers.NewOrganiser | src/app/organisers/page.tsx:93-104 | an organiser's first event appends it with count 1, its city and that event |
| Organisers.SameOrganiser | src/app/organisers/page.tsx:79-92 | the summary of one more event of the same organiser is the updated entry |
| Organisers.FirstOfOrganiser | src/app/organisers/page.tsx:94-103 | the summary of an organiser's first event |
| Organisers.OtherUnchanged | src/app/organisers/page.tsx:77-92 | an event of another organiser leaves a summary as it was |
| Organisers.SummariesContents | src/app/organisers/page.tsx:71-105 | one entry per non-blank organiser with events, no repeats, each counting that organiser's events |
| Organisers.NamesExact | src/app/organisers/page.tsx:74-78 | an organiser is listed exactly when it is non-blank and has an event |
| Organisers.SummaryCities | src/app/organisers/page.tsx:80-82 | an organiser's cities are its events' cities, each once |
| Organisers.EarliestIsFirstMinimum | src/app/organisers/page.tsx:83-92 | with valid dates, the linked event is the first of the organiser's events with the smallest date |
| Organisers.ValuesInOrder | src/app/organisers/page.tsx:107 | `Array.from(map.values())` gives the summaries in order of first appearance |
| Organisers.InsertKeepsSorted | src/app/organisers/page.tsx:107-109 | an insertion step keeps the list sorted by count, descending |
| Organisers.SortByCount | src/app/organisers/page.tsx:107-109 | the sort is a permutation, descending by count |
| Organisers.SortKeepsTies | src/app/organisers/page.tsx:107-109 | the sort is stable: entries with equal counts keep their relative order |
| Organisers.AggregateOrganisers | src/app/organisers/page.tsx:69-109 | the page's list is the summaries in first-appearance order, stably sorted by count |
| Toggles.Toggle | src/app/submit/page.tsx:99-106 | the toggled value's membership flips, and every other value's is unchanged |
| Toggles.ToggleAbsent | src/app/register/page.tsx:26-32 | an absent value is appended at the end |
| Toggles.TogglePresent | src/app/register/page.tsx:28-29 | a present value loses every occurrence, the list gets shorter, and nothing else is removed |
| Toggles.ToggleKeepsOthers | src/app/submit/page.tsx:102-104 | the other values keep their relative order |
| Toggles.ToggleTwiceRestores | src/app/submit/page.tsx:102-104 | toggling an absent value twice restores the list |
| SubmitPage.Settle | src/app/submit/page.tsx:88-96 | success exactly on an ok response; otherwise an error with the fixed message |
| SubmitPage.SucceedsIffAccepted | src/app/submit/page.tsx:76-97 | posting to the events route, the form succeeds exactly when the body has every required field and the store returns an id |
| SubmitPage.InitialFormIncomplete | src/app/submit/page.tsx:59-74 | the blank form is rejected by the route, and its button starts disabled |
| SubmitPage.SubmitForm.constructor | src/app/submit/page.tsx:54-74 | idle, no error, the initial form |
| SubmitPage.SubmitForm.ToggleCategory | src/app/submit/page.tsx:99-106 | only the categories change, by the toggle |
| SubmitPage.SubmitForm.StartSubmit | src/app/submit/page.tsx:78-86 | loading with the error cleared; the body sent is the form |
| SubmitPage.SubmitForm.FinishSubmit | src/app/submit/page.tsx:88-96 | settles the status and error; the form is unchanged |
| SubmitPage.SubmitForm.HandleSubmit | src/app/submit/page.tsx:76-97 | posts the unchanged form and settles on the outcome |
| RegisterPage.RegisterForm.constructor | src/app/register/page.tsx:8-12 | empty email and interests, weekly, not submitting, and the button disabled |
| RegisterPage.RegisterForm.ToggleInterest | src/app/register/page.tsx:26-32 | only the interests change, by the toggle |
| RegisterPage.RegisterForm.StartSubmit | src/app/register/page.tsx:36 | submitting, and the button locked |
| RegisterPage.RegisterForm.FinishSubmit | src/app/register/page.tsx:41-42 | success, and submitting cleared |
| RegisterPage.RegisterForm.HandleSubmit | src/app/register/page.tsx:34-43 | always ends in success with submitting cleared and the form's data untouched |
| EventCard.ConfigFor | src/components/EventCard.tsx:68 | a known type's configuration, else Meetup's |
| EventCard.PriceLabel | src/components/EventCard.tsx:117 | "Free"; "N SEK" for Paid with a non-zero amount; the price name otherwise |
| EventCard.PaidWithoutAmount | src/components/EventCard.tsx:117 | Paid with no amount, or amount 0, shows "Paid" |
| EventCard.PriceBadgeClass | src/components/EventCard.tsx:109-115 | green for Free, yellow for Freemium, white otherwise |
| EventCard.LocationLine | src/components/EventCard.tsx:147 | the location, or the city when it is empty; empty only when both are |
| EventCard.OrganizerRow | src/components/EventCard.tsx:151-156 | the row shows exactly for a non-empty organizer, with its name |
| EventCard.Formatted | src/components/EventCard.tsx:61-66 | an empty date shows nothing; otherwise the formatter's text |
| Sitemap.BaseUrl | src/app/sitemap.ts:5 | the configured site url when non-empty, else the default, and never empty |
| Sitemap.Sitemap | src/app/sitemap.ts:4-38 | three fixed pages (daily, daily, monthly), then one weekly entry per event in order |
| Sitemap.AllOnSite | src/app/sitemap.ts:10-37 | every url starts with the base url |
| Sitemap.EventUrlsDistinct | src/app/sitemap.ts:11 | events with different slugs get different urls, and no event url equals a fixed page |
| Sitemap.EventEntriesWeekly | src/app/sitemap.ts:13 | every event entry changes weekly |

## Left out

- The Notion client, `process.env` and the 5-minute `setInterval` timer are parameters or are left out. `configured` stands for both environment variables being set, and `Store` stands for the database query.
- Clock, time zone and locale are left out. `new Date()`, `toISOString`, `getFullYear` and `toLocaleDateString` become the parameters `now`, `today`, `parseDate`, `yearOf` and `monthOf`, and date-fns `format` becomes a parameter.
- An invalid date is left out: a year is an integer, so the `"NaN"` year key of an unparsable date is not modelled.
- Dynamic typing of property values is left out. A property whose stored type differs from what the reader casts it to reads as the fallback. The exception is a non-string title or name, which makes slug generation throw and is modelled as failure.
- Letter case is ASCII-only: `toLowerCase` and `toUpperCase` change `A`-`Z` and `a`-`z` only.
- Organisers.GetOrganiserColor: the source's hash is a float, and the model uses integers. The two agree only while the hash stays below 2^53, which Organisers.HashIsExact proves for names under 2^21 code units. Longer names are not modelled.
- EventCard.ConfigFor: the configuration table is a map, so every name outside the seven types falls back to Meetup. The source indexes an object literal, so a Type named after an inherited `Object.prototype` member (`constructor`, `toString`, `__proto__`) finds a truthy non-configuration, and rendering its icon fails. Such type names are not modelled.
- EventsRoute.Post: the request body is taken as a typed record. A field missing from the JSON is "" (or [], or None), and every present field has its declared type. The source reads the body with an unchecked `request.json()`, which the model does not capture in two cases. First, a missing `location` is passed on to the page as undefined rather than "". Second, JSON values of other types are not modelled: a non-empty string for `categories` passes the length test and then makes `categories.map` throw, giving 500, and a number for `name` passes the truthiness test.
- EventCard.PriceLabel: `priceAmount` is an integer. The source's field is a JavaScript number, so a fractional amount such as 99.5 and its `String` form are not modelled.
- Organisers.GetInitials: the model takes the first characters (code points) of the words, but `substring` and `charAt` count UTF-16 code units. For a word that starts with a character outside the Basic Multilingual Plane, the source keeps that one character where the model keeps two (one-word names), or takes half of its surrogate pair (two words). Such names are not modelled.
- Organisers.AddEvent: the `!existing.upcomingEvent` test is left out, because an existing entry always has an upcoming event. An unparsable date compares as not earlier, as `NaN < x` does.
- Archives.ArchiveSections: the `if (!yearData)` and `if (!monthEvents)` branches are left out because they never fire. Archives.ShownAreKeys and Archives.SectionOf prove this.
- Sitemap.Sitemap: `priority` and `lastModified` are left out. They are constants and the current time.
- Some components and pages are left out: FilterBar, SearchBar, OrganizerLogo, NewsletterSignup, ShareButton, the events listing page and the detail pages. They are context, not part of this model.
- Markup and styling are left out: JSX, class names other than the badge colours, and icons.
- RegisterPage.RegisterForm.HandleSubmit: the one-second `setTimeout` wait is left out, along with the absence of any newsletter call. The wait is the split between StartSubmit and FinishSubmit.
- The submit form's input handlers for text fields and `parseInt` of the price amount are left out. They are field assignments.
- `console.warn` and `console.error` are left out.
- Concurrency is left out: interleaved async requests against the shared rate-limit table are not modelled, and each call runs to completion.
