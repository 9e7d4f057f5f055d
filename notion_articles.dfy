/** The news side of the content store (src/lib/notion-articles.ts): reading a page
    into an article, the slug lookup, and the fetchers, all of which answer an empty
    list or null instead of throwing. `configured` stands for both environment
    variables being set, `store` for the database client. */
module NotionArticles {
  import opened Seqs
  import opened Text
  import opened Types
  import opened Slug
  import opened NotionPages

  /** `parts.join("")`. */
  function Join(parts: seq<string>): (r: string)
    ensures r == "" <==> forall i :: 0 <= i < |parts| ==> parts[i] == ""
    ensures parts != [] ==> |parts[0]| <= |r| && r[..|parts[0]|] == parts[0]
  {
    if parts == [] then ""
    else
      var rest := Join(parts[1..]);
      assert forall i :: 1 <= i < |parts| ==> parts[i] == parts[1..][i - 1];
      parts[0] + rest
  }

  /** The article reader's getPropertyValue: rich text joins every segment, a date
      reads as its start (null when empty), and numbers are not read. */
  function GetPropertyValue(page: Page, name: string): (v: Value)
    ensures name !in page.properties ==> v == Null
    ensures name in page.properties && page.properties[name].RichTextProp? ==>
      v == Str(Join(page.properties[name].segments))
    ensures name in page.properties && page.properties[name].DateProp? ==>
      (v == Null <==> page.properties[name].date.None? || page.properties[name].date.value.start == "")
    ensures name in page.properties && page.properties[name].DateProp? && v != Null ==>
      v == Str(page.properties[name].date.value.start)
    ensures name in page.properties && page.properties[name].NumberProp? ==> v == Null
    ensures !v.DateValue? && !v.Num?
  {
    if name !in page.properties then Null
    else match page.properties[name]
      case TitleProp(segments) => Str(if segments == [] then "" else segments[0])
      case RichTextProp(segments) => Str(Join(segments))
      case DateProp(date) => if date.Some? && date.value.start != "" then Str(date.value.start) else Null
      case SelectProp(name) => if name.Some? && name.value != "" then Str(name.value) else Null
      case MultiSelectProp(names) => Names(names)
      case CheckboxProp(checked) => Bool(checked)
      case UrlProp(url) => Str(if url.Some? then url.value else "")
      case NumberProp(_) => Null
      case OtherProp => Null
  }

  /** The slug an article is published under: its Slug property when that is a
      non-empty string, otherwise generated from the title and id. None when the
      title must be used and is not a string (the source then throws). */
  function ArticleSlug(page: Page): (r: Option<string>)
    ensures StrOrAbsent(GetPropertyValue(page, "Slug")).Some? ==> r == StrOrAbsent(GetPropertyValue(page, "Slug"))
    ensures StrOrAbsent(GetPropertyValue(page, "Slug")).None? ==>
      (r.Some? <==> GetPropertyValue(page, "Title").Str?)
    ensures StrOrAbsent(GetPropertyValue(page, "Slug")).None? && r.Some? ==>
      r.value == GenerateSlug(GetPropertyValue(page, "Title").text, page.id)
  {
    var custom := StrOrAbsent(GetPropertyValue(page, "Slug"));
    if custom.Some? then custom
    else
      var title := GetPropertyValue(page, "Title");
      if title.Str? then Some(GenerateSlug(title.text, page.id)) else None
  }

  /** pageToArticle: None when it throws (no custom slug and a non-string title). */
  function PageToArticle(page: Page): (r: Option<Article>)
    ensures r.None? <==> ArticleSlug(page).None?
    ensures r.Some? ==> r.value.id == page.id && Some(r.value.slug) == ArticleSlug(page)
    ensures r.Some? ==> (r.value.title.Some? <==> GetPropertyValue(page, "Title").Str?)
    ensures r.Some? && GetPropertyValue(page, "Title").Str? ==>
      r.value.title == Some(GetPropertyValue(page, "Title").text)
  {
    var slug := ArticleSlug(page);
    if slug.None? then None
    else
      var title := GetPropertyValue(page, "Title");
      Some(Article(
        id := page.id,
        slug := slug.value,
        title := if title.Str? then Some(title.text) else None,
        content := StrOr(GetPropertyValue(page, "Content"), ""),
        excerpt := StrOr(GetPropertyValue(page, "Excerpt"), ""),
        publishedDate := StrOr(GetPropertyValue(page, "Published Date"), ""),
        author := StrOr(GetPropertyValue(page, "Author"), ""),
        category := StrOr(GetPropertyValue(page, "Category"), "Industry News"),
        tags := NamesOr(GetPropertyValue(page, "Tags")),
        imageUrl := StrOrAbsent(GetPropertyValue(page, "Image URL")),
        status := StrOr(GetPropertyValue(page, "Status"), "Draft"),
        featured := FlagOr(GetPropertyValue(page, "Featured"))))
  }

  /** The defaults for properties the page does not have. */
  lemma ArticleDefaults(page: Page)
    requires PageToArticle(page).Some?
    ensures var a := PageToArticle(page).value;
      && ("Content" !in page.properties ==> a.content == "")
      && ("Excerpt" !in page.properties ==> a.excerpt == "")
      && ("Published Date" !in page.properties ==> a.publishedDate == "")
      && ("Author" !in page.properties ==> a.author == "")
      && ("Category" !in page.properties ==> a.category == "Industry News")
      && ("Tags" !in page.properties ==> a.tags == [])
      && ("Image URL" !in page.properties ==> a.imageUrl.None?)
      && ("Status" !in page.properties ==> a.status == "Draft")
      && ("Featured" !in page.properties ==> !a.featured)
  {
  }

  /** The articles of a query answer; [] when the query or any page throws (the
      fetchers catch every error). */
  function ArticlesOrEmpty(answer: Attempt<seq<QueryItem>>): (r: seq<Article>)
    ensures answer.Thrown? ==> r == []
    ensures answer.Ok? && MapAll(FullPages(answer.value), PageToArticle).None? ==> r == []
    ensures answer.Ok? && MapAll(FullPages(answer.value), PageToArticle).Some? ==>
      |r| == |FullPages(answer.value)|
      && forall i :: 0 <= i < |r| ==> r[i] == PageToArticle(FullPages(answer.value)[i]).value
    ensures answer.Ok? ==> |r| <= |answer.value|
  {
    if answer.Thrown? then []
    else
      var converted := MapAll(FullPages(answer.value), PageToArticle);
      if converted.None? then [] else converted.value
  }

  const PublishedArticle: Condition := PublishedCondition

  const NewestFirst: Option<Sort> := Some(Sort("Published Date", Descending))

  /** getArticles: every published article, newest first. */
  function GetArticles(configured: bool, store: Store): (r: seq<Article>)
    ensures !configured ==> r == []
    ensures configured ==> r == ArticlesOrEmpty(store(Query([PublishedArticle], NewestFirst, None)))
  {
    if !configured then [] else ArticlesOrEmpty(store(Query([PublishedArticle], NewestFirst, None)))
  }

  /** getFeaturedArticles(limit = 3): `limit` at most when the store keeps to the page size. */
  function GetFeaturedArticles(configured: bool, store: Store, limit: nat := 3): (r: seq<Article>)
    ensures !configured ==> r == []
    ensures configured ==> r == ArticlesOrEmpty(store(
      Query([PublishedArticle, Condition("Featured", CheckboxEquals, "true")], NewestFirst, Some(limit))))
    ensures HonoursPageSize(store) ==> |r| <= limit
  {
    if !configured then []
    else
      var query := Query([PublishedArticle, Condition("Featured", CheckboxEquals, "true")], NewestFirst, Some(limit));
      assert HonoursPageSize(store) && store(query).Ok? ==> |store(query).value| <= limit;
      ArticlesOrEmpty(store(query))
  }

  /** getRecentArticles(limit = 5): `limit` at most when the store keeps to the page size. */
  function GetRecentArticles(configured: bool, store: Store, limit: nat := 5): (r: seq<Article>)
    ensures !configured ==> r == []
    ensures configured ==> r == ArticlesOrEmpty(store(Query([PublishedArticle], NewestFirst, Some(limit))))
    ensures HonoursPageSize(store) ==> |r| <= limit
  {
    if !configured then []
    else
      var query := Query([PublishedArticle], NewestFirst, Some(limit));
      assert HonoursPageSize(store) && store(query).Ok? ==> |store(query).value| <= limit;
      ArticlesOrEmpty(store(query))
  }

  /** getArticlesByCategory. */
  function GetArticlesByCategory(category: string, configured: bool, store: Store): (r: seq<Article>)
    ensures !configured ==> r == []
    ensures configured ==> r == ArticlesOrEmpty(store(
      Query([PublishedArticle, Condition("Category", SelectEquals, category)], NewestFirst, None)))
  {
    if !configured then []
    else ArticlesOrEmpty(store(Query([PublishedArticle, Condition("Category", SelectEquals, category)], NewestFirst, None)))
  }

  // ---------------------------------------------------------------------------
  // Slug lookup

  /** The lookup's test for one page, given the page's article. */
  predicate ArticleMatches(page: Page, article: Article, slug: string, idPart: string) {
    article.slug == slug || EndsWith(RemoveChar(page.id, '-'), idPart)
  }

  /** `pages.find(p => ...)`, which reads each page into an article before testing it:
      Thrown when a page before the first match throws. */
  function FindArticle(pages: seq<Page>, slug: string, idPart: string): Attempt<Option<Page>> {
    if pages == [] then Ok(None)
    else
      var article := PageToArticle(pages[0]);
      if article.None? then Thrown
      else if ArticleMatches(pages[0], article.value, slug, idPart) then Ok(Some(pages[0]))
      else FindArticle(pages[1..], slug, idPart)
  }

  /** What `find` returns is a page that reads and matches; when it returns nothing,
      every page read and none matched. */
  lemma {:induction false} FindArticleSound(pages: seq<Page>, slug: string, idPart: string)
    ensures var r := FindArticle(pages, slug, idPart);
      r.Ok? && r.value.Some? ==>
        exists k :: 0 <= k < |pages| && pages[k] == r.value.value && PageToArticle(pages[k]).Some?
          && ArticleMatches(pages[k], PageToArticle(pages[k]).value, slug, idPart)
    ensures FindArticle(pages, slug, idPart) == Ok(None) ==> forall i :: 0 <= i < |pages| ==>
      PageToArticle(pages[i]).Some? && !ArticleMatches(pages[i], PageToArticle(pages[i]).value, slug, idPart)
    decreases |pages|
  {
    if pages != [] && PageToArticle(pages[0]).Some? && !ArticleMatches(pages[0], PageToArticle(pages[0]).value, slug, idPart) {
      var tail := pages[1..];
      var r := FindArticle(tail, slug, idPart);
      FindArticleSound(tail, slug, idPart);
      assert FindArticle(pages, slug, idPart) == r;
      if r.Ok? && r.value.Some? {
        var k :| 0 <= k < |tail| && tail[k] == r.value.value && PageToArticle(tail[k]).Some?
          && ArticleMatches(tail[k], PageToArticle(tail[k]).value, slug, idPart);
        assert pages[k + 1] == tail[k];
      }
      if r == Ok(None) {
        forall i | 1 <= i < |pages|
          ensures PageToArticle(pages[i]).Some? && !ArticleMatches(pages[i], PageToArticle(pages[i]).value, slug, idPart)
        {
          assert pages[i] == tail[i - 1];
        }
      }
    }
  }

  /** The lookup's query: every published article, unsorted. */
  const PublishedArticlesQuery: Query := Query([PublishedArticle], None, None)

  /** getArticleBySlug: null when unconfigured, when the slug's last segment is shorter
      than 12 (before any query), when nothing matches, and on any error; otherwise
      the first published page whose slug is the input or whose dashless id ends
      with the last segment. */
  function GetArticleBySlug(slug: string, configured: bool, store: Store): (r: Option<Article>)
    ensures !configured || |LastSegment(slug)| < 12 ==> r.None?
    ensures store(PublishedArticlesQuery).Thrown? ==> r.None?
    ensures r.Some? ==> r.value.slug == slug || EndsWith(RemoveChar(r.value.id, '-'), LastSegment(slug))
  {
    if !configured then None
    else
      var idPart := LastSegment(slug);
      if |idPart| < 12 then None
      else
        match store(PublishedArticlesQuery)
        case Thrown => None
        case Ok(items) =>
          match FindArticle(FullPages(items), slug, idPart)
          case Thrown => None
          case Ok(None) => None
          case Ok(Some(page)) =>
            FindArticleSound(FullPages(items), slug, idPart);
            PageToArticle(page)
  }

  /** A custom slug whose last segment is shorter than 12 characters is never found,
      whatever the store holds. */
  lemma ShortCustomSlugNeverFound(page: Page, store: Store)
    requires PageToArticle(page).Some?
    requires |LastSegment(PageToArticle(page).value.slug)| < 12
    ensures GetArticleBySlug(PageToArticle(page).value.slug, true, store).None?
  {
  }

  /** Round trip: an article found first in the published list is found by its own
      slug, whether the slug is custom or generated, as long as the slug's last
      segment has 12 characters or more. */
  lemma SlugLookupFindsArticle(pages: seq<Page>, k: nat)
    requires k < |pages| && forall i :: 0 <= i <= k ==> PageToArticle(pages[i]).Some?
    requires |LastSegment(PageToArticle(pages[k]).value.slug)| >= 12
    requires forall i :: 0 <= i < k ==> !ArticleMatches(pages[i], PageToArticle(pages[i]).value,
      PageToArticle(pages[k]).value.slug, LastSegment(PageToArticle(pages[k]).value.slug))
    ensures FindArticle(pages, PageToArticle(pages[k]).value.slug, LastSegment(PageToArticle(pages[k]).value.slug))
         == Ok(Some(pages[k]))
  {
    var slug := PageToArticle(pages[k]).value.slug;
    FindsFirstMatch(pages, k, slug, LastSegment(slug));
  }

  /** The page reads into an article that the lookup passes over. */
  predicate PassedOver(page: Page, slug: string, idPart: string) {
    PageToArticle(page).Some? && !ArticleMatches(page, PageToArticle(page).value, slug, idPart)
  }

  /** `find` returns the first page that matches, when every page up to it reads. */
  lemma {:induction false} FindsFirstMatch(pages: seq<Page>, k: nat, slug: string, idPart: string)
    requires k < |pages| && PageToArticle(pages[k]).Some?
    requires ArticleMatches(pages[k], PageToArticle(pages[k]).value, slug, idPart)
    requires forall i :: 0 <= i < k ==> PassedOver(pages[i], slug, idPart)
    ensures FindArticle(pages, slug, idPart) == Ok(Some(pages[k]))
    decreases k
  {
    if k > 0 {
      var tail := pages[1..];
      assert tail[k - 1] == pages[k];
      assert forall i :: 0 <= i < k - 1 ==> tail[i] == pages[i + 1];
      FindsFirstMatch(tail, k - 1, slug, idPart);
      FindSkips(pages, slug, idPart);
    }
  }

  /** A page that reads and does not match is passed over. */
  lemma FindSkips(pages: seq<Page>, slug: string, idPart: string)
    requires pages != [] && PassedOver(pages[0], slug, idPart)
    ensures FindArticle(pages, slug, idPart) == FindArticle(pages[1..], slug, idPart)
  {
  }

  /** For a generated slug the round trip needs an id with 12 characters besides dashes. */
  lemma GeneratedSlugIsLongEnough(page: Page)
    requires StrOrAbsent(GetPropertyValue(page, "Slug")).None? && GetPropertyValue(page, "Title").Str?
    requires |RemoveChar(page.id, '-')| >= 12
    ensures PageToArticle(page).Some?
    ensures |LastSegment(PageToArticle(page).value.slug)| == 12
  {
    SlugRoundTrip(GetPropertyValue(page, "Title").text, page.id);
  }

  /** The whole lookup: with the store's published pages, an article that no earlier
      page matches is returned for its own slug. */
  lemma GetArticleBySlugFindsArticle(items: seq<QueryItem>, store: Store, k: nat)
    requires store(PublishedArticlesQuery) == Ok(items)
    requires k < |FullPages(items)| && forall i :: 0 <= i <= k ==> PageToArticle(FullPages(items)[i]).Some?
    requires |LastSegment(PageToArticle(FullPages(items)[k]).value.slug)| >= 12
    requires forall i :: 0 <= i < k ==> !ArticleMatches(FullPages(items)[i], PageToArticle(FullPages(items)[i]).value,
      PageToArticle(FullPages(items)[k]).value.slug, LastSegment(PageToArticle(FullPages(items)[k]).value.slug))
    ensures GetArticleBySlug(PageToArticle(FullPages(items)[k]).value.slug, true, store) == PageToArticle(FullPages(items)[k])
  {
    SlugLookupFindsArticle(FullPages(items), k);
  }
}
