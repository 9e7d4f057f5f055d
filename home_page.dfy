/** The front page's selection (src/app/page.tsx): the featured article, up to six
    recent articles other than it, the first five upcoming events, and when the
    "No articles yet" state shows. The three fetched lists are inputs. */
module HomePage {
  import opened Seqs
  import opened Types

  const RecentLimit: nat := 6
  const UpcomingLimit: nat := 5

  /** `featuredArticles[0] || articles[0]`: articles are objects, hence truthy. */
  function Featured(featuredArticles: seq<Article>, articles: seq<Article>): (r: Option<Article>)
    ensures featuredArticles != [] ==> r == Some(featuredArticles[0])
    ensures featuredArticles == [] && articles != [] ==> r == Some(articles[0])
    ensures r.None? <==> featuredArticles == [] && articles == []
  {
    if featuredArticles != [] then Some(featuredArticles[0])
    else if articles != [] then Some(articles[0])
    else None
  }

  /** `a.id !== featured?.id`: every article passes when there is no featured one. */
  function NotFeatured(featured: Option<Article>): Article -> bool {
    (a: Article) => featured.None? || a.id != featured.value.id
  }

  /** `articles.filter(a => a.id !== featured?.id).slice(0, 6)`. */
  function Recent(articles: seq<Article>, featured: Option<Article>): (r: seq<Article>)
    ensures |r| <= RecentLimit
    // keeps the order of `articles`
    ensures Subsequence(r, articles)
    // never repeats the featured article
    ensures featured.Some? ==> forall i :: 0 <= i < |r| ==> r[i].id != featured.value.id
    // below the limit, nothing else was dropped
    ensures |r| < RecentLimit ==>
      forall a :: a in articles && (featured.None? || a.id != featured.value.id) ==> a in r
    // exactly the first six (or fewer) articles that are not the featured one
    ensures var kept := Filter(articles, NotFeatured(featured));
      |r| == (if |kept| < RecentLimit then |kept| else RecentLimit) && r == kept[..|r|]
  {
    var kept := Filter(articles, NotFeatured(featured));
    var r := Take(kept, RecentLimit);
    PrefixSubsequence(kept, |r|);
    SubsequenceTransitive(r, kept, articles);
    r
  }

  /** `events.slice(0, 5)`. */
  function Upcoming(events: seq<AIEvent>): (r: seq<AIEvent>)
    ensures |r| == if |events| < UpcomingLimit then |events| else UpcomingLimit
    ensures r == events[..|r|]
  {
    Take(events, UpcomingLimit)
  }

  /** What the page selects. */
  datatype Home = Home(featured: Option<Article>, recent: seq<Article>, upcoming: seq<AIEvent>)

  function Select(articles: seq<Article>, featuredArticles: seq<Article>, events: seq<AIEvent>): Home {
    var featured := Featured(featuredArticles, articles);
    Home(featured, Recent(articles, featured), Upcoming(events))
  }

  /** "No articles yet" shows when there is no featured article and no recent one. */
  predicate ShowsEmptyState(home: Home) {
    home.featured.None? && |home.recent| == 0
  }

  /** The empty state shows exactly when both article lists came back empty. */
  lemma EmptyStateExactly(articles: seq<Article>, featuredArticles: seq<Article>, events: seq<AIEvent>)
    ensures ShowsEmptyState(Select(articles, featuredArticles, events)) <==> articles == [] && featuredArticles == []
  {
  }

  /** Without a featured article, the newest article leads and the next six follow,
      when ids are distinct. */
  lemma FirstArticleLeads(articles: seq<Article>, events: seq<AIEvent>)
    requires articles != []
    requires forall i, j :: 0 <= i < j < |articles| ==> articles[i].id != articles[j].id
    ensures Select(articles, [], events).featured == Some(articles[0])
    ensures Select(articles, [], events).recent == Take(articles[1..], RecentLimit)
  {
    var p := NotFeatured(Some(articles[0]));
    assert !p(articles[0]);
    FilterAll(articles[1..], p);
  }

  /** A featured article that is also among the articles is skipped in the recent
      list, and with distinct ids every other article keeps its place. */
  lemma FeaturedSkipped(articles: seq<Article>, featuredArticles: seq<Article>, k: int)
    requires featuredArticles != [] && 0 <= k < |articles| && articles[k] == featuredArticles[0]
    requires forall i, j :: 0 <= i < j < |articles| ==> articles[i].id != articles[j].id
    ensures Recent(articles, Featured(featuredArticles, articles)) == Take(articles[..k] + articles[k + 1..], RecentLimit)
  {
    var p := NotFeatured(Some(articles[k]));
    var before, after := articles[..k], articles[k + 1..];
    assert articles == before + ([articles[k]] + after);
    FilterAppend(before, [articles[k]] + after, p);
    assert Filter([articles[k]] + after, p) == Filter(after, p);
    FilterAll(before, p);
    FilterAll(after, p);
    assert Filter(articles, NotFeatured(Featured(featuredArticles, articles))) == before + after;
  }
}
