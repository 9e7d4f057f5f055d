/** The sitemap (src/app/sitemap.ts): the home, events and submit pages, then one
    entry per published event. The site URL setting and the event list are inputs;
    the timestamps and the priorities are left out. */
module Sitemap {
  import opened Seqs
  import opened Types

  datatype ChangeFrequency = Daily | Weekly | Monthly

  datatype Entry = Entry(url: string, changeFrequency: ChangeFrequency)

  const DefaultBaseUrl: string := "https://aijournalen.se"

  /** `process.env.NEXT_PUBLIC_SITE_URL || "https://aijournalen.se"`. */
  function BaseUrl(siteUrl: Option<string>): (r: string)
    ensures IsSet(siteUrl) ==> r == siteUrl.value
    ensures !IsSet(siteUrl) ==> r == DefaultBaseUrl
    ensures r != ""
  {
    if IsSet(siteUrl) then siteUrl.value else DefaultBaseUrl
  }

  function EventEntry(base: string, e: AIEvent): Entry {
    Entry(base + "/events/" + e.slug, Weekly)
  }

  /** The three fixed pages, then the events in order. */
  function Sitemap(siteUrl: Option<string>, events: seq<AIEvent>): (r: seq<Entry>)
    ensures |r| == 3 + |events|
    ensures var base := BaseUrl(siteUrl);
      r[..3] == [Entry(base, Daily), Entry(base + "/events", Daily), Entry(base + "/submit", Monthly)]
    ensures forall i :: 0 <= i < |events| ==>
      r[3 + i] == Entry(BaseUrl(siteUrl) + "/events/" + events[i].slug, Weekly)
  {
    var base := BaseUrl(siteUrl);
    var eventUrls := seq(|events|, i requires 0 <= i < |events| => EventEntry(base, events[i]));
    [Entry(base, Daily), Entry(base + "/events", Daily), Entry(base + "/submit", Monthly)] + eventUrls
  }

  /** Every url is on the site. */
  lemma AllOnSite(siteUrl: Option<string>, events: seq<AIEvent>)
    ensures var base := BaseUrl(siteUrl);
      forall k :: 0 <= k < |Sitemap(siteUrl, events)| ==> base <= Sitemap(siteUrl, events)[k].url
  {
    var base := BaseUrl(siteUrl);
    var r := Sitemap(siteUrl, events);
    forall k | 0 <= k < |r| ensures base <= r[k].url {
      if k == 1 {
        assert r[k].url == base + "/events";
      } else if k == 2 {
        assert r[k].url == base + "/submit";
      } else if k >= 3 {
        assert r[k].url == base + ("/events/" + events[k - 3].slug);
      }
    }
  }

  /** Events with different slugs get different urls, and no event url repeats a fixed page. */
  lemma EventUrlsDistinct(siteUrl: Option<string>, events: seq<AIEvent>, i: int, j: int)
    requires 0 <= i < |events| && 0 <= j < |events|
    requires events[i].slug != events[j].slug
    ensures Sitemap(siteUrl, events)[3 + i].url != Sitemap(siteUrl, events)[3 + j].url
    ensures forall k :: 0 <= k < 3 ==> Sitemap(siteUrl, events)[3 + i].url != Sitemap(siteUrl, events)[k].url
  {
    var r := Sitemap(siteUrl, events);
    var prefix := BaseUrl(siteUrl) + "/events/";
    assert r[3 + i].url == prefix + events[i].slug;
    assert r[3 + j].url == prefix + events[j].slug;
    assert events[i].slug == r[3 + i].url[|prefix|..];
    assert events[j].slug == r[3 + j].url[|prefix|..];
    assert |r[3 + i].url| > |r[1].url| && |r[3 + i].url| > |r[2].url| && |r[3 + i].url| > |r[0].url|;
  }

  lemma EventEntriesWeekly(siteUrl: Option<string>, events: seq<AIEvent>)
    ensures forall k :: 3 <= k < |Sitemap(siteUrl, events)| ==> Sitemap(siteUrl, events)[k].changeFrequency == Weekly
  {
    var r := Sitemap(siteUrl, events);
    forall k | 3 <= k < |r| ensures r[k].changeFrequency == Weekly {
      assert r[k] == r[3 + (k - 3)];
    }
  }
}
