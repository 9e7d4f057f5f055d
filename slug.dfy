/** URL slugs for events and articles: `generateSlug` (identical in src/lib/notion.ts
    and src/lib/notion-articles.ts) and the id fragment that slug lookups extract. */
module Slug {
  import opened Text
  import Seqs

  /** The regex class [a-z0-9]. */
  predicate IsSlugChar(c: char) {
    IsAsciiLower(c) || IsDigit(c)
  }

  /** No two consecutive dashes. */
  predicate NoDoubleDash(s: string) {
    forall i :: 0 <= i < |s| - 1 ==> !(s[i] == '-' && s[i + 1] == '-')
  }

  /** Every character is in [a-z0-9-]. */
  predicate SlugAlphabet(s: string) {
    forall i :: 0 <= i < |s| ==> IsSlugChar(s[i]) || s[i] == '-'
  }

  /** s without its leading run of characters outside [a-z0-9]. */
  function SkipRun(s: string): (r: string)
    ensures |r| <= |s| && r == s[|s| - |r|..]
    ensures r == [] || IsSlugChar(r[0])
    ensures forall i :: 0 <= i < |s| - |r| ==> !IsSlugChar(s[i])
    decreases |s|
  {
    if s != [] && !IsSlugChar(s[0]) then
      var r := SkipRun(s[1..]);
      assert forall i :: 1 <= i < |s| - |r| ==> s[i] == s[1..][i - 1];
      r
    else s
  }

  /** `s.replace(/[^a-z0-9]+/g, "-")`: each maximal run outside [a-z0-9] becomes one dash. */
  function Hyphenate(s: string): (r: string)
    ensures SlugAlphabet(r) && NoDoubleDash(r)
    ensures s != [] && IsSlugChar(s[0]) ==> r != [] && r[0] == s[0]
    decreases |s|
  {
    if s == [] then []
    else if IsSlugChar(s[0]) then [s[0]] + Hyphenate(s[1..])
    else "-" + Hyphenate(SkipRun(s[1..]))
  }

  /** `s.replace(/^-|-$/g, "")`: one leading and one trailing dash removed. */
  function TrimDashes(s: string): (r: string)
    ensures |r| <= |s|
  {
    var t := if s != [] && s[0] == '-' then s[1..] else s;
    if t != [] && t[|t| - 1] == '-' then t[..|t| - 1] else t
  }

  /** The name part of a slug: lower-cased, runs outside [a-z0-9] turned into single
      dashes, dashes at either end removed. */
  function BaseSlug(name: string): (r: string)
    ensures SlugAlphabet(r) && NoDoubleDash(r)
    ensures r == [] || (r[0] != '-' && r[|r| - 1] != '-')
  {
    var h := Hyphenate(Lower(name));
    var r := TrimDashes(h);
    assert r == h[..|r|] || r == h[1..][..|r|] || r == h[1..];
    r
  }

  /** The id part of a slug: the last 12 characters of the id with its dashes removed. */
  function IdSuffix(id: string): (r: string)
    ensures '-' !in r
    ensures |r| == if |RemoveChar(id, '-')| < 12 then |RemoveChar(id, '-')| else 12
    ensures EndsWith(RemoveChar(id, '-'), r)
  {
    TakeLast(RemoveChar(id, '-'), 12)
  }

  /** generateSlug(name, id) */
  function GenerateSlug(name: string, id: string): (r: string)
    ensures |r| == |BaseSlug(name)| + 1 + |IdSuffix(id)|
    ensures r[..|BaseSlug(name)|] == BaseSlug(name) && r[|BaseSlug(name)|] == '-'
    ensures r[|BaseSlug(name)| + 1..] == IdSuffix(id)
  {
    BaseSlug(name) + "-" + IdSuffix(id)
  }

  /** `s.split("-").pop()`: the text after the last dash, or all of s when it has none. */
  function LastSegment(s: string): (r: string)
    ensures '-' !in r
    ensures EndsWith(s, r)
    ensures |r| < |s| ==> s[|s| - |r| - 1] == '-'
  {
    if s == [] || s[|s| - 1] == '-' then []
    else
      var init := LastSegment(s[..|s| - 1]);
      assert s[..|s| - 1][|s| - 1 - |init|..] == s[|s| - 1 - |init|..|s| - 1];
      init + [s[|s| - 1]]
  }

  /** The last segment of `prefix + "-" + tail` is `tail` when tail has no dash. */
  lemma {:induction false} LastSegmentOfJoin(prefix: string, tail: string)
    requires '-' !in tail
    ensures LastSegment(prefix + "-" + tail) == tail
    decreases |tail|
  {
    var s := prefix + "-" + tail;
    if tail == [] {
      assert s[|s| - 1] == '-';
    } else {
      var init := tail[..|tail| - 1];
      assert s[..|s| - 1] == prefix + "-" + init;
      assert s[|s| - 1] == tail[|tail| - 1];
      LastSegmentOfJoin(prefix, init);
      assert tail == init + [tail[|tail| - 1]];
    }
  }

  /** Round trip: for an id with at least 12 characters besides dashes, the segment a
      lookup extracts from its slug is 12 long and is the tail of the dashless id. */
  lemma SlugRoundTrip(name: string, id: string)
    requires |RemoveChar(id, '-')| >= 12
    ensures LastSegment(GenerateSlug(name, id)) == IdSuffix(id)
    ensures |LastSegment(GenerateSlug(name, id))| == 12
    ensures EndsWith(RemoveChar(id, '-'), LastSegment(GenerateSlug(name, id)))
  {
    LastSegmentOfJoin(BaseSlug(name), IdSuffix(id));
  }

  /** When the id has fewer than 12 characters besides dashes, the extracted segment is
      shorter than 12, so lookups reject the slug before querying. */
  lemma ShortIdSlugIsRejected(name: string, id: string)
    requires |RemoveChar(id, '-')| < 12
    ensures |LastSegment(GenerateSlug(name, id))| < 12
  {
    LastSegmentOfJoin(BaseSlug(name), IdSuffix(id));
  }

  lemma {:induction false} RemoveCharConcat(a: string, b: string, c: char)
    ensures RemoveChar(a + b, c) == RemoveChar(a, c) + RemoveChar(b, c)
    decreases |a|
  {
    if a == [] {
      assert a + b == b;
    } else {
      assert (a + b)[1..] == a[1..] + b;
      RemoveCharConcat(a[1..], b, c);
    }
  }

  lemma {:induction false} SkippedRunHasNoSlugChars(s: string)
    ensures Seqs.Filter(SkipRun(s), IsSlugChar) == Seqs.Filter(s, IsSlugChar)
    decreases |s|
  {
    if s != [] && !IsSlugChar(s[0]) {
      SkippedRunHasNoSlugChars(s[1..]);
    }
  }

  /** Hyphenation keeps every [a-z0-9] character, in order, and adds only dashes. */
  lemma {:induction false} HyphenateKeepsSlugChars(s: string)
    ensures RemoveChar(Hyphenate(s), '-') == Seqs.Filter(s, IsSlugChar)
    decreases |s|
  {
    if s != [] {
      if IsSlugChar(s[0]) {
        HyphenateKeepsSlugChars(s[1..]);
        RemoveCharConcat([s[0]], Hyphenate(s[1..]), '-');
      } else {
        SkippedRunHasNoSlugChars(s[1..]);
        HyphenateKeepsSlugChars(SkipRun(s[1..]));
        RemoveCharConcat("-", Hyphenate(SkipRun(s[1..])), '-');
      }
    }
  }

  lemma TrimDashesKeepsOthers(s: string)
    ensures RemoveChar(TrimDashes(s), '-') == RemoveChar(s, '-')
  {
    var t := if s != [] && s[0] == '-' then s[1..] else s;
    if s != [] && s[0] == '-' {
      RemoveCharConcat([s[0]], s[1..], '-');
      assert s == [s[0]] + s[1..];
    }
    if t != [] && t[|t| - 1] == '-' {
      RemoveCharConcat(t[..|t| - 1], [t[|t| - 1]], '-');
      assert t == t[..|t| - 1] + [t[|t| - 1]];
    }
  }

  /** The base slug is exactly the name's [a-z0-9] characters after lower-casing, in
      order, with single dashes between the runs: deleting its dashes gives them back. */
  lemma BaseSlugContent(name: string)
    ensures RemoveChar(BaseSlug(name), '-') == Seqs.Filter(Lower(name), IsSlugChar)
  {
    HyphenateKeepsSlugChars(Lower(name));
    TrimDashesKeepsOthers(Hyphenate(Lower(name)));
  }
}
