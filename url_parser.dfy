/** The crawler of src/url_parser.py: the filter for Wikipedia article URLs
    and the breadth-first collection of article URLs from a start page.
    `urlparse` and the fetch-and-extract-links step are oracles: a URL's
    components are given by `split`, a page's absolute link targets by
    `links` (None when the request raises or returns an error status). */
module UrlParserModel {
  import opened Common

  /** The components `urlparse` yields that the filter looks at. */
  datatype UrlParts = UrlParts(scheme: string, netloc: string, path: string)

  type Splitter = string -> UrlParts
  type Links = string -> Option<seq<string>>

  /** Some language string occurs in the network location. */
  predicate AnyLanguage(netloc: string, languages: seq<string>)
  {
    exists i :: 0 <= i < |languages| && Contains(netloc, languages[i])
  }

  /** `is_valid_url`: an http(s) Wikipedia host naming one of the languages,
      and an article path: under "/wiki/", without ':' and not the main
      page. */
  predicate IsValidUrl(p: UrlParts, languages: seq<string>)
  {
    (p.scheme == "http" || p.scheme == "https") &&
    Contains(p.netloc, "wikipedia.org") &&
    AnyLanguage(p.netloc, languages) &&
    StartsWith(p.path, "/wiki/") && !Contains(p.path, ":") && !Contains(p.path, "/wiki/Main_Page")
  }

  /** With no languages no URL passes the filter. */
  lemma NoLanguagesNoUrls(p: UrlParts)
    ensures !IsValidUrl(p, [])
  {
  }

  lemma {:induction false} ContainsTrans(a: string, b: string, c: string)
    requires Contains(a, b) && Contains(b, c)
    ensures Contains(a, c)
  {
    var i := ContainsWitness(a, b);
    var j := ContainsWitness(b, c);
    assert a[i..i + |b|] == b;
    forall t | 0 <= t < |c| ensures a[i + j + t] == c[t] {
      assert a[i + j + t] == a[i..i + |b|][j + t] == b[j + t] == b[j..j + |c|][t];
    }
    assert a[i + j..i + j + |c|] == c;
    ContainsAt(a, c, i + j);
  }

  /** The language test is by substring of the whole host: a language string
      that occurs in "wikipedia.org" itself (such as "ia" or "or") lets every
      Wikipedia host through, so the filter then ignores the language. */
  lemma LanguageInHostName(p: UrlParts, languages: seq<string>, k: nat)
    requires k < |languages| && Contains("wikipedia.org", languages[k])
    ensures IsValidUrl(p, languages) <==>
      (p.scheme == "http" || p.scheme == "https") && Contains(p.netloc, "wikipedia.org") &&
      StartsWith(p.path, "/wiki/") && !Contains(p.path, ":") && !Contains(p.path, "/wiki/Main_Page")
  {
    if Contains(p.netloc, "wikipedia.org") {
      ContainsTrans(p.netloc, "wikipedia.org", languages[k]);
    }
  }

  lemma OrInWikipedia()
    ensures Contains("wikipedia.org", "or")
  {
    assert "wikipedia.org"[10..12] == "or";
    ContainsAt("wikipedia.org", "or", 10);
  }

  // ---------------------------------------------------------------------------
  // parse
  // ---------------------------------------------------------------------------

  /** The link loop of one page: a link is appended when it is a valid
      article URL, not yet collected, and the list is still short. */
  function AddLinks(urls: seq<string>, hrefs: seq<string>, maxUrls: int, languages: seq<string>, split: Splitter): (r: seq<string>)
    ensures |urls| <= |r| && r[..|urls|] == urls
    decreases |hrefs|
  {
    if hrefs == [] then urls
    else
      var u := hrefs[0];
      var urls' := if IsValidUrl(split(u), languages) && u !in urls && |urls| < maxUrls then urls + [u] else urls;
      AddLinks(urls', hrefs[1..], maxUrls, languages, split)
  }

  /** The URLs collected so far: the start URL, then distinct valid URLs, no
      more than the bound (or just the start URL). */
  ghost predicate Collected(urls: seq<string>, start: string, maxUrls: int, languages: seq<string>, split: Splitter)
  {
    |urls| >= 1 && urls[0] == start &&
    (|urls| == 1 || |urls| <= maxUrls) &&
    (forall a, b :: 0 <= a < b < |urls| ==> urls[a] != urls[b]) &&
    (forall t :: 1 <= t < |urls| ==> IsValidUrl(split(urls[t]), languages))
  }

  /** Every URL after the start was a link of a page listed before it. */
  ghost predicate FromEarlier(urls: seq<string>, links: Links)
  {
    forall t :: 1 <= t < |urls| ==>
      exists p :: 0 <= p < t && links(urls[p]).Some? && urls[t] in links(urls[p]).value
  }

  /** The link loop keeps the collection well formed; what it adds are links
      of the page it expands. */
  lemma {:induction false} AddLinksSpec(urls: seq<string>, hrefs: seq<string>, maxUrls: int, languages: seq<string>, split: Splitter, start: string)
    requires Collected(urls, start, maxUrls, languages, split)
    ensures var r := AddLinks(urls, hrefs, maxUrls, languages, split);
      Collected(r, start, maxUrls, languages, split) &&
      (forall t :: |urls| <= t < |r| ==> r[t] in hrefs)
    decreases |hrefs|
  {
    if hrefs != [] {
      var u := hrefs[0];
      var urls' := if IsValidUrl(split(u), languages) && u !in urls && |urls| < maxUrls then urls + [u] else urls;
      AddLinksSpec(urls', hrefs[1..], maxUrls, languages, split, start);
      var r := AddLinks(urls', hrefs[1..], maxUrls, languages, split);
      forall t | |urls| <= t < |r| ensures r[t] in hrefs {
        if t >= |urls'| {
          assert r[t] in hrefs[1..];
        } else {
          assert r[t] == urls'[t] == u;
        }
      }
    }
  }

  /** Whatever list the link loop starts from, what it appends is valid and
      new, and it only grows a list that is below the bound. */
  lemma {:induction false} AddLinksFresh(urls: seq<string>, hrefs: seq<string>, maxUrls: int, languages: seq<string>, split: Splitter)
    ensures var r := AddLinks(urls, hrefs, maxUrls, languages, split);
      (|r| > |urls| ==> |r| <= maxUrls) &&
      (forall t :: |urls| <= t < |r| ==> IsValidUrl(split(r[t]), languages) && r[t] !in r[..t])
    decreases |hrefs|
  {
    if hrefs != [] {
      var u := hrefs[0];
      var urls' := if IsValidUrl(split(u), languages) && u !in urls && |urls| < maxUrls then urls + [u] else urls;
      AddLinksFresh(urls', hrefs[1..], maxUrls, languages, split);
      var r := AddLinks(urls', hrefs[1..], maxUrls, languages, split);
      assert AddLinks(urls, hrefs, maxUrls, languages, split) == r;
      if |urls'| > |urls| {
        assert r[..|urls'|] == urls';
        assert r[|urls|] == u && r[..|urls|] == urls;
      }
    }
  }

  /** The crawl from page `ptr` on: it stops as soon as the bound is
      reached and returns the list without the start URL; running out of
      pages to expand raises, a failed fetch returns None. */
  function Crawl(urls: seq<string>, ptr: nat, maxUrls: int, languages: seq<string>, split: Splitter, links: Links): Result<Option<seq<string>>>
    requires 1 <= |urls| && ptr <= |urls|
    decreases maxUrls - ptr
  {
    if |urls| >= maxUrls then Ok(Some(urls[1..]))
    else if ptr == |urls| then Err(IndexOutOfRange)
    else match links(urls[ptr])
      case None => Ok(None)
      case Some(hrefs) => Crawl(AddLinks(urls, hrefs, maxUrls, languages, split), ptr + 1, maxUrls, languages, split, links)
  }

  /** `parse(start_url, max_urls, languages)`. */
  function ParseSpec(start: string, maxUrls: int, languages: seq<string>, split: Splitter, links: Links): Result<Option<seq<string>>>
  {
    Crawl([start], 0, maxUrls, languages, split, links)
  }

  /** A finished crawl returns exactly `max_urls - 1` distinct valid URLs
      (none when the bound is below 2), never the start URL, each a link of
      a page collected before it. */
  lemma {:induction false} CrawlSpec(urls: seq<string>, ptr: nat, maxUrls: int, languages: seq<string>, split: Splitter, links: Links, start: string)
    requires 1 <= |urls| && ptr <= |urls|
    requires Collected(urls, start, maxUrls, languages, split) && FromEarlier(urls, links)
    requires forall p :: 0 <= p < ptr ==> links(urls[p]).Some?
    ensures var r := Crawl(urls, ptr, maxUrls, languages, split, links);
      r.Ok? && r.value.Some? ==>
        exists all: seq<string> ::
          Collected(all, start, maxUrls, languages, split) && FromEarlier(all, links) &&
          r.value.value == all[1..] && |all| == (if maxUrls <= 1 then 1 else maxUrls)
    decreases maxUrls - ptr
  {
    if |urls| >= maxUrls {
      assert urls[1..] == urls[1..];
    } else if ptr < |urls| && links(urls[ptr]).Some? {
      var hrefs := links(urls[ptr]).value;
      var r := AddLinks(urls, hrefs, maxUrls, languages, split);
      assert Crawl(urls, ptr, maxUrls, languages, split, links) == Crawl(r, ptr + 1, maxUrls, languages, split, links);
      AddLinksSpec(urls, hrefs, maxUrls, languages, split, start);
      PrefixAt(urls, r);
      FromEarlierStep(urls, r, ptr, links);
      assert forall p :: 0 <= p < ptr + 1 ==> links(r[p]).Some? by {
        forall p | 0 <= p < ptr + 1 ensures links(r[p]).Some? {
          assert r[p] == urls[p];
        }
      }
      CrawlSpec(r, ptr + 1, maxUrls, languages, split, links, start);
    }
  }

  /** The links of page `ptr` appended to the list keep every URL after the
      first a link of an earlier page. */
  lemma FromEarlierStep(urls: seq<string>, r: seq<string>, ptr: nat, links: Links)
    requires ptr < |urls| <= |r| && forall i :: 0 <= i < |urls| ==> r[i] == urls[i]
    requires FromEarlier(urls, links) && links(urls[ptr]).Some?
    requires forall t :: |urls| <= t < |r| ==> r[t] in links(urls[ptr]).value
    ensures FromEarlier(r, links)
  {
    forall t | 1 <= t < |r|
      ensures exists p :: 0 <= p < t && links(r[p]).Some? && r[t] in links(r[p]).value
    {
      if t < |urls| {
        var p :| 0 <= p < t && links(urls[p]).Some? && urls[t] in links(urls[p]).value;
        assert links(r[p]).Some? && r[t] in links(r[p]).value;
      } else {
        assert links(r[ptr]).Some? && r[t] in links(r[ptr]).value;
      }
    }
  }

  /** A list that starts with `urls` agrees with it index by index. */
  lemma PrefixAt(urls: seq<string>, r: seq<string>)
    requires |urls| <= |r| && r[..|urls|] == urls
    ensures forall i :: 0 <= i < |urls| ==> r[i] == urls[i]
  {
    forall i | 0 <= i < |urls| ensures r[i] == urls[i] {
      assert r[..|urls|][i] == r[i];
    }
  }

  /** What `parse` promises: a list of distinct valid article URLs reached
      from the start page, of length `max_urls - 1`, without the start URL. */
  lemma ParseResult(start: string, maxUrls: int, languages: seq<string>, split: Splitter, links: Links)
    ensures var r := ParseSpec(start, maxUrls, languages, split, links);
      r.Ok? && r.value.Some? ==>
        var xs := r.value.value;
        |xs| == (if maxUrls <= 1 then 0 else maxUrls - 1) &&
        start !in xs &&
        (forall a, b :: 0 <= a < b < |xs| ==> xs[a] != xs[b]) &&
        (forall t :: 0 <= t < |xs| ==> IsValidUrl(split(xs[t]), languages))
  {
    CrawlSpec([start], 0, maxUrls, languages, split, links, start);
    var r := ParseSpec(start, maxUrls, languages, split, links);
    if r.Ok? && r.value.Some? {
      var all :| Collected(all, start, maxUrls, languages, split) && FromEarlier(all, links) &&
        r.value.value == all[1..] && |all| == (if maxUrls <= 1 then 1 else maxUrls);
      var xs := r.value.value;
      forall a, b | 0 <= a < b < |xs| ensures xs[a] != xs[b] {
        assert xs[a] == all[a + 1] && xs[b] == all[b + 1];
      }
      forall t | 0 <= t < |xs| ensures IsValidUrl(split(xs[t]), languages) {
        assert xs[t] == all[t + 1];
      }
    }
  }

  /** A start page whose fetch fails gives None, unless the bound is already
      reached. */
  lemma ParseFetchFails(start: string, maxUrls: int, languages: seq<string>, split: Splitter, links: Links)
    requires links(start).None?
    ensures ParseSpec(start, maxUrls, languages, split, links) ==
      (if maxUrls <= 1 then Ok(Some([])) else Ok(None))
  {
    assert [start][1..] == [];
  }

  /** The link loop, one link at a time. */
  method AddPageLinks(urls: seq<string>, hrefs: seq<string>, maxUrls: int, languages: seq<string>, split: Splitter) returns (r: seq<string>)
    ensures r == AddLinks(urls, hrefs, maxUrls, languages, split)
  {
    r := urls;
    for j := 0 to |hrefs|
      invariant AddLinks(r, hrefs[j..], maxUrls, languages, split) == AddLinks(urls, hrefs, maxUrls, languages, split)
    {
      assert hrefs[j..][0] == hrefs[j] && hrefs[j..][1..] == hrefs[j + 1..];
      var fullUrl := hrefs[j];
      if IsValidUrl(split(fullUrl), languages) && fullUrl !in r && |r| < maxUrls {
        r := r + [fullUrl];
      }
    }
    assert hrefs[|hrefs|..] == [];
  }

  /** `parse`: expand the collected pages in order, one per round, until
      the bound is reached. */
  method Parse(start: string, maxUrls: int, languages: seq<string>, split: Splitter, links: Links) returns (r: Result<Option<seq<string>>>)
    ensures r == ParseSpec(start, maxUrls, languages, split, links)
  {
    var ptr: nat := 0;
    var urls := [start];
    while |urls| < maxUrls
      invariant 1 <= |urls| && ptr <= |urls|
      invariant Crawl(urls, ptr, maxUrls, languages, split, links) == ParseSpec(start, maxUrls, languages, split, links)
      decreases maxUrls - ptr
    {
      if ptr == |urls| {
        return Err(IndexOutOfRange);
      }
      var page := links(urls[ptr]);
      if page.None? {
        return Ok(None);
      }
      urls := AddPageLinks(urls, page.value, maxUrls, languages, split);
      ptr := ptr + 1;
    }
    return Ok(Some(urls[1..]));
  }
}
