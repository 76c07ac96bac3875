/** The fetcher of the script (`scrape_wiki`, `_is200`): walk the paginated
    category listing from a start URL, collecting the text of every entry,
    following the "next page" link until there is none or the page budget
    is spent. The network and the HTML parser are folded into a page oracle
    `fetch`, a function from URL to what the script gets from that URL. */
module Scrape {
  import opened Wrappers

  /** What a parsed listing page yields: the link text of every entry, in
      page order, and the relative target of the "next page" link if any. */
  datatype Listing = Listing(items: seq<string>, next: Option<string>)

  /** What the script gets for one URL. */
  datatype Page =
    | Unreachable                                   // the GET raised a request exception
    | Fetched(status: int, listing: Option<Listing>) // None: the expected tags are missing

  /** Why `scrape_wiki` gives no list. The first three are the `ValueError`s
      raised before anything is fetched; the other three end the process. */
  datatype ScrapeError =
    | NegativeArgument           // numpages < 0 or delay < 0
    | ZeroPages                  // numpages == 0
    | DelayTooShort              // delay < 1
    | ConnectionFailed           // sys.exit(message): exit status 1
    | UnexpectedStatus(code: int) // sys.exit(message): exit status 1
    | MalformedPage              // sys.exit() after an AttributeError: exit status 0
  {
    predicate IsValueError()
    {
      NegativeArgument? || ZeroPages? || DelayTooShort?
    }
  }

  /** `_is200`: the GET succeeded. */
  predicate Is200(status: int)
  {
    status == 200
  }

  /** The cases of the script's own test of `_is200`. */
  lemma Is200Examples()
    ensures Is200(200) && !Is200(-200)
  {
  }

  /** A page the loop can take items from: fetched, status 200, parsed. */
  predicate Usable(p: Page)
  {
    p.Fetched? && Is200(p.status) && p.listing.Some?
  }

  /** The error a page that is not usable ends the scrape with. */
  function PageError(p: Page): (e: ScrapeError)
    requires !Usable(p)
    ensures !e.IsValueError()
    ensures e == ConnectionFailed <==> p.Unreachable?
    ensures e.UnexpectedStatus? <==> p.Fetched? && p.status != 200
    ensures e.UnexpectedStatus? ==> e.code == p.status
  {
    match p
    case Unreachable => ConnectionFailed
    case Fetched(status, _) => if !Is200(status) then UnexpectedStatus(status) else MalformedPage
  }

  /** The entries of a usable page, nothing otherwise. */
  function ItemsAt(p: Page): seq<string>
  {
    if Usable(p) then p.listing.value.items else []
  }

  /** The "next page" target of a usable page. */
  function NextAt(p: Page): Option<string>
  {
    if Usable(p) then p.listing.value.next else None
  }

  function Prepend(items: seq<string>, r: Result<seq<string>, ScrapeError>): Result<seq<string>, ScrapeError>
  {
    match r
    case Ok(rest) => Ok(items + rest)
    case Err(e) => Err(e)
  }

  lemma PrependConcat(a: seq<string>, b: seq<string>, r: Result<seq<string>, ScrapeError>)
    ensures Prepend([], r) == r
    ensures Prepend(a, Prepend(b, r)) == Prepend(a + b, r)
  {
    if r.Ok? {
      assert [] + r.value == r.value;
      assert a + (b + r.value) == (a + b) + r.value;
    }
  }

  /** What the loop of `scrape_wiki` ends with when it starts at `url` with
      `pages` iterations left. It never fails with an argument error, fails
      only if some page was requested, and succeeds only if the page at
      `url`, when requested, was usable. */
  function Crawl(url: string, mainUrl: string, pages: nat, fetch: string -> Page): (r: Result<seq<string>, ScrapeError>)
    ensures r.Err? ==> pages >= 1 && !r.error.IsValueError()
    ensures r.Ok? && pages >= 1 ==> Usable(fetch(url))
    decreases pages
  {
    if pages == 0 then Ok([])
    else
      var p := fetch(url);
      if !Usable(p) then Err(PageError(p))
      else
        match NextAt(p)
        case None => Ok(ItemsAt(p))
        case Some(href) => Prepend(ItemsAt(p), Crawl(mainUrl + href, mainUrl, pages - 1, fetch))
  }

  /** A successful scrape begins with the entries of the first page. */
  lemma CrawlStartsWithFirstPage(url: string, mainUrl: string, pages: nat, fetch: string -> Page)
    requires pages >= 1 && Crawl(url, mainUrl, pages, fetch).Ok?
    ensures ItemsAt(fetch(url)) <= Crawl(url, mainUrl, pages, fetch).value
  {
  }

  /** The URLs the loop requests, in order. */
  function Visited(url: string, mainUrl: string, pages: nat, fetch: string -> Page): seq<string>
    decreases pages
  {
    if pages == 0 then []
    else
      match NextAt(fetch(url))
      case None => [url]
      case Some(href) => [url] + Visited(mainUrl + href, mainUrl, pages - 1, fetch)
  }

  /** The entries of the pages at `urls`, concatenated in order. */
  function ItemsOf(urls: seq<string>, fetch: string -> Page): seq<string>
  {
    if urls == [] then [] else ItemsAt(fetch(urls[0])) + ItemsOf(urls[1..], fetch)
  }

  /** At most `pages` pages are requested, the first being the start URL;
      each later URL is the site root followed by the "next page" target of
      the page before it, which was usable. */
  lemma {:induction false} VisitedFollowsLinks(url: string, mainUrl: string, pages: nat, fetch: string -> Page)
    ensures |Visited(url, mainUrl, pages, fetch)| <= pages
    ensures pages >= 1 ==> |Visited(url, mainUrl, pages, fetch)| >= 1 && Visited(url, mainUrl, pages, fetch)[0] == url
    ensures var v := Visited(url, mainUrl, pages, fetch);
            forall i :: 0 <= i < |v| - 1 ==>
              Usable(fetch(v[i])) && NextAt(fetch(v[i])).Some? && v[i + 1] == mainUrl + NextAt(fetch(v[i])).value
    decreases pages
  {
    if pages > 0 {
      var p := fetch(url);
      if NextAt(p).Some? {
        var next := mainUrl + NextAt(p).value;
        VisitedFollowsLinks(next, mainUrl, pages - 1, fetch);
        var v := Visited(url, mainUrl, pages, fetch);
        var w := Visited(next, mainUrl, pages - 1, fetch);
        assert v == [url] + w;
        forall i | 0 <= i < |v| - 1
          ensures Usable(fetch(v[i])) && NextAt(fetch(v[i])).Some? && v[i + 1] == mainUrl + NextAt(fetch(v[i])).value
        {
          if i > 0 {
            assert v[i] == w[i - 1] && v[i + 1] == w[i];
          }
        }
      }
    }
  }

  /** The crawl stops early only at a page without a "next page" link (or at
      a page that is not usable): if fewer than `pages` pages were requested,
      the last one had no link to follow. */
  lemma {:induction false} VisitedStopsAtLastPage(url: string, mainUrl: string, pages: nat, fetch: string -> Page)
    requires 0 < |Visited(url, mainUrl, pages, fetch)| < pages
    ensures var v := Visited(url, mainUrl, pages, fetch);
            NextAt(fetch(v[|v| - 1])).None?
    decreases pages
  {
    var p := fetch(url);
    if NextAt(p).Some? {
      var next := mainUrl + NextAt(p).value;
      var w := Visited(next, mainUrl, pages - 1, fetch);
      assert Visited(url, mainUrl, pages, fetch) == [url] + w;
      VisitedStopsAtLastPage(next, mainUrl, pages - 1, fetch);
    }
  }

  /** The scrape succeeds exactly when every requested page is usable, and
      then its result is the entries of those pages, concatenated in the
      order the pages were requested. */
  lemma {:induction false} CrawlCollectsVisitedPages(url: string, mainUrl: string, pages: nat, fetch: string -> Page)
    ensures var v := Visited(url, mainUrl, pages, fetch);
            Crawl(url, mainUrl, pages, fetch).Ok? <==> forall i :: 0 <= i < |v| ==> Usable(fetch(v[i]))
    ensures Crawl(url, mainUrl, pages, fetch).Ok? ==>
              Crawl(url, mainUrl, pages, fetch).value == ItemsOf(Visited(url, mainUrl, pages, fetch), fetch)
    decreases pages
  {
    if pages > 0 {
      var p := fetch(url);
      var v := Visited(url, mainUrl, pages, fetch);
      if NextAt(p).Some? {
        var next := mainUrl + NextAt(p).value;
        CrawlCollectsVisitedPages(next, mainUrl, pages - 1, fetch);
        var w := Visited(next, mainUrl, pages - 1, fetch);
        assert v == [url] + w;
        assert v[1..] == w;
        assert forall i :: 0 <= i < |w| ==> v[i + 1] == w[i];
        if Crawl(url, mainUrl, pages, fetch).Ok? {
          assert ItemsOf(v, fetch) == ItemsAt(p) + ItemsOf(w, fetch);
        } else if Crawl(next, mainUrl, pages - 1, fetch).Err? {
          var j :| 0 <= j < |w| && !Usable(fetch(w[j]));
          assert v[j + 1] == w[j];
        }
      } else {
        assert v == [url];
        assert ItemsOf(v, fetch) == ItemsAt(p) + ItemsOf([], fetch);
      }
    }
  }

  /** A page that is not usable ends the whole scrape with its error and no
      result: it is the last page requested, and every page before it was
      usable. */
  lemma {:induction false} CrawlAbortsAtBadPage(url: string, mainUrl: string, pages: nat, fetch: string -> Page)
    requires Crawl(url, mainUrl, pages, fetch).Err?
    ensures var v := Visited(url, mainUrl, pages, fetch);
            |v| >= 1 && !Usable(fetch(v[|v| - 1]))
            && Crawl(url, mainUrl, pages, fetch).error == PageError(fetch(v[|v| - 1]))
            && forall i :: 0 <= i < |v| - 1 ==> Usable(fetch(v[i]))
    decreases pages
  {
    VisitedFollowsLinks(url, mainUrl, pages, fetch);
    var p := fetch(url);
    if Usable(p) {
      var next := mainUrl + NextAt(p).value;
      CrawlAbortsAtBadPage(next, mainUrl, pages - 1, fetch);
      var w := Visited(next, mainUrl, pages - 1, fetch);
      assert Visited(url, mainUrl, pages, fetch) == [url] + w;
    }
  }

  /** `scrape_wiki(abs_url, main_url, numpages, delay)`: the arguments are
      checked before anything is fetched, then at most `numpages` pages are
      requested. The pause of `delay` seconds between pages is not modelled;
      only its check is. */
  method ScrapeWiki(absUrl: string, mainUrl: string, numpages: int, delay: real, fetch: string -> Page)
    returns (r: Result<seq<string>, ScrapeError>)
    ensures numpages < 0 || delay < 0.0 ==> r == Err(NegativeArgument)
    ensures numpages == 0 && delay >= 0.0 ==> r == Err(ZeroPages)
    ensures numpages > 0 && 0.0 <= delay < 1.0 ==> r == Err(DelayTooShort)
    ensures numpages >= 1 && delay >= 1.0 ==> r == Crawl(absUrl, mainUrl, numpages, fetch)
    ensures (r.Err? && r.error.IsValueError()) <==> !(numpages >= 1 && delay >= 1.0)
  {
    if numpages < 0 || delay < 0.0 {
      return Err(NegativeArgument);
    }
    if numpages == 0 {
      return Err(ZeroPages);
    }
    if delay < 1.0 {
      return Err(DelayTooShort);
    }
    var abbrevs: seq<string> := [];
    var url := absUrl;
    PrependConcat([], [], Crawl(url, mainUrl, numpages, fetch));
    for i := 0 to numpages
      invariant Crawl(absUrl, mainUrl, numpages, fetch) == Prepend(abbrevs, Crawl(url, mainUrl, numpages - i, fetch))
    {
      var page := fetch(url);
      if !Usable(page) {
        assert Crawl(url, mainUrl, numpages - i, fetch) == Err(PageError(page));
      }
      if page.Unreachable? {
        return Err(ConnectionFailed);
      }
      if !Is200(page.status) {
        return Err(UnexpectedStatus(page.status));
      }
      if page.listing.None? {
        return Err(MalformedPage);
      }
      var listing := page.listing.value;
      ghost var before := abbrevs;
      abbrevs := abbrevs + listing.items;
      if listing.next.None? {
        assert Crawl(url, mainUrl, numpages - i, fetch) == Ok(listing.items);
        assert Crawl(absUrl, mainUrl, numpages, fetch) == Ok(abbrevs);
        break;
      }
      var next := mainUrl + listing.next.value;
      assert Crawl(url, mainUrl, numpages - i, fetch)
          == Prepend(listing.items, Crawl(next, mainUrl, numpages - i - 1, fetch));
      PrependConcat(before, listing.items, Crawl(next, mainUrl, numpages - i - 1, fetch));
      url := next;
    }
    assert abbrevs + [] == abbrevs;
    return Ok(abbrevs);
  }
}
