/**
 * Fetching both sources.  The network is a map from URL to the response the
 * server would give; a URL it does not hold stands for a transport failure.
 * Basic-auth credentials are folded into that map: it is the server as seen
 * with the configured user name and API key.
 */
module Sources {
  import opened Wrappers
  import opened Articles

  /** A response body as the HTTP client hands it over: a decoded JSON list, an
      XML text that parses to a feed, or something that is neither. */
  datatype Body = Json(items: seq<QiitaItem>) | Xml(feed: Feed) | Unparsable

  datatype Response = Response(status: int, body: Body)

  type Server = map<string, Response>

  /** Why a fetch was rejected. */
  datatype FetchError =
    | TransportError(url: string)          // no response at all
    | RequestError(url: string, status: int) // a response with status >= 300
    | NotAList                             // `data.map` on a body that is not a JSON list
    | PageRejected(error: PageError)       // `reject('error')` from the feed extractor

  /** `getJSON` / `getJSONWithAuth`: the body of a response whose status is below 300. */
  function GetJSON(server: Server, url: string): (r: Result<Body, FetchError>)
    ensures r.Success? <==> url in server && server[url].status < 300
    ensures r.Success? ==> r.value == server[url].body
    ensures url !in server ==> r == Failure(TransportError(url))
    ensures url in server && server[url].status >= 300 ==> r == Failure(RequestError(url, server[url].status))
  {
    if url !in server then Failure(TransportError(url))
    else if server[url].status < 300 then Success(server[url].body)
    else Failure(RequestError(url, server[url].status))
  }

  /** `getQiitaAritcle`: one request, then one record per listed item. */
  function GetQiitaArticle(server: Server, qiitaURL: string): (r: Result<seq<ArticleInfo>, FetchError>)
    ensures r.Success? <==> GetJSON(server, qiitaURL).Success? && GetJSON(server, qiitaURL).value.Json?
    ensures r.Success? ==> r.value == ExtractQiitaInfo(server[qiitaURL].body.items)
  {
    match GetJSON(server, qiitaURL)
    case Failure(e) => Failure(e)
    case Success(body) =>
      if body.Json? then Success(ExtractQiitaInfo(body.items)) else Failure(NotAList)
  }

  /** One iteration's fetch and extraction: `getJSONWithAuth` then `extractHatenaBlogInfo`. */
  function FetchPage(server: Server, url: string): (r: Result<PageInfo, FetchError>)
    ensures r.Success? <==>
      && GetJSON(server, url).Success?
      && server[url].body.Xml?
      && ExtractHatenaBlogInfo(server[url].body.feed).Success?
    ensures r.Success? ==> r.value == ExtractHatenaBlogInfo(server[url].body.feed).value
  {
    match GetJSON(server, url)
    case Failure(e) => Failure(e)
    case Success(body) =>
      if !body.Xml? then Failure(PageRejected(ParseError))
      else match ExtractHatenaBlogInfo(body.feed)
        case Failure(e) => Failure(PageRejected(e))
        case Success(page) => Success(page)
  }

  /** How the pagination walk ends.  `Unfinished` means the fuel ran out: the
      script itself has no bound and would still be fetching. */
  datatype WalkOutcome = Done(articles: seq<ArticleInfo>) | Failed(error: FetchError) | Unfinished

  /** Records gathered before a walk that continues with outcome `o`. */
  function Prepend(articles: seq<ArticleInfo>, o: WalkOutcome): WalkOutcome {
    match o
    case Done(rest) => Done(articles + rest)
    case _ => o
  }

  lemma PrependAppend(a: seq<ArticleInfo>, b: seq<ArticleInfo>, o: WalkOutcome)
    ensures Prepend(a, Prepend(b, o)) == Prepend(a + b, o)
  {
    if o.Done? { assert a + (b + o.articles) == (a + b) + o.articles; }
  }

  /** A page source: what fetching and extracting the page at a URL gives. */
  type Fetcher = string -> Result<PageInfo, FetchError>

  /** The page source of `getHatenaArticle`: `FetchPage` against `server`. */
  function PageFetcher(server: Server): Fetcher {
    (url: string) => FetchPage(server, url)
  }

  /** The walk from `url` with at most `fuel` fetches. */
  function Walk(fetch: Fetcher, url: string, fuel: nat): WalkOutcome
    decreases fuel
  {
    if fuel == 0 then Unfinished
    else match fetch(url)
      case Failure(e) => Failed(e)
      case Success(page) =>
        match page.nextLink
        case None => Done(page.articles)
        case Some(next) => Prepend(page.articles, Walk(fetch, next, fuel - 1))
  }

  /** `getHatenaArticle`: follow `next` links from `hatenaURL`, appending each
      page's records, until a page has no `next` link; at most `fuel` fetches.
      `fetch` is one iteration's `getJSONWithAuth` and `extractHatenaBlogInfo`;
      a run passes `PageFetcher(server)`. */
  method GetHatenaArticle(fetch: Fetcher, hatenaURL: string, fuel: nat) returns (r: WalkOutcome)
    ensures r == Walk(fetch, hatenaURL, fuel)
  {
    var articles: seq<ArticleInfo> := [];
    var nextLink: Option<string> := Some(hatenaURL);
    var fetched: nat := 0;
    while nextLink.Some?
      invariant fetched <= fuel
      invariant Walk(fetch, hatenaURL, fuel) ==
        if nextLink.Some? then Prepend(articles, Walk(fetch, nextLink.value, fuel - fetched)) else Done(articles)
      decreases fuel - fetched
    {
      if fetched == fuel {
        return Unfinished;
      }
      var el := fetch(nextLink.value);
      if el.Failure? {
        return Failed(el.error);
      }
      PrependAppend(articles, el.value.articles, if el.value.nextLink.Some?
        then Walk(fetch, el.value.nextLink.value, fuel - fetched - 1) else Done([]));
      assert el.value.articles + [] == el.value.articles;
      nextLink := el.value.nextLink;
      articles := articles + el.value.articles;
      fetched := fetched + 1;
    }
    return Done(articles);
  }

  /** The fuel is only a bound: a walk that ends (with records or with a
      rejection) ends the same way with any larger bound. */
  lemma {:induction false} WalkFuelMonotone(fetch: Fetcher, url: string, fuel: nat, more: nat)
    requires fuel <= more && Walk(fetch, url, fuel) != Unfinished
    ensures Walk(fetch, url, more) == Walk(fetch, url, fuel)
    decreases fuel
  {
    var page := fetch(url);
    if page.Success? && page.value.nextLink.Some? {
      var next := page.value.nextLink.value;
      assert Walk(fetch, next, fuel - 1) != Unfinished;
      WalkFuelMonotone(fetch, next, fuel - 1, more - 1);
    }
  }

  /** There is no cycle guard: when the `next` links of fetchable pages form a
      cycle, a walk entering it never ends, whatever the bound. */
  lemma {:induction false} WalkCycleNeverEnds(fetch: Fetcher, cycle: seq<string>, k: nat, fuel: nat)
    requires k < |cycle|
    requires forall i :: 0 <= i < |cycle| ==> fetch(cycle[i]).Success?
    requires forall i :: 0 <= i < |cycle| - 1 ==> fetch(cycle[i]).value.nextLink == Some(cycle[i + 1])
    requires fetch(cycle[|cycle| - 1]).value.nextLink == Some(cycle[0])
    ensures Walk(fetch, cycle[k], fuel) == Unfinished
    decreases fuel
  {
    if fuel > 0 {
      var k' := if k + 1 < |cycle| then k + 1 else 0;
      var page := fetch(cycle[k]);
      assert page.Success? && page.value.nextLink == Some(cycle[k']);
      WalkCycleNeverEnds(fetch, cycle, k', fuel - 1);
      assert Walk(fetch, cycle[k], fuel) == Prepend(page.value.articles, Walk(fetch, cycle[k'], fuel - 1));
    }
  }

  /** `urls` is a chain of pages that all fetch, starting at `start`, each the
      `next` link of the one before, the last one without a `next` link. */
  ghost predicate FollowsLinks(fetch: Fetcher, start: string, urls: seq<string>) {
    && |urls| > 0 && urls[0] == start
    && (forall i :: 0 <= i < |urls| ==> fetch(urls[i]).Success?)
    && (forall i :: 0 <= i < |urls| - 1 ==> fetch(urls[i]).value.nextLink == Some(urls[i + 1]))
    && fetch(urls[|urls| - 1]).value.nextLink.None?
  }

  /** The records of the pages at `urls`, page after page. */
  function Collected(fetch: Fetcher, urls: seq<string>): seq<ArticleInfo>
    requires forall i :: 0 <= i < |urls| ==> fetch(urls[i]).Success?
  {
    if urls == [] then [] else fetch(urls[0]).value.articles + Collected(fetch, urls[1..])
  }

  /** The URLs a walk fetches, in fetch order; a rejected fetch is the last one. */
  function Visited(fetch: Fetcher, url: string, fuel: nat): seq<string>
    decreases fuel
  {
    if fuel == 0 then []
    else match fetch(url)
      case Failure(_) => [url]
      case Success(page) =>
        match page.nextLink
        case None => [url]
        case Some(next) => [url] + Visited(fetch, next, fuel - 1)
  }

  /** A walk along a chain that ends returns the chain's records in fetch order,
      given enough fuel to fetch every page of it. */
  lemma {:induction false} WalkComplete(fetch: Fetcher, start: string, urls: seq<string>, fuel: nat)
    requires FollowsLinks(fetch, start, urls) && |urls| <= fuel
    ensures Walk(fetch, start, fuel) == Done(Collected(fetch, urls))
    decreases fuel
  {
    var page := fetch(start).value;
    if |urls| == 1 {
      assert Collected(fetch, urls) == page.articles + Collected(fetch, []);
    } else {
      assert page.nextLink == Some(urls[1]);
      assert FollowsLinks(fetch, urls[1], urls[1..]) by {
        forall i | 0 <= i < |urls[1..]| - 1
          ensures fetch(urls[1..][i]).value.nextLink == Some(urls[1..][i + 1])
        {
          assert urls[1..][i] == urls[i + 1];
        }
      }
      WalkComplete(fetch, urls[1], urls[1..], fuel - 1);
    }
  }

  /** A fetched page whose `next` link starts a chain starts a longer chain. */
  lemma FollowsLinksCons(fetch: Fetcher, start: string, next: string, rest: seq<string>)
    requires fetch(start).Success? && fetch(start).value.nextLink == Some(next)
    requires FollowsLinks(fetch, next, rest)
    ensures FollowsLinks(fetch, start, [start] + rest)
  {
    var urls := [start] + rest;
    forall i | 0 <= i < |urls|
      ensures fetch(urls[i]).Success?
    {
      if i > 0 { assert urls[i] == rest[i - 1]; }
    }
    forall i | 0 <= i < |urls| - 1
      ensures fetch(urls[i]).value.nextLink == Some(urls[i + 1])
    {
      if i > 0 { assert urls[i] == rest[i - 1]; }
    }
    assert urls[|urls| - 1] == rest[|rest| - 1];
  }

  /** A walk that ends with records fetched exactly the chain of pages from
      `start` to the first page without a `next` link, and returns their
      records in fetch order. */
  lemma {:induction false} WalkSound(fetch: Fetcher, start: string, fuel: nat)
    requires Walk(fetch, start, fuel).Done?
    ensures FollowsLinks(fetch, start, Visited(fetch, start, fuel))
    ensures |Visited(fetch, start, fuel)| <= fuel
    ensures Walk(fetch, start, fuel).articles == Collected(fetch, Visited(fetch, start, fuel))
    decreases fuel
  {
    var first := fetch(start);
    assert first.Success?;
    var page := first.value;
    var urls := Visited(fetch, start, fuel);
    if page.nextLink.None? {
      assert urls == [start];
      assert Collected(fetch, urls) == page.articles + Collected(fetch, []);
    } else {
      var next := page.nextLink.value;
      assert Walk(fetch, start, fuel) == Prepend(page.articles, Walk(fetch, next, fuel - 1));
      WalkSound(fetch, next, fuel - 1);
      var rest := Visited(fetch, next, fuel - 1);
      assert urls == [start] + rest;
      FollowsLinksCons(fetch, start, next, rest);
      assert urls[1..] == rest;
      assert Collected(fetch, urls) == page.articles + Collected(fetch, rest);
    }
  }

  /** A chain of pages whose last fetch is rejected makes the whole walk fail
      with that rejection: the records of the pages already read are dropped. */
  lemma {:induction false} WalkRejected(fetch: Fetcher, start: string, urls: seq<string>, fuel: nat, e: FetchError)
    requires |urls| > 0 && urls[0] == start && |urls| <= fuel
    requires forall i :: 0 <= i < |urls| - 1 ==>
      fetch(urls[i]).Success? && fetch(urls[i]).value.nextLink == Some(urls[i + 1])
    requires fetch(urls[|urls| - 1]) == Failure(e)
    ensures Walk(fetch, start, fuel) == Failed(e)
    decreases fuel
  {
    if |urls| > 1 {
      var page := fetch(start).value;
      assert page.nextLink == Some(urls[1]);
      forall i | 0 <= i < |urls[1..]| - 1
        ensures fetch(urls[1..][i]).Success? && fetch(urls[1..][i]).value.nextLink == Some(urls[1..][i + 1])
      {
        assert urls[1..][i] == urls[i + 1];
      }
      WalkRejected(fetch, urls[1], urls[1..], fuel - 1, e);
    }
  }

  /** A walk that fails followed `next` links from `start` through pages that
      were fetched, and its error is the rejection of the last page it tried. */
  lemma {:induction false} WalkFailedSound(fetch: Fetcher, start: string, fuel: nat)
    requires Walk(fetch, start, fuel).Failed?
    ensures var urls := Visited(fetch, start, fuel);
      && |urls| > 0 && urls[0] == start && |urls| <= fuel
      && (forall i :: 0 <= i < |urls| - 1 ==>
            fetch(urls[i]).Success? && fetch(urls[i]).value.nextLink == Some(urls[i + 1]))
      && fetch(urls[|urls| - 1]) == Failure(Walk(fetch, start, fuel).error)
    decreases fuel
  {
    var first := fetch(start);
    var urls := Visited(fetch, start, fuel);
    if first.Success? {
      var next := first.value.nextLink.value;
      assert Walk(fetch, start, fuel) == Prepend(first.value.articles, Walk(fetch, next, fuel - 1));
      WalkFailedSound(fetch, next, fuel - 1);
      var rest := Visited(fetch, next, fuel - 1);
      assert urls == [start] + rest;
      forall i | 0 <= i < |urls| - 1
        ensures fetch(urls[i]).Success? && fetch(urls[i]).value.nextLink == Some(urls[i + 1])
      {
        if i > 0 { assert urls[i] == rest[i - 1]; }
      }
      assert urls[|urls| - 1] == rest[|rest| - 1];
    }
  }
}
