/**
 * The article record shared by both sources, and the two source adapters that
 * build it: one from the Qiita JSON listing, one from a parsed Hatena Atom feed
 * page.  Raw responses arrive already decoded: a Qiita item carries its
 * `updated_at` and an Atom entry its `published` as epoch milliseconds.
 */
module Articles {
  import opened Wrappers

  /** The source tag written into every record. */
  datatype Tag = Qiita | Hatena {
    /** The string the script stores in the `tag` field. */
    function Name(): string {
      match this
      case Qiita => "Qiita"
      case Hatena => "Hatena"
    }
  }

  /** One article, whatever its source.  `url` is `undefined` for a Hatena
      entry that has no alternate link. */
  datatype ArticleInfo = ArticleInfo(url: Option<string>, title: string, tag: Tag, date: int)

  /** One item of the Qiita JSON listing (`updated_at` already parsed). */
  datatype QiitaItem = QiitaItem(url: string, title: string, updatedAt: int)

  /** A `<link rel=... href=...>` element of an Atom feed or entry. */
  datatype FeedLink = FeedLink(rel: string, href: string)

  /** An Atom `<entry>` (`published` already parsed); an empty `links` means the
      entry has no `<link>` child at all. */
  datatype Entry = Entry(title: string, published: int, links: seq<FeedLink>)

  /** A parsed Atom `<feed>` page; an empty sequence means the child element is absent. */
  datatype Feed = Feed(links: seq<FeedLink>, entries: seq<Entry>)

  /** What one feed page yields: its records and its `next` link. */
  datatype PageInfo = PageInfo(articles: seq<ArticleInfo>, nextLink: Option<string>)

  /** The rejection of a page whose parse or extraction failed (`reject('error')`). */
  datatype PageError = ParseError

  /** The record built from Qiita item `item`. */
  function QiitaRecord(item: QiitaItem): ArticleInfo {
    ArticleInfo(Some(item.url), item.title, Qiita, item.updatedAt)
  }

  /** `data.map(...)`: one record per item, in order. */
  function ExtractQiitaInfo(data: seq<QiitaItem>): (r: seq<ArticleInfo>)
    ensures |r| == |data|
    ensures forall i :: 0 <= i < |data| ==>
      r[i].url == Some(data[i].url) && r[i].title == data[i].title &&
      r[i].tag == Qiita && r[i].date == data[i].updatedAt
  {
    if data == [] then [] else [QiitaRecord(data[0])] + ExtractQiitaInfo(data[1..])
  }

  /** `link.filter(elem => elem.$.rel === rel).map(elem => elem.$.href)`. */
  function Hrefs(links: seq<FeedLink>, rel: string): seq<string> {
    if links == [] then []
    else (if links[0].rel == rel then [links[0].href] else []) + Hrefs(links[1..], rel)
  }

  /** Index `[0]` of the filtered hrefs: `undefined` when nothing matched. */
  function FirstHref(links: seq<FeedLink>, rel: string): Option<string> {
    var hs := Hrefs(links, rel);
    if |hs| > 0 then Some(hs[0]) else None
  }

  /** `FirstHref` selects the first link whose `rel` matches, and finds
      nothing exactly when no link matches. */
  lemma {:induction false} FirstHrefIsFirstMatch(links: seq<FeedLink>, rel: string)
    ensures FirstHref(links, rel).None? <==> forall i :: 0 <= i < |links| ==> links[i].rel != rel
    ensures FirstHref(links, rel).Some? ==>
      exists i :: 0 <= i < |links| && links[i].rel == rel && links[i].href == FirstHref(links, rel).value &&
        forall j :: 0 <= j < i ==> links[j].rel != rel
  {
    if links != [] {
      FirstHrefIsFirstMatch(links[1..], rel);
      if links[0].rel != rel {
        if FirstHref(links, rel).Some? {
          var i :| 0 <= i < |links[1..]| && links[1..][i].rel == rel && links[1..][i].href == FirstHref(links[1..], rel).value &&
            forall j :: 0 <= j < i ==> links[1..][j].rel != rel;
          assert links[i + 1].rel == rel;
          forall j | 0 <= j < i + 1 ensures links[j].rel != rel {
            if j > 0 { assert links[j] == links[1..][j - 1]; }
          }
        } else {
          forall i | 0 <= i < |links| ensures links[i].rel != rel {
            if i > 0 { assert links[i] == links[1..][i - 1]; }
          }
        }
      }
    }
  }

  /** `getHatenaArticleLink`: the href of the first `alternate` link, if any. */
  function HatenaArticleLink(links: seq<FeedLink>): (r: Option<string>)
    ensures r.None? <==> forall i :: 0 <= i < |links| ==> links[i].rel != "alternate"
    ensures r.Some? ==>
      exists i :: 0 <= i < |links| && links[i].rel == "alternate" && links[i].href == r.value &&
        forall j :: 0 <= j < i ==> links[j].rel != "alternate"
  {
    FirstHrefIsFirstMatch(links, "alternate");
    FirstHref(links, "alternate")
  }

  /** `getHatenaNextLink`: the href of the first `next` link, if any. */
  function HatenaNextLink(links: seq<FeedLink>): (r: Option<string>)
    ensures r.None? <==> forall i :: 0 <= i < |links| ==> links[i].rel != "next"
    ensures r.Some? ==>
      exists i :: 0 <= i < |links| && links[i].rel == "next" && links[i].href == r.value &&
        forall j :: 0 <= j < i ==> links[j].rel != "next"
  {
    FirstHrefIsFirstMatch(links, "next");
    FirstHref(links, "next")
  }

  /** `getHatenaEntry`: the record built from one Atom entry. */
  function HatenaEntry(entry: Entry): (r: ArticleInfo)
    ensures r.tag == Hatena && r.title == entry.title && r.date == entry.published
    ensures r.url.None? <==> forall i :: 0 <= i < |entry.links| ==> entry.links[i].rel != "alternate"
    ensures r.url.Some? ==>
      exists i :: 0 <= i < |entry.links| && entry.links[i].rel == "alternate" && entry.links[i].href == r.url.value &&
        forall j :: 0 <= j < i ==> entry.links[j].rel != "alternate"
  {
    ArticleInfo(HatenaArticleLink(entry.links), entry.title, Hatena, entry.published)
  }

  /** True when `entries.map(getHatenaEntry)` runs without touching an
      undefined `entry.link`. */
  predicate EntriesHaveLinks(entries: seq<Entry>) {
    forall i :: 0 <= i < |entries| ==> |entries[i].links| > 0
  }

  /** `entries.map(getHatenaEntry)`. */
  function HatenaEntries(entries: seq<Entry>): (r: seq<ArticleInfo>)
    ensures |r| == |entries|
    ensures forall i :: 0 <= i < |entries| ==> r[i] == HatenaEntry(entries[i])
  {
    if entries == [] then [] else [HatenaEntry(entries[0])] + HatenaEntries(entries[1..])
  }

  /** `extractHatenaBlogInfo` after the XML parse: the page's records and its
      `next` link.  The page is rejected when a `.filter` or `.map` would run on
      an absent element: no `<link>` under the feed, no `<entry>`, or an entry
      without `<link>`. */
  function ExtractHatenaBlogInfo(feed: Feed): (r: Result<PageInfo, PageError>)
    ensures r.Success? <==> |feed.links| > 0 && |feed.entries| > 0 && EntriesHaveLinks(feed.entries)
    ensures r.Success? ==>
      && r.value.nextLink == HatenaNextLink(feed.links)
      && |r.value.articles| == |feed.entries|
      && forall i :: 0 <= i < |feed.entries| ==>
           var a := r.value.articles[i];
           a.tag == Hatena && a.title == feed.entries[i].title && a.date == feed.entries[i].published &&
           a.url == HatenaArticleLink(feed.entries[i].links)
  {
    if |feed.links| == 0 || |feed.entries| == 0 || !EntriesHaveLinks(feed.entries) then Failure(ParseError)
    else Success(PageInfo(HatenaEntries(feed.entries), HatenaNextLink(feed.links)))
  }
}
