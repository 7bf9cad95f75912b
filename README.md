# Blog post aggregator, modelled in Dafny

The repository's two scripts (`assets/js/ts/index.ts` and its compiled
sibling `assets/js/js/index.js`) generate one Markdown file per blog post the
author has published elsewhere. Each run does the following:

1. It reads the Qiita item listing (one JSON request) and turns every item into
   an `ArticleInfo` record.
2. It walks the Hatena Blog AtomPub feed page by page. Each page is fetched
   with basic authentication, and the walk follows the feed's `next` link until
   a page has none.
3. It merges both record lists, Qiita first.
4. It sorts them newest first with a stable three-way comparator.
5. For every record, it issues an asynchronous write of
   `<directory><epoch millis>.md`, unless a file of that name already exists.

The TypeScript script writes the front matter line by line. The JavaScript
script has `js-yaml` dump a table of contents object and wraps it in `---`
lines.

The model has these modules:

- `Articles`: the record, and the Qiita and Hatena adapters.
- `Sources`: the HTTP helpers as a map from URL to response, and the
  pagination walker with a fuel bound.
- `Sorting`: the in-place stable insertion sort over an array.
- `Decimal`: file names from time values.
- `Lines` and `Render`: the file text of both scripts, as lines.
- `Files`: the disk and the writes issued but not yet landed, as a class.
- `Site`: `createArticleFile`, `artilceFactory` and `run`.

A run is parameterised by a `Script` value, which gives the output directory
and the renderer. `TsScript` and `JsScript` are the two scripts.

## Model

| member | source | states |
|---|---|---|
| Articles.ExtractQiitaInfo | assets/js/ts/index.ts:80-89 | one record per listed item, in order: the item's url and title, tag `Qiita`, and `updated_at` as the date |
| Articles.FirstHrefIsFirstMatch | assets/js/js/index.js:120-135 | `filter(rel).map(href)[0]` is the href of the first link with that `rel`, and is `undefined` exactly when no link has it |
| Articles.HatenaArticleLink | assets/js/ts/index.ts:145-152 | the entry url is the href of the first `alternate` link; it is absent exactly when there is no such link |
| Articles.HatenaNextLink | assets/js/ts/index.ts:154-163 | the next page is the href of the first `next` link; it is absent exactly when there is no such link |
| Articles.HatenaEntry | assets/js/ts/index.ts:135-143 | `getHatenaEntry`: tag `Hatena`, the entry's title and `published` time, and as url the href of the first `alternate` link, absent exactly when there is none |
| Articles.HatenaEntries | assets/js/ts/index.ts:117-118 | `entries.map(getHatenaEntry)`: one record per entry, in order |
| Articles.ExtractHatenaBlogInfo | assets/js/ts/index.ts:112-143 | a page is accepted if and only if the feed has links, has entries, and every entry has links. An accepted page yields one record per entry (tag `Hatena`, the entry's title, its `published` time, its alternate link) and the feed's first `next` link |
| Sources.GetJSON | assets/js/ts/index.ts:40-70 | a response resolves with its body if and only if its status is below 300. A status of 300 or more is a request error, and no response is a transport error |
| Sources.GetQiitaArticle | assets/js/ts/index.ts:75-78 | succeeds if and only if the request succeeds and the body is a list, and then yields the extracted records |
| Sources.FetchPage | assets/js/ts/index.ts:101-102 | one loop iteration succeeds if and only if the request succeeds, the body parses as a feed, and the extractor accepts it; it then yields the extractor's page |
| Sources.GetHatenaArticle | assets/js/ts/index.ts:94-108 | the `while (nextLink !== undefined)` loop returns exactly the walk's outcome: the concatenated records, the first rejection, or `Unfinished` when the fuel runs out. `WalkComplete`, `WalkSound`, `WalkRejected` and `WalkFailedSound` describe the walk |
| Sources.WalkFuelMonotone | assets/js/js/index.js:78-90 | the fuel is only a bound: a walk that ends with some fuel ends the same way with more |
| Sources.WalkCycleNeverEnds | assets/js/js/index.js:83-88 | nothing guards against cycles: when `next` links form a cycle of fetchable pages, the walk never ends, whatever the fuel |
| Sources.WalkComplete | assets/js/js/index.js:78-90 | along a chain of pages that ends with a page without a `next` link, the walk returns every page's records in fetch order |
| Sources.WalkSound | assets/js/js/index.js:78-90 | a walk that ends with records visited such a chain, used at most its fuel, and returned exactly that chain's records |
| Sources.WalkRejected | assets/js/ts/index.ts:99-104 | along a chain of pages whose last fetch is rejected, the awaited rejection ends the walk with that error and the records of the pages already read are dropped |
| Sources.WalkFailedSound | assets/js/ts/index.ts:99-104 | a walk that fails followed `next` links from the start URL through fetched pages, within its fuel, and its error is the rejection of the last page it tried |
| Sorting.Compare | assets/js/ts/index.ts:235-239 | the comparator is positive, negative or zero exactly when `l` is earlier than, later than, or as old as `r` |
| Sorting.InsertAt | assets/js/ts/index.ts:235-239 | one insertion pass extends the sorted prefix by one element, never lets two records of one date pass each other, and leaves the rest of the array alone |
| Sorting.SortByDateDesc | assets/js/ts/index.ts:235-239 | the in-place sort leaves the array sorted newest first, and for every date the records keep their relative order (stability) |
| Sorting.SameDateOrderPermutation | assets/js/js/index.js:188-196 | keeping every date's records in order keeps every record: the result is a permutation |
| Sorting.StableSortUnique | assets/js/js/index.js:188-196 | a stable sort newest first has a single possible result: two orderings that are both sorted and stable with respect to the same input are equal |
| Sorting.SortArticles | assets/js/ts/index.ts:225-239 | the merged array after `sort` is sorted newest first, stable, and a permutation of the merged records |
| Decimal.NatDigits | assets/js/ts/index.ts:186 | the rendering of a time value is all digits with no leading zero (a `-` for negative values is added by `Show`) |
| Decimal.ParseShow | assets/js/ts/index.ts:186 | the decimal rendering of a time value reads back as the same value |
| Decimal.FilePathParts | assets/js/ts/index.ts:186-187 | `pathOrg + getTime() + '.md'` is the directory, a name that reads back as the time value, and the `.md` extension |
| Decimal.FilePathInjective | assets/js/js/index.js:145-146 | two records share an output path exactly when they share a time value |
| Render.ArticleContentFactory | assets/js/ts/index.ts:199-220 | the successive `+=` build exactly the sixteen front-matter and body lines, each ended by a newline |
| Render.TsContentFrame | assets/js/ts/index.ts:199-220 | the TypeScript file text starts with `---` and ends with the closing `---`, the sentence, and the URL (`undefined` when absent), each on its own line |
| Render.TsContentLines | assets/js/ts/index.ts:199-220 | the text splits back into exactly its sixteen lines if and only if the title, the date text and the URL hold no newline; the positions of `---`, the title, the tag, the sentence and the URL are fixed |
| Render.ArticleTocFactory | assets/js/js/index.js:159-173 | the front matter opens and closes with a `---` line, with the YAML dump of the record's front matter between them |
| Render.ArticleBody | assets/js/js/index.js:174-177 | the body is the front matter followed by three lines: an empty one, the sentence and the URL |
| Render.JsBodyText | assets/js/js/index.js:159-177 | `articleBody(articleTocFactory(a))` is `---`, the YAML dump, then the lines `---`, an empty line, the sentence and the URL |
| Render.JsBodyLines | assets/js/js/index.js:159-177 | when the dump is a text of whole lines and the URL has no newline, the file's lines are `---`, the dump's lines, `---`, an empty line, the sentence and the URL |
| Render.ToISO8601StringByUTC9 | assets/js/js/index.js:136-139 | the result is the ISO text up to its first `.` (all of it when there is none), followed by `+09:00` |
| Render.ToISO8601DropsFraction | assets/js/js/index.js:136-139 | on `clock.fraction` the clock digits are kept unchanged: only the zone designator changes, and no nine-hour shift is applied |
| Files.FileSystem.ExistsSync | assets/js/ts/index.ts:189 | `existsSync` sees only files that are on disk, not writes still pending |
| Files.FileSystem.WriteFile | assets/js/ts/index.ts:193-196 | `writeFile` changes nothing on disk yet; the eventual disk holds the new data at that path |
| Files.FileSystem.Settle | assets/js/ts/index.ts:193-196 | once the issued writes land, in order, the disk is what was eventually promised |
| Files.ApplyWritten | assets/js/ts/index.ts:193-196 | a path that some write names ends up holding the data of one of those writes, each write taken to land whole |
| Site.CreateArticleFile | assets/js/ts/index.ts:185-197 | if `<dir><millis>.md` exists, nothing is issued; otherwise exactly one write of the rendered text to that path is issued; the disk itself is unchanged |
| Site.ArticleFactory | assets/js/ts/index.ts:180-183 | `forEach(createArticleFile)` issues, in order, one write per record whose file was absent before the run |
| Site.IssuedWritesShape | assets/js/js/index.js:140-158 | every issued write belongs to a record whose file was absent, and every such record has its write issued |
| Site.FactoryOutcome | assets/js/js/index.js:140-158 | after the writes land, existing files are untouched. An absent path gets a file exactly when some record maps to it, and the file holds that record's text, each write taken to land whole |
| Site.DistinctPathsExact | assets/js/ts/index.ts:180-197 | when no two records share a path, each new file holds exactly its own record's text |
| Site.DistinctDatesDistinctPaths | assets/js/ts/index.ts:186-187 | records have pairwise distinct paths exactly when they have pairwise distinct time values |
| Site.SameDateBothIssued | assets/js/ts/index.ts:189-193 | two records with the same time value and no file yet both have their write issued, in record order, when the existence check sees only writes that have landed (one of the possible interleavings) |
| Site.GatherArticles | assets/js/ts/index.ts:224-231 | the fetching half of `run` computes `Gather`, which the three lemmas below describe |
| Site.GatherComplete | assets/js/ts/index.ts:224-231 | when the Qiita list is served and the feed is a chain of pages ending within the fuel, the gathered records are Qiita's items followed by every page's entries in fetch order |
| Site.GatherSound | assets/js/ts/index.ts:224-231 | gathered records imply a served Qiita list and a chain of feed pages from the first feed URL, within the fuel, and are exactly Qiita's items followed by that chain's entries |
| Site.GatherFeedRejected | assets/js/ts/index.ts:227-231 | when the Qiita list is served but the feed walk is rejected, the gathering fails with the feed's error and Qiita's records are dropped |
| Site.GatherQiitaRejected | assets/js/ts/index.ts:227-228 | a rejected Qiita request ends the run with its error, before the feed is fetched |
| Site.Run | assets/js/ts/index.ts:224-242 | a rejected fetch issues no write (`GatherQiitaRejected`, `GatherFeedRejected` and `WalkRejected` say when the gathering is rejected). Otherwise the written list is sorted newest first, stable and a permutation of the gathered records, and exactly its writes are issued |

## Left out

- HTTP, credentials and environment variables are not modelled. The network is
  a map from URL to response. `axios` internals, basic authentication and
  `dotenv` are folded into that map, and an absent URL stands for a transport
  failure.
- XML and JSON decoding are not modelled. Bodies arrive already decoded:
  - A Qiita item carries its `updated_at`, and an Atom entry its `published`,
    as epoch milliseconds.
  - `new Date(...)` parsing, invalid dates (`NaN`) and `Date.prototype.toString`
    are library code. The TypeScript renderer takes the date text as the
    function parameter `dateText`.
  - The xml2js shape (arrays of `{$: {rel, href}}`, arrays for `title`) is
    flattened to `Feed`, `Entry` and `FeedLink`.
- `yaml.dump` is library code. It enters as the parameter `dump`, and only the
  `---` wrapper around it is modelled.
- The order in which asynchronous writes complete is not modelled. Writes land
  in issue order. A failed write (`if (err) throw err`) and the console
  messages are left out.
- `Site.FactoryOutcome` and `Files.ApplyWritten`: each write is taken to land
  whole. `fs.writeFile` opens its file with flag `'w'` and writes from offset
  0, so two writes issued for one path may run as open, open, write, write.
  If the second text is longer than the first, the file then ends with the
  tail of the longer text, which is neither record's text. When no two records
  share a path, only one write is issued per path, so `Site.DistinctPathsExact`
  does not depend on this.
- `Site.ArticleFactory`: `IssuedWrites` checks every path against the disk as
  it was before the run, so a record with the same path as an earlier record also
  has its write issued. In Node, `fs.writeFile` opens its file on the thread
  pool at once, and that open can create the file before the next
  `existsSync` of the same `forEach` runs. The source may then skip the second
  write. The model captures one possible interleaving, the one in which no
  issued write is visible before `Settle`.
- `Site.SameDateBothIssued`: "both issued" holds for that interleaving only.
  Under another interleaving the source issues the first write alone.
- `Sources.GetHatenaArticle`: has a `fuel` bound on the number of pages fetched;
  the script has none. Running out of fuel is the outcome `Unfinished`. The
  lemmas show that the bound changes nothing for walks that end, and that a
  cycle of `next` links never ends.
- `Sources.GetHatenaArticle`: takes the page fetch as a function parameter
  (`PageFetcher(server)` in a run), so the walker's lemmas hold for any page
  source.
- `Site.CreateArticleFile`: takes the renderer as a function, not a branch on
  the script. `Render.ArticleContentFactory` is proved to produce the text that
  `TsScript` renders.
- `ArticleInfo.url` is kept optional, because a Hatena entry without an
  `alternate` link yields `undefined`. That value is written into the file as
  the text `undefined`.
- A feed page without `<entry>` elements is rejected: `getEntriesFromXml`
  returns `xml.feed.entry`, which xml2js leaves undefined, and the `.map` on it
  throws inside `.then`, so the page ends in `reject('error')`. A feed without
  `<link>` elements and an entry without `<link>` are rejected for the same
  reason.
- `toISO8601StringByUTC9` is defined in the JavaScript script but never called.
  It is modelled on its ISO input text; `toISOString` itself is library code.
