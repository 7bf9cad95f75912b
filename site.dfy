/**
 * The pipeline of `run`: fetch the Qiita listing, walk the Hatena feed, merge
 * (Qiita first), sort newest first, and issue one file per article.  The two
 * scripts differ only in the output directory and in how the file text is
 * rendered; `Script` says which one runs.
 */
module Site {
  import opened Wrappers
  import opened Articles
  import opened Sources
  import opened Sorting
  import opened Decimal
  import opened Lines
  import opened Render
  import opened Files

  /** What tells the two scripts apart: the directory `artilceFactory`
      writes into and how an article becomes file text. */
  datatype Script = Script(pathOrg: string, render: ArticleInfo -> string)

  /** The TypeScript script: `articleConentFactory`, with `dateText` standing
      for `Date.prototype.toString` on a time value. */
  function TsScript(dateText: int -> string): Script {
    Script("../../content/ja/", (a: ArticleInfo) => Join(TsLines(a, dateText(a.date))))
  }

  /** The JavaScript script: `articleBody` around `articleTocFactory`, with
      `dump` standing for `yaml.dump`. */
  function JsScript(dump: Toc -> string): Script {
    Script("../../content/ja/posts/", (a: ArticleInfo) => ArticleBody(ArticleTocFactory(a, dump), a))
  }

  /** `createArticleFile`: when nothing is on disk at `pathOrg + millis + '.md'`,
      issue a write of the rendered text there; otherwise do nothing. */
  method CreateArticleFile(fs: FileSystem, render: ArticleInfo -> string, article: ArticleInfo, pathOrg: string)
    modifies fs
    ensures fs.files == old(fs.files)
    ensures var path := FilePath(pathOrg, article.date);
      if path in old(fs.files) then fs.pending == old(fs.pending)
      else fs.pending == old(fs.pending) + [Write(path, render(article))]
    ensures var path := FilePath(pathOrg, article.date);
      fs.Eventual() == if path in old(fs.files) then old(fs.Eventual())
                       else old(fs.Eventual())[path := render(article)]
  {
    var filename := FileName(article.date);
    var filepath := pathOrg + filename;
    var data := render(article);
    var found := fs.ExistsSync(filepath);
    if found {
      return;
    }
    fs.WriteFile(pathOrg + filename, data);
  }

  /** The writes `artilceFactory` issues against a disk holding `disk`, when
      article `a` goes to `path(a)` with text `render(a)`: every existence
      check runs before any write lands. */
  function IssuedWrites(disk: map<string, string>, path: ArticleInfo -> string, render: ArticleInfo -> string,
                        articles: seq<ArticleInfo>): seq<Write>
  {
    if articles == [] then []
    else
      var a := articles[0];
      (if path(a) in disk then [] else [Write(path(a), render(a))])
      + IssuedWrites(disk, path, render, articles[1..])
  }

  lemma {:induction false} IssuedWritesAppend(disk: map<string, string>, path: ArticleInfo -> string, render: ArticleInfo -> string, xs: seq<ArticleInfo>, ys: seq<ArticleInfo>)
    ensures IssuedWrites(disk, path, render, xs + ys) == IssuedWrites(disk, path, render, xs) + IssuedWrites(disk, path, render, ys)
  {
    if xs == [] {
      assert xs + ys == ys;
    } else {
      assert (xs + ys)[1..] == xs[1..] + ys;
      IssuedWritesAppend(disk, path, render, xs[1..], ys);
    }
  }

  /** Where the file of an article goes, under directory `pathOrg`. */
  function PathUnder(pathOrg: string): ArticleInfo -> string {
    (a: ArticleInfo) => FilePath(pathOrg, a.date)
  }

  lemma IssuedWritesStep(disk: map<string, string>, path: ArticleInfo -> string, render: ArticleInfo -> string, articles: seq<ArticleInfo>, i: nat)
    requires i < |articles|
    ensures IssuedWrites(disk, path, render, articles[..i + 1]) ==
      IssuedWrites(disk, path, render, articles[..i]) +
      (if path(articles[i]) in disk then [] else [Write(path(articles[i]), render(articles[i]))])
  {
    assert articles[..i + 1] == articles[..i] + [articles[i]];
    IssuedWritesAppend(disk, path, render, articles[..i], [articles[i]]);
    assert [articles[i]][1..] == [];
  }

  /** `artilceFactory`: `createArticleFile` for each article, in order. */
  method ArticleFactory(fs: FileSystem, script: Script, articles: seq<ArticleInfo>)
    modifies fs
    ensures fs.files == old(fs.files)
    ensures fs.pending == old(fs.pending) + IssuedWrites(old(fs.files), PathUnder(script.pathOrg), script.render, articles)
  {
    ghost var path := PathUnder(script.pathOrg);
    var i := 0;
    while i < |articles|
      invariant 0 <= i <= |articles|
      invariant fs.files == old(fs.files)
      invariant fs.pending == old(fs.pending) + IssuedWrites(old(fs.files), path, script.render, articles[..i])
    {
      IssuedWritesStep(old(fs.files), path, script.render, articles, i);
      assert path(articles[i]) == FilePath(script.pathOrg, articles[i].date);
      CreateArticleFile(fs, script.render, articles[i], script.pathOrg);
      i := i + 1;
    }
    assert articles[..i] == articles;
  }

  /** Each issued write is for an article whose file was absent, and each such
      article has its write issued. */
  lemma {:induction false} IssuedWritesShape(disk: map<string, string>, path: ArticleInfo -> string, render: ArticleInfo -> string, articles: seq<ArticleInfo>)
    ensures forall w :: w in IssuedWrites(disk, path, render, articles) ==>
      w.path !in disk && exists a :: a in articles && w == Write(path(a), render(a))
    ensures forall a :: a in articles && path(a) !in disk ==>
      Write(path(a), render(a)) in IssuedWrites(disk, path, render, articles)
  {
    if articles != [] {
      IssuedWritesShape(disk, path, render, articles[1..]);
      assert articles == [articles[0]] + articles[1..];
    }
  }

  /** What the output directory holds once the writes of one run have
      landed: a file that existed is never touched; an absent path gets a file
      exactly when some article maps to it, and then holds that article's text. */
  lemma FactoryOutcome(disk: map<string, string>, path: ArticleInfo -> string, render: ArticleInfo -> string, articles: seq<ArticleInfo>, p: string)
    ensures var e := Apply(disk, IssuedWrites(disk, path, render, articles));
      p in disk ==> p in e && e[p] == disk[p]
    ensures var e := Apply(disk, IssuedWrites(disk, path, render, articles));
      p !in disk ==> (p in e <==> exists a :: a in articles && path(a) == p)
    ensures var e := Apply(disk, IssuedWrites(disk, path, render, articles));
      p !in disk && p in e ==> exists a :: a in articles && path(a) == p && e[p] == render(a)
  {
    var ws := IssuedWrites(disk, path, render, articles);
    IssuedWritesShape(disk, path, render, articles);
    if exists w :: w in ws && w.path == p {
      ApplyWritten(disk, ws, p);
      var w :| w in ws && w.path == p && Apply(disk, ws)[p] == w.data;
      var a :| a in articles && w == Write(path(a), render(a));
    } else {
      ApplyUntouched(disk, ws, p);
    }
  }

  /** When no two articles share a path, every article whose file was absent
      gets exactly its own text. */
  lemma DistinctPathsExact(disk: map<string, string>, path: ArticleInfo -> string, render: ArticleInfo -> string, articles: seq<ArticleInfo>, i: nat)
    requires i < |articles|
    requires forall m, n :: 0 <= m < n < |articles| ==> path(articles[m]) != path(articles[n])
    requires path(articles[i]) !in disk
    ensures var e := Apply(disk, IssuedWrites(disk, path, render, articles));
      path(articles[i]) in e && e[path(articles[i])] == render(articles[i])
  {
    var p := path(articles[i]);
    FactoryOutcome(disk, path, render, articles, p);
    var e := Apply(disk, IssuedWrites(disk, path, render, articles));
    var a :| a in articles && path(a) == p && e[p] == render(a);
    var j :| 0 <= j < |articles| && articles[j] == a;
    assert j == i;
  }

  /** Articles with pairwise distinct time values have pairwise distinct paths
      under `artilceFactory`, and conversely. */
  lemma DistinctDatesDistinctPaths(pathOrg: string, articles: seq<ArticleInfo>)
    ensures (forall m, n :: 0 <= m < n < |articles| ==> articles[m].date != articles[n].date) <==>
      (forall m, n :: 0 <= m < n < |articles| ==>
         PathUnder(pathOrg)(articles[m]) != PathUnder(pathOrg)(articles[n]))
  {
    forall m, n | 0 <= m < n < |articles| {
      FilePathInjective(pathOrg, articles[m].date, articles[n].date);
    }
  }

  /** Two articles with the same path and no file yet both have their write
      issued in one run, in article order, when the existence check sees only
      writes that have landed. */
  lemma SameDateBothIssued(disk: map<string, string>, path: ArticleInfo -> string, render: ArticleInfo -> string, articles: seq<ArticleInfo>, i: nat, j: nat)
    requires i < j < |articles| && path(articles[i]) == path(articles[j])
    requires path(articles[i]) !in disk
    ensures var w := IssuedWrites(disk, path, render, articles);
      exists k1, k2 :: 0 <= k1 < k2 < |w| &&
        w[k1] == Write(path(articles[i]), render(articles[i])) &&
        w[k2] == Write(path(articles[i]), render(articles[j]))
  {
    var xs, ys := articles[..j], articles[j..];
    assert articles == xs + ys;
    IssuedWritesAppend(disk, path, render, xs, ys);
    IssuedWritesShape(disk, path, render, xs);
    assert articles[i] in xs by { assert xs[i] == articles[i]; }
    var wx := IssuedWrites(disk, path, render, xs);
    var k1 :| 0 <= k1 < |wx| && wx[k1] == Write(path(articles[i]), render(articles[i]));
    var wy := IssuedWrites(disk, path, render, ys);
    assert ys[0] == articles[j];
    assert wy[0] == Write(path(articles[j]), render(articles[j]));
    var w := IssuedWrites(disk, path, render, articles);
    assert w[k1] == wx[k1];
    assert w[|wx|] == wy[0];
  }

  /** The two endpoints `run` reads from; credentials are part of the server. */
  datatype Config = Config(qiitaURL: string, hatenaURL: string)

  /** How a run ends: its writes issued for the sorted records, rejected by a
      fetch before any write, or (when the fuel ran out) still walking the
      feed. */
  datatype RunOutcome = Written(articles: seq<ArticleInfo>) | Aborted(error: FetchError) | StillFetching

  /** Everything `run` gathers before sorting: Qiita's records followed by
      Hatena's, or the first rejection, or `Unfinished` when the walk ran out
      of fuel. */
  function Gather(server: Server, config: Config, fuel: nat): WalkOutcome
  {
    match GetQiitaArticle(server, config.qiitaURL)
    case Failure(e) => Failed(e)
    case Success(qiita) => Prepend(qiita, Walk(PageFetcher(server), config.hatenaURL, fuel))
  }

  /** The fetching half of `run`: `getQiitaAritcle`, then (only if that
      succeeded) `getHatenaArticle`, each record list appended in turn. */
  method GatherArticles(server: Server, config: Config, fuel: nat) returns (g: WalkOutcome)
    ensures g == Gather(server, config, fuel)
  {
    var qiitaArticles := GetQiitaArticle(server, config.qiitaURL);
    if qiitaArticles.Failure? {
      return Failed(qiitaArticles.error);
    }
    var hatenaArticles := GetHatenaArticle(PageFetcher(server), config.hatenaURL, fuel);
    return Prepend(qiitaArticles.value, hatenaArticles);
  }

  /** When the Qiita list is served and the feed is a chain of pages that
      ends within the fuel, the gathered records are Qiita's items followed by
      every page's entries in fetch order. */
  lemma GatherComplete(server: Server, config: Config, fuel: nat, urls: seq<string>)
    requires config.qiitaURL in server && server[config.qiitaURL].status < 300
    requires server[config.qiitaURL].body.Json?
    requires FollowsLinks(PageFetcher(server), config.hatenaURL, urls) && |urls| <= fuel
    ensures Gather(server, config, fuel) ==
      Done(ExtractQiitaInfo(server[config.qiitaURL].body.items) + Collected(PageFetcher(server), urls))
  {
    WalkComplete(PageFetcher(server), config.hatenaURL, urls, fuel);
  }

  /** Gathered records come only from a served Qiita list and a chain of feed
      pages from the first feed URL to a page without a `next` link. */
  lemma GatherSound(server: Server, config: Config, fuel: nat)
    requires Gather(server, config, fuel).Done?
    ensures config.qiitaURL in server && server[config.qiitaURL].status < 300
    ensures server[config.qiitaURL].body.Json?
    ensures var urls := Visited(PageFetcher(server), config.hatenaURL, fuel);
      && FollowsLinks(PageFetcher(server), config.hatenaURL, urls) && |urls| <= fuel
      && Gather(server, config, fuel).articles ==
           ExtractQiitaInfo(server[config.qiitaURL].body.items) + Collected(PageFetcher(server), urls)
  {
    WalkSound(PageFetcher(server), config.hatenaURL, fuel);
  }

  /** When the Qiita list is served but the feed walk is rejected, the whole
      gathering fails with the feed's error and Qiita's records are dropped. */
  lemma GatherFeedRejected(server: Server, config: Config, fuel: nat, e: FetchError)
    requires config.qiitaURL in server && server[config.qiitaURL].status < 300
    requires server[config.qiitaURL].body.Json?
    requires Walk(PageFetcher(server), config.hatenaURL, fuel) == Failed(e)
    ensures Gather(server, config, fuel) == Failed(e)
  {
  }

  /** A rejected Qiita request ends the run before the feed is fetched, with
      that request's error. */
  lemma GatherQiitaRejected(server: Server, config: Config, fuel: nat)
    requires !(config.qiitaURL in server && server[config.qiitaURL].status < 300 &&
               server[config.qiitaURL].body.Json?)
    ensures GetQiitaArticle(server, config.qiitaURL).Failure?
    ensures Gather(server, config, fuel) == Failed(GetQiitaArticle(server, config.qiitaURL).error)
  {
  }

  /** `run`: Qiita's records then Hatena's, sorted newest first (stably), then
      one file per record. */
  method Run(fs: FileSystem, script: Script, server: Server, config: Config, fuel: nat) returns (outcome: RunOutcome)
    modifies fs
    ensures fs.files == old(fs.files)
    ensures var g := Gather(server, config, fuel);
      && (g.Failed? ==> outcome == Aborted(g.error))
      && (g.Unfinished? ==> outcome == StillFetching)
      && (g.Done? ==>
            && outcome.Written?
            && SortedDesc(outcome.articles)
            && SameDateOrder(g.articles, outcome.articles)
            && multiset(outcome.articles) == multiset(g.articles))
    ensures !outcome.Written? ==> fs.pending == old(fs.pending)
    ensures outcome.Written? ==>
      fs.pending == old(fs.pending) + IssuedWrites(old(fs.files), PathUnder(script.pathOrg), script.render, outcome.articles)
  {
    var gathered := GatherArticles(server, config, fuel);
    match gathered {
      case Failed(e) =>
        return Aborted(e);
      case Unfinished =>
        return StillFetching;
      case Done(allArticles) =>
        var sorted := SortArticles(allArticles);
        ArticleFactory(fs, script, sorted);
        return Written(sorted);
    }
  }
}
