/**
 * The text of one generated article file.  The TypeScript script writes the
 * front matter line by line; the JavaScript script has `js-yaml` dump a table
 * of contents object and wraps the dump in `---` lines.  `Date.prototype.toString`
 * and `yaml.dump` are library code: they enter as the parameters `dateText`
 * and `dump`.
 */
module Render {
  import opened Wrappers
  import opened Articles
  import opened Lines

  /** The fixed sentence that introduces the link to the original post. */
  const Sentence: string := "記事はこちら（タグが付いているリンク先に飛びます）"

  /** String concatenation with a possibly `undefined` URL. */
  function UrlText(url: Option<string>): string {
    match url
    case Some(u) => u
    case None => "undefined"
  }

  /** The lines the TypeScript renderer appends, in order (note the repeated
      `author` key). */
  function TsLines(article: ArticleInfo, dateText: string): seq<string> {
    [ "---",
      "author: seriru",
      "title: " + article.title,
      "date: " + dateText,
      "description:",
      "draft: false",
      "hideToc: false",
      "enableToc: true",
      "enableTocContent: false",
      "author: seriru",
      "authorEmoji: ",
      "tags: ",
      "- " + article.tag.Name(),
      "---",
      Sentence,
      UrlText(article.url) ]
  }

  lemma JoinSnoc(lines: seq<string>, line: string)
    ensures Join(lines + [line]) == Join(lines) + (line + "\n")
  {
    JoinAppend(lines, [line]);
    assert Join([line]) == line + "\n" + Join([]);
  }

  /** `content += line + '\n'`, where `content` holds the first `k` lines of
      `lines` and `line` is the next one. */
  method AppendLine(content: string, ghost lines: seq<string>, ghost k: nat, line: string) returns (appended: string)
    requires k < |lines| && content == Join(lines[..k]) && line == lines[k]
    ensures appended == Join(lines[..k + 1])
  {
    appended := content + (line + "\n");
    assert lines[..k + 1] == lines[..k] + [line];
    JoinSnoc(lines[..k], line);
  }

  lemma TsLinesAt(article: ArticleInfo, dateText: string)
    ensures var ls := TsLines(article, dateText);
      && |ls| == 16
      && ls[0] == "---"
      && ls[1] == "author: seriru"
      && ls[2] == "title: " + article.title
      && ls[3] == "date: " + dateText
      && ls[4] == "description:"
      && ls[5] == "draft: false"
      && ls[6] == "hideToc: false"
      && ls[7] == "enableToc: true"
      && ls[8] == "enableTocContent: false"
      && ls[9] == "author: seriru"
      && ls[10] == "authorEmoji: "
      && ls[11] == "tags: "
      && ls[12] == "- " + article.tag.Name()
      && ls[13] == "---"
      && ls[14] == Sentence
      && ls[15] == UrlText(article.url)
  {
  }

  /** `articleConentFactory`: builds the file text by successive `+=`;
      `dateText` is `String(article.date)`. */
  method ArticleContentFactory(article: ArticleInfo, dateText: string) returns (content: string)
    ensures content == Join(TsLines(article, dateText))
  {
    ghost var ls := TsLines(article, dateText);
    TsLinesAt(article, dateText);
    content := "";
    assert ls[..0] == [];
    content := AppendLine(content, ls, 0, "---");
    content := AppendLine(content, ls, 1, "author: seriru");
    content := AppendLine(content, ls, 2, "title: " + article.title);
    content := AppendLine(content, ls, 3, "date: " + dateText);
    content := AppendLine(content, ls, 4, "description:");
    content := AppendLine(content, ls, 5, "draft: false");
    content := AppendLine(content, ls, 6, "hideToc: false");
    content := AppendLine(content, ls, 7, "enableToc: true");
    content := AppendLine(content, ls, 8, "enableTocContent: false");
    content := AppendLine(content, ls, 9, "author: seriru");
    content := AppendLine(content, ls, 10, "authorEmoji: ");
    content := AppendLine(content, ls, 11, "tags: ");
    content := AppendLine(content, ls, 12, "- " + article.tag.Name());
    content := AppendLine(content, ls, 13, "---");
    content := AppendLine(content, ls, 14, Sentence);
    content := AppendLine(content, ls, 15, UrlText(article.url));
    assert ls[..16] == ls;
  }

  /** The file text opens with `---` and ends with the closing `---`, the
      sentence and the URL, each on a line of its own. */
  lemma TsContentFrame(article: ArticleInfo, dateText: string)
    ensures var c := Join(TsLines(article, dateText));
      && |c| >= 4 && c[..4] == "---\n"
      && c == Join(TsLines(article, dateText)[..13]) + "---\n" + Sentence + "\n" + UrlText(article.url) + "\n"
  {
    var ls := TsLines(article, dateText);
    var u := UrlText(article.url);
    TsLinesAt(article, dateText);
    assert ls[13..] == ["---", Sentence, u];
    assert ls == ls[..13] + ls[13..];
    JoinAppend(ls[..13], ls[13..]);
    JoinCons(u, []);
    JoinCons(Sentence, [u]);
    JoinCons("---", [Sentence, u]);
    assert ls[..13] == [ls[0]] + ls[1..13];
    JoinCons("---", ls[1..13]);
    assert "---" + "\n" == "---\n";
  }

  /** Every fixed line of the TypeScript renderer is free of newlines. */
  lemma TsFixedLinesClean(article: ArticleInfo, dateText: string)
    ensures forall i :: 0 <= i < 16 && i != 2 && i != 3 && i != 15 ==> NoNewline(TsLines(article, dateText)[i])
  {
    SentenceClean();
    assert NoNewline(article.tag.Name());
  }

  lemma SentenceClean()
    ensures NoNewline(Sentence)
  {
  }

  /** The file text splits back into exactly its sixteen lines, if and only if
      the title, the date text and the URL hold no newline: a newline in the
      title breaks the front matter. */
  lemma {:induction false} TsContentLines(article: ArticleInfo, dateText: string)
    ensures SplitLines(Join(TsLines(article, dateText))) == TsLines(article, dateText) <==>
      NoNewline(article.title) && NoNewline(dateText) && NoNewline(UrlText(article.url))
    ensures NoNewline(article.title) && NoNewline(dateText) && NoNewline(UrlText(article.url)) ==>
      var ls := SplitLines(Join(TsLines(article, dateText)));
      && |ls| == 16 && ls[0] == "---" && ls[2] == "title: " + article.title
      && ls[12] == "- " + article.tag.Name() && ls[13] == "---"
      && ls[14] == Sentence && ls[15] == UrlText(article.url)
  {
    var ls := TsLines(article, dateText);
    TsFixedLinesClean(article, dateText);
    if NoNewline(article.title) && NoNewline(dateText) && NoNewline(UrlText(article.url)) {
      assert NoNewline(ls[2]) && NoNewline(ls[3]);
      SplitJoin(ls);
    }
    if SplitLines(Join(ls)) == ls {
      assert NoNewline(ls[2]) && NoNewline(ls[3]) && NoNewline(ls[15]);
    }
  }

  /** The object the JavaScript script hands to `yaml.dump`. */
  datatype Toc = Toc(
    author: string, title: string, date: int, description: string,
    draft: bool, hideToc: bool, enableToc: bool, enableTocContent: bool,
    tags: seq<Tag>)

  function TocOf(article: ArticleInfo): Toc {
    Toc("seriru", article.title, article.date, "", false, false, true, false, [article.tag])
  }

  /** `articleTocFactory`: the YAML dump between two `---` lines. */
  function ArticleTocFactory(article: ArticleInfo, dump: Toc -> string): (toc: string)
    ensures |toc| >= 8 && toc[..4] == "---\n" && toc[|toc| - 4..] == "---\n"
    ensures toc[4..|toc| - 4] == dump(TocOf(article))
  {
    "---\n" + dump(TocOf(article)) + "---\n"
  }

  /** `articleBody`: the front matter, then the lines: an empty one, the
      sentence, the URL. */
  function ArticleBody(toc: string, article: ArticleInfo): (body: string)
    ensures |body| >= |toc| && body[..|toc|] == toc
    ensures body[|toc|..] == Join(["", Sentence, UrlText(article.url)])
  {
    var u := UrlText(article.url);
    var tail := "\n" + Sentence + "\n" + u + "\n";
    assert tail == Join(["", Sentence, u]) by {
      JoinCons(u, []);
      JoinCons(Sentence, [u]);
      JoinCons("", [Sentence, u]);
    }
    assert (toc + tail)[|toc|..] == tail;
    toc + tail
  }

  /** The lines after the dump: the closing `---`, an empty line, the
      sentence and the URL. */
  function JsTail(article: ArticleInfo): seq<string> {
    ["---", "", Sentence, UrlText(article.url)]
  }

  lemma JsBodyText(article: ArticleInfo, dump: Toc -> string)
    ensures ArticleBody(ArticleTocFactory(article, dump), article) ==
      "---\n" + dump(TocOf(article)) + Join(JsTail(article))
  {
  }

  lemma JsLinesClean(inner: seq<string>, article: ArticleInfo)
    requires forall i :: 0 <= i < |inner| ==> NoNewline(inner[i])
    requires NoNewline(UrlText(article.url))
    ensures var all := ["---"] + inner + JsTail(article);
      forall i :: 0 <= i < |all| ==> NoNewline(all[i])
  {
    SentenceClean();
    var all := ["---"] + inner + JsTail(article);
    forall i | 0 <= i < |all| ensures NoNewline(all[i]) {
      if 0 < i <= |inner| { assert all[i] == inner[i - 1]; }
    }
  }

  lemma JsBodyJoin(article: ArticleInfo, dump: Toc -> string)
    requires var dumped := dump(TocOf(article));
      dumped == [] || dumped[|dumped| - 1] == '\n'
    ensures Join(["---"] + SplitLines(dump(TocOf(article))) + JsTail(article)) ==
      ArticleBody(ArticleTocFactory(article, dump), article)
  {
    var dumped := dump(TocOf(article));
    var inner := SplitLines(dumped);
    var tail := Join(JsTail(article));
    JsBodyText(article, dump);
    JoinSplit(dumped);
    JoinAppend(["---"] + inner, JsTail(article));
    JoinCons("---", inner);
    assert "---" + "\n" == "---\n";
    calc {
      Join(["---"] + inner + JsTail(article));
      Join(["---"] + inner) + tail;
      "---" + "\n" + Join(inner) + tail;
      "---\n" + dumped + tail;
    }
  }

  /** When the dump is a text of whole lines and the URL holds no newline, the
      JavaScript file's lines are `---`, the dump's lines, `---`, an empty
      line, the sentence and the URL. */
  lemma JsBodyLines(article: ArticleInfo, dump: Toc -> string)
    requires var dumped := dump(TocOf(article));
      dumped == [] || dumped[|dumped| - 1] == '\n'
    requires NoNewline(UrlText(article.url))
    ensures SplitLines(ArticleBody(ArticleTocFactory(article, dump), article)) ==
      ["---"] + SplitLines(dump(TocOf(article))) + JsTail(article)
  {
    var dumped := dump(TocOf(article));
    var inner := SplitLines(dumped);
    JsBodyJoin(article, dump);
    JsLinesClean(inner, article);
    SplitJoin(["---"] + inner + JsTail(article));
  }

  /** `toISO8601StringByUTC9`: the ISO text up to its first `.` (all of it when
      there is none), then `+09:00`. */
  function ToISO8601StringByUTC9(iso: string): (r: string)
    ensures |r| >= 6 && r[|r| - 6..] == "+09:00"
    ensures var p := r[..|r| - 6];
      p <= iso && '.' !in p && (|p| < |iso| ==> iso[|p|] == '.')
  {
    iso[..FirstIndex(iso, '.')] + "+09:00"
  }

  /** On a text `clock.fraction` it keeps the clock part as it is and only
      appends the `+09:00` designator: no nine-hour shift is applied. */
  lemma ToISO8601DropsFraction(clock: string, fraction: string)
    requires '.' !in clock
    ensures ToISO8601StringByUTC9(clock + "." + fraction) == clock + "+09:00"
  {
    FirstIndexAfter(clock, '.', fraction);
    assert (clock + "." + fraction)[..|clock|] == clock;
  }
}
