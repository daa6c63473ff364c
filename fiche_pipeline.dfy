/**
 * The product-sheet run of `scriptfiche.py`: reading the URL file, scraping one article,
 * generating its sheet, saving it under `./fiche`, and the per-URL records of a whole batch.
 * The web, the language model, the JSON parser, the file system and the clock are parameters.
 */
module FichePipeline {
  import opened Wrappers
  import opened PyStr
  import opened Dates
  import opened Html
  import opened Extract
  import opened ProductSheet
  import opened Naming
  import opened UrlList

  // ---- load_urls_from_file ----

  /**
   * `load_urls_from_file`: `file` is the file's lines, `None` when it is missing or cannot be
   * read; `valid(u)` says that `urlparse(u)` has both a scheme and a network location.
   */
  method LoadUrlsFromFile(file: Option<seq<string>>, valid: string -> bool) returns (urls: seq<string>)
    ensures file.None? ==> urls == []
    ensures file.Some? ==> urls == KeptLines(file.value, valid)
  {
    if file.None? {
      return [];
    }
    var lines := file.value;
    urls := [];
    var i := 0;
    while i < |lines|
      invariant i <= |lines|
      invariant urls == KeptLines(lines[..i], valid)
    {
      var line := Strip(lines[i]);
      KeptLinesNext(lines, i, valid);
      CommentTest(line);
      if line == [] || StartsWith(line, "#") {
        i := i + 1;
        continue;
      }
      if valid(line) {
        urls := urls + [line];
      }
      i := i + 1;
    }
    assert lines[..i] == lines;
  }

  /** `not line or line.startswith('#')` is the negation of the first two tests of `Wanted`. */
  lemma CommentTest(line: string)
    ensures (line == [] || StartsWith(line, "#")) <==> !(line != [] && line[0] != '#')
  {
  }

  // ---- scrape_article ----

  /** The dictionary `scrape_article` returns, without its `raw_html` entry, which is built and never read. */
  datatype Article = Article(url: string, title: string, content: string, imageUrl: string)

  /** The article read from a fetched page. */
  function ArticleOf(url: string, page: Page, resolve: (string, string) -> string): Article {
    Article(url, Title(page), ProductContent(page), ProductImage(page, resolve))
  }

  /** `scrape_article`: `fetched` is the parsed page, or `None` when the request failed. */
  method ScrapeArticle(url: string, fetched: Option<Page>, resolve: (string, string) -> string)
    returns (r: Option<Article>)
    ensures r.None? <==> fetched.None?
    ensures r.Some? ==> r.value == ArticleOf(url, fetched.value, resolve)
  {
    if fetched.None? {
      return None;
    }
    var page := fetched.value;
    var content := ExtractMainContent(page);
    var title := ExtractTitle(page);
    var image := ExtractProductImage(page, resolve);
    r := Some(Article(url, title, content, image));
  }

  // ---- generate_product_sheet ----

  /**
   * The outside world of one run: the page `requests.get` fetches (or `None`), `urljoin`, the
   * language model's reply to the prompt built from an article (`None` when the call raises),
   * `json.loads`, the MDX body, and whether writing a file succeeds.
   */
  datatype Services = Services(
    fetch: string -> Option<Page>,
    resolve: (string, string) -> string,
    generate: Article -> Option<string>,
    loads: string -> Option<ProductFacts>,
    body: ProductFacts -> string,
    write: (string, string) -> bool)

  /** A non-empty dictionary records the article it came from; an empty one or none stays as it is. */
  function WithSource(data: Option<ProductFacts>, url: string): Option<ProductFacts> {
    if data.Some? && !data.value.IsEmpty() then Some(data.value.(original_article_url := Some(url))) else data
  }

  /** What `generate_product_sheet` returns for a given reply. */
  function SheetFor(article: Article, reply: Option<string>, s: Services, today: Date): Option<string> {
    if reply.None? || reply.value == "" then None
    else Markdown(WithSource(ParseGeminiResponse(reply.value, s.loads), article.url), today, s.body)
  }

  /** `generate_product_sheet`. */
  method GenerateProductSheet(article: Article, s: Services, today: Date) returns (sheet: Option<string>)
    ensures sheet == SheetFor(article, s.generate(article), s, today)
  {
    var reply := s.generate(article);
    if reply.None? || reply.value == "" {
      return None;
    }
    var data := ParseGeminiResponse(reply.value, s.loads);
    if data.Some? && !data.value.IsEmpty() {
      data := Some(data.value.(original_article_url := Some(article.url)));
    }
    sheet := GenerateMarkdown(data, today, s.body);
  }

  /**
   * A sheet comes out exactly when the reply is non-empty, holds both braces and parses to a
   * non-empty dictionary; it is then the markdown of that dictionary.
   */
  lemma SheetForOutcome(article: Article, reply: Option<string>, s: Services, today: Date)
    ensures SheetFor(article, reply, s, today).Some? <==>
      && reply.Some? && reply.value != ""
      && JsonCandidate(reply.value).Some?
      && s.loads(JsonCandidate(reply.value).value).Some?
      && !s.loads(JsonCandidate(reply.value).value).value.IsEmpty()
    ensures SheetFor(article, reply, s, today).Some? ==>
      var d := s.loads(JsonCandidate(reply.value).value).value;
      && SheetFor(article, reply, s, today) == Markdown(Some(d.(original_article_url := Some(article.url))), today, s.body)
      && StartsWith(SheetFor(article, reply, s, today).value, "---\n")
  {
    if reply.Some? && reply.value != "" {
      var data := ParseGeminiResponse(reply.value, s.loads);
      MarkdownOutcome(WithSource(data, article.url), today, s.body);
    }
  }

  /** The recorded article URL is not one of the keys the front matter writes. */
  lemma SourceNotWritten(d: ProductFacts, url: string, today: Date)
    ensures FrontmatterLines(d.(original_article_url := Some(url)), today) == FrontmatterLines(d, today)
  {
    var e := d.(original_article_url := Some(url));
    assert ImageOf(e) == ImageOf(d) && DraftText(e) == DraftText(d);
  }

  // ---- save_to_file ----

  /** The path `save_to_file` writes to: the given name, or the derived one, inside `./fiche`. */
  function SheetPath(content: string, filename: Option<string>, today: Date): string {
    var name := if filename.None? || filename.value == "" then ProductFileName(content, today) else filename.value;
    "./fiche/" + Basename(name)
  }

  /** `save_to_file`: the path when the write succeeds, `None` when it raises. */
  method SaveToFile(content: string, filename: Option<string>, today: Date, write: (string, string) -> bool)
    returns (path: Option<string>)
    ensures path.Some? <==> write(SheetPath(content, filename, today), content)
    ensures path.Some? ==> path.value == SheetPath(content, filename, today)
  {
    var name: string;
    if filename.None? || filename.value == "" {
      name := ProductFileName(content, today);
    } else {
      name := filename.value;
    }
    var p := "./fiche/" + Basename(name);
    if write(p, content) {
      path := Some(p);
    } else {
      path := None;
    }
  }

  /**
   * Without a name the sheet lands directly in `./fiche` under its derived name; with one, only
   * its last path component is used, so nothing is written outside `./fiche`.
   */
  lemma SheetPathInFolder(content: string, filename: Option<string>, today: Date)
    ensures var p := SheetPath(content, filename, today);
      StartsWith(p, "./fiche/") && '/' !in p[8..]
    ensures filename.None? ==> SheetPath(content, filename, today) == "./fiche/" + ProductFileName(content, today)
  {
    ProductFileNameHasNoSlash(content, today);
    var p := SheetPath(content, filename, today);
    assert p[8..] == Basename(if filename.None? || filename.value == "" then ProductFileName(content, today) else filename.value);
  }

  // ---- process_single_url and process_all_urls ----

  /** What `process_single_url` returns. */
  function SheetForUrl(url: string, s: Services, today: Date): Option<string> {
    match s.fetch(url)
    case None => None
    case Some(page) =>
      var article := ArticleOf(url, page, s.resolve);
      SheetFor(article, s.generate(article), s, today)
  }

  /** `process_single_url`. */
  method ProcessSingleUrl(url: string, s: Services, today: Date) returns (sheet: Option<string>)
    ensures sheet == SheetForUrl(url, s, today)
  {
    var article := ScrapeArticle(url, s.fetch(url), s.resolve);
    if article.None? {
      return None;
    }
    sheet := GenerateProductSheet(article.value, s, today);
  }

  /** One entry of the list `process_all_urls` returns. */
  datatype Record = Record(url: string, filename: Option<string>, success: bool)

  /** The record of one URL: a generated, non-empty sheet that was written, or a failure. */
  function RecordFor(url: string, s: Services, today: Date): Record {
    var sheet := SheetForUrl(url, s, today);
    if sheet.Some? && sheet.value != "" then
      var path := SheetPath(sheet.value, None, today);
      if s.write(path, sheet.value) then Record(url, Some(path), true) else Record(url, None, false)
    else Record(url, None, false)
  }

  /** The body of the loop in `process_all_urls`. */
  method ProcessUrl(url: string, s: Services, today: Date) returns (record: Record)
    ensures record == RecordFor(url, s, today)
  {
    var sheet := ProcessSingleUrl(url, s, today);
    if sheet.Some? && sheet.value != "" {
      var path := SaveToFile(sheet.value, None, today, s.write);
      if path.Some? {
        record := Record(url, path, true);
      } else {
        record := Record(url, None, false);
      }
    } else {
      record := Record(url, None, false);
    }
  }

  /** The records of a list of URLs, one per URL in input order. */
  function Records(urls: seq<string>, s: Services, today: Date): (r: seq<Record>)
    ensures |r| == |urls|
    decreases |urls|
  {
    if urls == [] then [] else Records(urls[..|urls| - 1], s, today) + [RecordFor(urls[|urls| - 1], s, today)]
  }

  /** `process_all_urls`; the pauses between URLs are left out. */
  method ProcessAllUrls(urls: seq<string>, s: Services, today: Date) returns (results: seq<Record>)
    ensures results == Records(urls, s, today)
  {
    results := [];
    var i := 0;
    while i < |urls|
      invariant i <= |urls|
      invariant results == Records(urls[..i], s, today)
    {
      var record := ProcessUrl(urls[i], s, today);
      assert urls[..i + 1][..i] == urls[..i];
      results := results + [record];
      i := i + 1;
    }
    assert urls[..i] == urls;
  }

  /** Record `i` is the record of URL `i`. */
  lemma {:induction false} RecordsAt(urls: seq<string>, s: Services, today: Date, i: nat)
    requires i < |urls|
    ensures Records(urls, s, today)[i] == RecordFor(urls[i], s, today)
    decreases |urls|
  {
    if i < |urls| - 1 {
      RecordsAt(urls[..|urls| - 1], s, today, i);
    }
  }

  /**
   * Each record names its URL, succeeds exactly when it has a file name, and that name is the
   * sheet's derived name inside `./fiche`; a URL whose page cannot be fetched fails.
   */
  lemma RecordMeaning(url: string, s: Services, today: Date)
    ensures var r := RecordFor(url, s, today);
      && r.url == url
      && (r.success <==> r.filename.Some?)
      && (s.fetch(url).None? ==> !r.success)
      && (r.success ==>
            && SheetForUrl(url, s, today).Some?
            && r.filename == Some("./fiche/" + ProductFileName(SheetForUrl(url, s, today).value, today))
            && s.write(r.filename.value, SheetForUrl(url, s, today).value))
  {
    var sheet := SheetForUrl(url, s, today);
    if sheet.Some? {
      SheetPathInFolder(sheet.value, None, today);
    }
  }

  /** So the list has one record per URL, in order, each succeeding exactly when it has a file. */
  lemma RecordsFollowUrls(urls: seq<string>, s: Services, today: Date)
    ensures |Records(urls, s, today)| == |urls|
    ensures forall i :: 0 <= i < |urls| ==>
      var r := Records(urls, s, today)[i];
      r.url == urls[i] && (r.success <==> r.filename.Some?)
  {
    forall i | 0 <= i < |urls|
      ensures var r := Records(urls, s, today)[i]; r.url == urls[i] && (r.success <==> r.filename.Some?)
    {
      RecordsAt(urls, s, today, i);
      RecordMeaning(urls[i], s, today);
    }
  }
}
