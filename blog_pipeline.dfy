/**
 * The blog run of `scriptblog.py`: reading the configuration, scraping one article, having it
 * rewritten, saving it under `articles`, and the batches over a URL list or over the links of a
 * blog page. The web, the language model, `urljoin`/`urlparse`, the file system and the clock
 * are parameters.
 */
module BlogPipeline {
  import opened Wrappers
  import opened PyStr
  import opened Dates
  import opened Html
  import opened Extract
  import opened Cleaner
  import opened Naming
  import opened Classifier
  import opened Links
  import opened UrlList

  // ---- load_config ----

  /**
   * What `load_config` returns: `apiKey` is the `GEMINI_API_KEY` variable (`None` when unset),
   * `file` the lines of `urlblog.txt` (`None` when it is missing or cannot be read).
   */
  function Config(apiKey: Option<string>, file: Option<seq<string>>): (Option<string>, seq<string>) {
    if apiKey.None? || apiKey.value == "" || file.None? then (None, [])
    else
      var urls := KeptLines(file.value, AnyLine);
      if urls == [] then (None, []) else (apiKey, urls)
  }

  /** `load_config`, with its loop over the lines. */
  method LoadConfig(apiKey: Option<string>, file: Option<seq<string>>) returns (key: Option<string>, urls: seq<string>)
    ensures (key, urls) == Config(apiKey, file)
  {
    if apiKey.None? || apiKey.value == "" {
      return None, [];
    }
    if file.None? {
      return None, [];
    }
    var lines := file.value;
    urls := [];
    var i := 0;
    while i < |lines|
      invariant i <= |lines|
      invariant urls == KeptLines(lines[..i], AnyLine)
    {
      var url := Strip(lines[i]);
      KeptLinesNext(lines, i, AnyLine);
      CommentFree(url);
      if url != [] && !StartsWith(url, "#") {
        urls := urls + [url];
      }
      i := i + 1;
    }
    assert lines[..i] == lines;
    if urls == [] {
      return None, [];
    }
    key := apiKey;
  }

  /** `url and not url.startswith('#')` is the test of `Wanted` for a file that accepts every line. */
  lemma CommentFree(url: string)
    ensures (url != [] && !StartsWith(url, "#")) <==> Wanted(url, AnyLine)
  {
    if url != [] {
      assert url[..1] == [url[0]];
    }
  }

  /**
   * A run starts exactly when the key is set and the file lists a URL; it then gets the key and
   * every listed line, stripped, none of them empty or a comment.
   */
  lemma ConfigMeaning(apiKey: Option<string>, file: Option<seq<string>>)
    ensures var (key, urls) := Config(apiKey, file);
      && (key.Some? <==> urls != [])
      && (key.Some? <==> apiKey.Some? && apiKey.value != "" && file.Some? && KeptLines(file.value, AnyLine) != [])
      && (key.Some? ==> key == apiKey && urls == KeptLines(file.value, AnyLine))
      && forall u :: u in urls ==> u != [] && u[0] != '#' && Strip(u) == u
  {
    if file.Some? {
      KeptLinesAreClean(file.value, AnyLine);
    }
  }

  // ---- scrape_article_content ----

  /** The dictionary `scrape_article_content` returns. */
  datatype Scraped = Scraped(content: Option<string>, imageUrl: Option<string>)

  /** `scrape_article_content`: `fetched` is the parsed page, `None` when the request failed. */
  method ScrapeArticleContent(fetched: Option<Page>, resolve: (string, string) -> string) returns (r: Option<Scraped>)
    ensures r.None? <==> fetched.None?
    ensures r.Some? ==> r.value == Scraped(BlogContent(fetched.value), BlogImage(fetched.value, resolve))
  {
    if fetched.None? {
      return None;
    }
    var content := SelectBlogContent(fetched.value);
    var image := ExtractMainImage(fetched.value, resolve);
    r := Some(Scraped(content, image));
  }

  // ---- generate_blog_article ----

  /**
   * The outside world of one run: the page a URL fetches (or `None`), the `href`s the link
   * selectors find on a blog page (or `None` when it cannot be fetched), `urljoin`, the network
   * location and the path `urlparse` gives, the model's reply to the prompt built from the
   * first 3000 characters of the content, the URL and the image (`None` when the call raises),
   * whether writing a file succeeds, and the time of the run.
   */
  datatype Services = Services(
    fetch: string -> Option<Page>,
    hrefs: string -> Option<seq<Option<string>>>,
    resolve: (string, string) -> string,
    host: string -> string,
    pathOf: string -> string,
    generate: (string, string, Option<string>) -> Option<string>,
    write: (string, string) -> bool,
    now: Timestamp)

  /** What `generate_blog_article` returns for a given reply. */
  function CleanedReply(reply: Option<string>): Option<string> {
    if reply.None? || reply.value == "" then None else Some(Clean(reply.value))
  }

  /** `generate_blog_article`. */
  method GenerateBlogArticle(content: string, url: string, image: Option<string>, s: Services) returns (article: Option<string>)
    ensures article == CleanedReply(s.generate(TakeAtMost(content, 3000), url, image))
  {
    var reply := s.generate(TakeAtMost(content, 3000), url, image);
    if reply.None? || reply.value == "" {
      return None;
    }
    article := Some(Clean(reply.value));
  }

  /** A reply comes back cleaned: without fences and without white space at either end. */
  lemma CleanedReplyMeaning(reply: Option<string>)
    ensures CleanedReply(reply).Some? <==> reply.Some? && reply.value != ""
    ensures CleanedReply(reply).Some? ==>
      var a := CleanedReply(reply).value;
      !Contains(a, Fence) && (a != [] ==> !IsSpace(a[0]) && !IsSpace(a[|a| - 1]))
  {
    if reply.Some? && reply.value != "" {
      CleanResult(reply.value);
    }
  }

  // ---- save_article ----

  /** The path `save_article` writes to. */
  function ArticlePath(article: string, now: Timestamp): string {
    "articles/" + ArticleFileName(article, now)
  }

  /** What `save_article` returns: the path when the write succeeds, `None` when it raises. */
  function Saved(article: string, s: Services): Option<string> {
    var path := ArticlePath(article, s.now);
    if s.write(path, article) then Some(path) else None
  }

  /** `save_article`. */
  method SaveArticle(article: string, s: Services) returns (path: Option<string>)
    ensures path == Saved(article, s)
  {
    var filename := ArticleFileName(article, s.now);
    var p := "articles/" + filename;
    if s.write(p, article) {
      path := Some(p);
    } else {
      path := None;
    }
  }

  /** Every article lands directly in `articles`, under the name drawn from its title or the time. */
  lemma ArticlePathInFolder(article: string, now: Timestamp)
    ensures var p := ArticlePath(article, now);
      StartsWith(p, "articles/") && p[9..] == ArticleFileName(article, now) && '/' !in p[9..]
  {
    ArticleFileNameHasNoSlash(article, now);
  }

  // ---- process_single_article ----

  /** What one article comes to: the saved path, or `None` at the first step that fails. */
  function ArticleFor(url: string, s: Services): Option<string> {
    match s.fetch(url)
    case None => None
    case Some(page) =>
      var content := BlogContent(page);
      if content.None? then None
      else
        var article := CleanedReply(s.generate(TakeAtMost(content.value, 3000), url, BlogImage(page, s.resolve)));
        if article.None? || article.value == "" then None else Saved(article.value, s)
  }

  /**
   * `process_single_article`, where a page without usable content fails like a page that cannot
   * be fetched.
   */
  method ProcessSingleArticle(url: string, s: Services) returns (path: Option<string>)
    ensures path == ArticleFor(url, s)
  {
    var scraped := ScrapeArticleContent(s.fetch(url), s.resolve);
    if scraped.None? || scraped.value.content.None? {
      return None;
    }
    var article := GenerateBlogArticle(scraped.value.content.value, url, scraped.value.imageUrl, s);
    if article.None? || article.value == "" {
      return None;
    }
    path := SaveArticle(article.value, s);
  }

  /** A saved article is in `articles`, named from the cleaned reply to the article's content. */
  lemma ArticleForMeaning(url: string, s: Services)
    ensures ArticleFor(url, s).Some? ==>
      && s.fetch(url).Some?
      && BlogContent(s.fetch(url).value).Some?
      && var page := s.fetch(url).value;
         var article := CleanedReply(s.generate(TakeAtMost(BlogContent(page).value, 3000), url, BlogImage(page, s.resolve)));
         && article.Some? && article.value != ""
         && ArticleFor(url, s) == Some(ArticlePath(article.value, s.now))
         && s.write(ArticlePath(article.value, s.now), article.value)
    ensures s.fetch(url).None? ==> ArticleFor(url, s).None?
  {
  }

  /** An uncaught exception or a value: how a call of the script as written ends. */
  datatype Outcome<T> = Raised | Returned(value: T)

  /**
   * `process_single_article` as written: the dictionary of a fetched page is never empty, so
   * it passes `if not content`, and `len(content['content'])` then raises a `TypeError` when
   * the content is `None`.
   */
  function ArticleForAsWritten(url: string, s: Services): Outcome<Option<string>> {
    match s.fetch(url)
    case None => Returned(None)
    case Some(page) => if BlogContent(page).None? then Raised else Returned(ArticleFor(url, s))
  }

  /** The script as written raises exactly for a fetched page without usable content, and agrees otherwise. */
  lemma AsWrittenRaisesOnMissingContent(url: string, s: Services)
    ensures ArticleForAsWritten(url, s).Raised? <==> s.fetch(url).Some? && BlogContent(s.fetch(url).value).None?
    ensures ArticleForAsWritten(url, s).Returned? ==> ArticleForAsWritten(url, s).value == ArticleFor(url, s)
  {
  }

  // ---- process_multiple_urls ----

  /** The paths among the outcomes of a list of URLs, in input order. */
  function Kept(urls: seq<string>, f: string -> Option<string>): (r: seq<string>)
    ensures |r| <= |urls|
    decreases |urls|
  {
    if urls == [] then []
    else
      var last := f(urls[|urls| - 1]);
      Kept(urls[..|urls| - 1], f) + (if last.Some? then [last.value] else [])
  }

  /** A path is kept exactly when some URL's outcome is that path. */
  lemma {:induction false} KeptMeaning(urls: seq<string>, f: string -> Option<string>, p: string)
    ensures p in Kept(urls, f) <==> exists i :: 0 <= i < |urls| && f(urls[i]) == Some(p)
    decreases |urls|
  {
    if urls != [] {
      var front := urls[..|urls| - 1];
      KeptMeaning(front, f, p);
      if exists i :: 0 <= i < |front| && f(front[i]) == Some(p) {
        var i :| 0 <= i < |front| && f(front[i]) == Some(p);
        assert urls[i] == front[i];
      }
      if exists i :: 0 <= i < |urls| && f(urls[i]) == Some(p) {
        var i :| 0 <= i < |urls| && f(urls[i]) == Some(p);
        if i < |front| {
          assert front[i] == urls[i];
        }
      }
    }
  }

  /** Nothing is dropped exactly when every outcome is a path. */
  lemma {:induction false} KeptComplete(urls: seq<string>, f: string -> Option<string>)
    ensures |Kept(urls, f)| == |urls| <==> forall i :: 0 <= i < |urls| ==> f(urls[i]).Some?
    decreases |urls|
  {
    if urls != [] {
      var front := urls[..|urls| - 1];
      KeptComplete(front, f);
      if forall i :: 0 <= i < |urls| ==> f(urls[i]).Some? {
        forall i | 0 <= i < |front| ensures f(front[i]).Some? {
          assert front[i] == urls[i];
        }
      }
      if |Kept(urls, f)| == |urls| {
        assert |Kept(front, f)| == |front|;
        forall i | 0 <= i < |urls| ensures f(urls[i]).Some? {
          if i < |front| {
            assert front[i] == urls[i];
          }
        }
      }
    }
  }

  /** `ArticleFor` as a function of the URL alone. */
  function Articles(s: Services): string -> Option<string> {
    u => ArticleFor(u, s)
  }

  /** `ArticleForAsWritten` as a function of the URL alone. */
  function ArticlesAsWritten(s: Services): string -> Outcome<Option<string>> {
    u => ArticleForAsWritten(u, s)
  }

  /** `urljoin(blog_url, href)` as a function of the link alone. */
  function Resolver(s: Services, base: string): string -> string {
    h => s.resolve(base, h)
  }

  /** The saved paths of a list of URLs, in input order. */
  function Successes(urls: seq<string>, s: Services): seq<string> {
    Kept(urls, Articles(s))
  }

  /**
   * At most one path per URL; a path is in the list exactly when some URL's article was saved
   * under it, and the list is as long as the URL list exactly when every article is saved.
   */
  lemma SuccessesMeaning(urls: seq<string>, s: Services)
    ensures |Successes(urls, s)| <= |urls|
    ensures forall p :: p in Successes(urls, s) <==> exists i :: 0 <= i < |urls| && ArticleFor(urls[i], s) == Some(p)
    ensures |Successes(urls, s)| == |urls| <==> forall i :: 0 <= i < |urls| ==> ArticleFor(urls[i], s).Some?
  {
    var f := Articles(s);
    forall p ensures p in Kept(urls, f) <==> exists i :: 0 <= i < |urls| && f(urls[i]) == Some(p) {
      KeptMeaning(urls, f, p);
    }
    KeptComplete(urls, f);
  }

  /** A loop over the URLs adds the outcome of URL `i` to the paths of the first `i`. */
  lemma KeptNext(urls: seq<string>, i: nat, f: string -> Option<string>)
    requires i < |urls|
    ensures Kept(urls[..i + 1], f) == Kept(urls[..i], f) + (if f(urls[i]).Some? then [f(urls[i]).value] else [])
  {
    assert urls[..i + 1][..i] == urls[..i];
  }

  lemma SuccessesNext(urls: seq<string>, i: nat, s: Services)
    requires i < |urls|
    ensures Successes(urls[..i + 1], s) == Successes(urls[..i], s)
      + (if ArticleFor(urls[i], s).Some? then [ArticleFor(urls[i], s).value] else [])
  {
    KeptNext(urls, i, Articles(s));
  }

  /**
   * `process_multiple_urls`, each URL processed as by `ProcessSingleArticle`; the check of
   * `is_single_article_url` only prints a warning, and the pauses are left out.
   */
  method ProcessMultipleUrls(urls: seq<string>, s: Services) returns (files: seq<string>)
    ensures files == Successes(urls, s)
  {
    files := [];
    var i := 0;
    while i < |urls|
      invariant i <= |urls|
      invariant files == Successes(urls[..i], s)
    {
      SuccessesNext(urls, i, s);
      var path := ProcessSingleArticle(urls[i], s);
      if path.Some? {
        files := files + [path.value];
      }
      i := i + 1;
    }
    assert urls[..i] == urls;
  }

  /** A batch that ends at the first outcome that raises, and otherwise keeps the returned paths. */
  function Batch(urls: seq<string>, g: string -> Outcome<Option<string>>): Outcome<seq<string>>
    decreases |urls|
  {
    if urls == [] then Returned([])
    else
      match Batch(urls[..|urls| - 1], g)
      case Raised => Raised
      case Returned(files) =>
        match g(urls[|urls| - 1])
        case Raised => Raised
        case Returned(last) => Returned(files + if last.Some? then [last.value] else [])
  }

  /** Such a batch raises exactly when some outcome does; otherwise it keeps what `Kept` keeps. */
  lemma {:induction false} BatchMeaning(urls: seq<string>, g: string -> Outcome<Option<string>>, f: string -> Option<string>)
    requires forall u :: g(u).Returned? ==> g(u).value == f(u)
    ensures Batch(urls, g).Raised? <==> exists i :: 0 <= i < |urls| && g(urls[i]).Raised?
    ensures Batch(urls, g).Returned? ==> Batch(urls, g).value == Kept(urls, f)
    decreases |urls|
  {
    if urls != [] {
      var front := urls[..|urls| - 1];
      BatchMeaning(front, g, f);
      if exists i :: 0 <= i < |front| && g(front[i]).Raised? {
        var i :| 0 <= i < |front| && g(front[i]).Raised?;
        assert urls[i] == front[i];
      }
      if exists i :: 0 <= i < |urls| && g(urls[i]).Raised? {
        var i :| 0 <= i < |urls| && g(urls[i]).Raised?;
        if i < |front| {
          assert front[i] == urls[i];
        }
      }
    }
  }

  /** `process_multiple_urls` as written: the first URL whose page has no usable content aborts the batch. */
  function BatchAsWritten(urls: seq<string>, s: Services): Outcome<seq<string>> {
    Batch(urls, ArticlesAsWritten(s))
  }

  /** The batch as written raises exactly when one of its URLs does, and otherwise agrees. */
  lemma BatchAsWrittenMeaning(urls: seq<string>, s: Services)
    ensures BatchAsWritten(urls, s).Raised? <==> exists i :: 0 <= i < |urls| && ArticleForAsWritten(urls[i], s).Raised?
    ensures BatchAsWritten(urls, s).Returned? ==> BatchAsWritten(urls, s).value == Successes(urls, s)
  {
    var g, f := ArticlesAsWritten(s), Articles(s);
    forall u ensures g(u).Returned? ==> g(u).value == f(u) {
      AsWrittenRaisesOnMissingContent(u, s);
    }
    BatchMeaning(urls, g, f);
  }

  /** A page on which no content selector finds anything and whose body holds no text. */
  function NoContentPage(): Page {
    Page(_ => None, Some(Element("body", map[], [])), Element("html", map[], []), None)
  }

  lemma {:induction false} ScanOfNothing(sels: seq<string>, select: string -> Option<Element>, content: string)
    requires forall j :: 0 <= j < |sels| ==> select(sels[j]).None?
    ensures Scan(sels, select, content) == content
    decreases |sels|
  {
    if sels != [] {
      assert select(sels[0]).None?;
      forall j | 0 <= j < |sels| - 1 ensures select(sels[1..][j]).None? {
        assert sels[1..][j] == sels[j + 1];
      }
      ScanOfNothing(sels[1..], select, content);
    }
  }

  /**
   * Such a page has no usable content, so as written one such URL anywhere in the list aborts
   * the batch, and the articles of all the other URLs are lost; the corrected batch keeps them.
   */
  lemma NoContentPageAbortsBatch(urls: seq<string>, s: Services, i: nat)
    requires i < |urls| && s.fetch(urls[i]) == Some(NoContentPage())
    ensures BlogContent(NoContentPage()).None?
    ensures BatchAsWritten(urls, s).Raised?
    ensures ArticleFor(urls[i], s).None?
    ensures forall p :: p in Successes(urls, s) <==> exists k :: 0 <= k < |urls| && k != i && ArticleFor(urls[k], s) == Some(p)
  {
    var page := NoContentPage();
    ScanOfNothing(BlogContentSelectors, page.select, "");
    assert BlogText(page.body.value) == "";
    ShortContentUsesBody(page);
    AsWrittenRaisesOnMissingContent(urls[i], s);
    BatchAsWrittenMeaning(urls, s);
    SuccessesMeaning(urls, s);
  }

  // ---- process_blog ----

  /**
   * `article_links[:max_articles]` takes a prefix: the first `max_articles` links, or for a
   * negative bound all but the last `-max_articles`.
   */
  lemma SliceFromStart(links: seq<string>, maxArticles: int)
    ensures var t := PySlice(links, 0, maxArticles);
      && t == links[..|t|]
      && (0 <= maxArticles ==> |t| == if maxArticles <= |links| then maxArticles else |links|)
      && (maxArticles < 0 ==> |t| == if |links| + maxArticles < 0 then 0 else |links| + maxArticles)
  {
  }

  /**
   * `process_blog`: a single article is processed on its own; otherwise the links of the blog
   * page are collected as `extract_blog_links` does and at most `maxArticles` of them are
   * processed, each as `ProcessSingleArticle` does. `links` is the list the page gave.
   */
  method ProcessBlog(blogUrl: string, maxArticles: int, s: Services) returns (files: seq<string>, ghost links: seq<string>)
    ensures IsSingleArticleUrl(blogUrl, s.pathOf) ==> links == [] && files == Successes([blogUrl], s)
    ensures !IsSingleArticleUrl(blogUrl, s.pathOf) ==> files == Successes(PySlice(links, 0, maxArticles), s)
    ensures Distinct(links) && |links| <= MaxLinks
    ensures s.hrefs(blogUrl).None? ==> links == []
    ensures s.hrefs(blogUrl).Some? ==>
      forall l :: l in links ==> l in Eligible(s.hrefs(blogUrl).value, Resolver(s, blogUrl), s.host, s.host(blogUrl))
    ensures !IsSingleArticleUrl(blogUrl, s.pathOf) && s.hrefs(blogUrl).Some? ==>
      var e := Eligible(s.hrefs(blogUrl).value, Resolver(s, blogUrl), s.host, s.host(blogUrl));
      && |links| == (if |e| <= MaxLinks then |e| else MaxLinks)
      && (|e| <= MaxLinks ==> forall l :: l in e ==> l in links)
  {
    if IsSingleArticleUrl(blogUrl, s.pathOf) {
      var result := ProcessSingleArticle(blogUrl, s);
      assert [blogUrl][..0] == [];
      files := if result.Some? then [result.value] else [];
      links := [];
      return;
    }
    var found := ExtractBlogLinks(s.hrefs(blogUrl), Resolver(s, blogUrl), s.host, s.host(blogUrl));
    links := found;
    if found == [] {
      files := [];
      return;
    }
    var todo := PySlice(found, 0, maxArticles);
    files := [];
    var i := 0;
    while i < |todo|
      invariant i <= |todo|
      invariant files == Successes(todo[..i], s)
    {
      SuccessesNext(todo, i, s);
      var path := ProcessSingleArticle(todo[i], s);
      if path.Some? {
        files := files + [path.value];
      }
      i := i + 1;
    }
    assert todo[..i] == todo;
  }

  /** So a blog run yields at most `maxArticles` files, and never more than twenty. */
  lemma BlogRunBound(links: seq<string>, maxArticles: int, s: Services)
    requires |links| <= MaxLinks
    ensures |Successes(PySlice(links, 0, maxArticles), s)| <= MaxLinks
    ensures 0 <= maxArticles ==> |Successes(PySlice(links, 0, maxArticles), s)| <= maxArticles
  {
    SliceFromStart(links, maxArticles);
  }

  /** `process_blog` as written: the same abort reaches the single-article path and the loop over links. */
  function ProcessBlogAsWritten(blogUrl: string, links: seq<string>, maxArticles: int, s: Services): Outcome<seq<string>> {
    if IsSingleArticleUrl(blogUrl, s.pathOf) then
      match ArticleForAsWritten(blogUrl, s)
      case Raised => Raised
      case Returned(r) => Returned(if r.Some? then [r.value] else [])
    else if links == [] then Returned([])
    else BatchAsWritten(PySlice(links, 0, maxArticles), s)
  }

  /** As written, a blog run raises exactly when a processed link has a page without usable content. */
  lemma ProcessBlogAsWrittenMeaning(blogUrl: string, links: seq<string>, maxArticles: int, s: Services)
    requires !IsSingleArticleUrl(blogUrl, s.pathOf)
    ensures var todo := PySlice(links, 0, maxArticles);
      && (ProcessBlogAsWritten(blogUrl, links, maxArticles, s).Raised? <==>
            exists i :: 0 <= i < |todo| && ArticleForAsWritten(todo[i], s).Raised?)
      && (ProcessBlogAsWritten(blogUrl, links, maxArticles, s).Returned? ==>
            ProcessBlogAsWritten(blogUrl, links, maxArticles, s).value == Successes(todo, s))
  {
    BatchAsWrittenMeaning(PySlice(links, 0, maxArticles), s);
  }

  /**
   * A blog run whose processed links include one page without text aborts as written, and the
   * articles of all the other links are lost; the corrected run keeps them.
   */
  lemma NoContentLinkAbortsBlog(blogUrl: string, links: seq<string>, maxArticles: int, s: Services, i: nat)
    requires !IsSingleArticleUrl(blogUrl, s.pathOf)
    requires var todo := PySlice(links, 0, maxArticles); i < |todo| && s.fetch(todo[i]) == Some(NoContentPage())
    ensures ProcessBlogAsWritten(blogUrl, links, maxArticles, s).Raised?
    ensures var todo := PySlice(links, 0, maxArticles);
      forall p :: p in Successes(todo, s) <==> exists k :: 0 <= k < |todo| && k != i && ArticleFor(todo[k], s) == Some(p)
  {
    var todo := PySlice(links, 0, maxArticles);
    NoContentPageAbortsBatch(todo, s, i);
    assert links != [];
  }
}
