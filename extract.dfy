/**
 * The selector fallback chains of both scrapers: tables of CSS selectors tried in order, where
 * the first one whose element yields a usable value decides (`_extract_title`,
 * `_extract_main_content`, `_extract_product_image`, `_extract_main_image`), and the blog
 * content scan of `scrape_article_content` with its 200 and 100 character thresholds.
 */
module Extract {
  import opened Wrappers
  import opened PyStr
  import opened Html

  // ---- the first usable selector ----

  /** Selector `sels[i]` finds an element and `pick` accepts it. */
  predicate Usable(sels: seq<string>, select: string -> Option<Element>, pick: Element -> Option<string>, i: nat)
    requires i < |sels|
  {
    select(sels[i]).Some? && pick(select(sels[i]).value).Some?
  }

  /** The value of the first usable selector, in table order. */
  function FirstPick(sels: seq<string>, select: string -> Option<Element>, pick: Element -> Option<string>): Option<string>
    decreases |sels|
  {
    if sels == [] then None
    else if select(sels[0]).Some? && pick(select(sels[0]).value).Some? then pick(select(sels[0]).value)
    else FirstPick(sels[1..], select, pick)
  }

  /** The `for selector in selectors` loops that return as soon as an element gives a value. */
  method SearchSelectors(sels: seq<string>, select: string -> Option<Element>, pick: Element -> Option<string>)
    returns (r: Option<string>)
    ensures r == FirstPick(sels, select, pick)
  {
    var i := 0;
    while i < |sels|
      invariant 0 <= i <= |sels|
      invariant FirstPick(sels, select, pick) == FirstPick(sels[i..], select, pick)
    {
      assert sels[i..][1..] == sels[i + 1..];
      var element := select(sels[i]);
      if element.Some? {
        var value := pick(element.value);
        if value.Some? {
          return value;
        }
      }
      i := i + 1;
    }
    return None;
  }

  /** A found value comes from a usable selector, and no earlier selector is usable. */
  lemma {:induction false} FirstPickIsFirst(sels: seq<string>, select: string -> Option<Element>, pick: Element -> Option<string>)
    returns (i: nat)
    requires FirstPick(sels, select, pick).Some?
    ensures i < |sels| && Usable(sels, select, pick, i)
    ensures FirstPick(sels, select, pick) == pick(select(sels[i]).value)
    ensures forall j :: 0 <= j < i ==> !Usable(sels, select, pick, j)
    decreases |sels|
  {
    if select(sels[0]).Some? && pick(select(sels[0]).value).Some? {
      i := 0;
    } else {
      var k := FirstPickIsFirst(sels[1..], select, pick);
      i := k + 1;
      forall j | 0 <= j < i ensures !Usable(sels, select, pick, j) {
        if j > 0 {
          assert sels[j] == sels[1..][j - 1];
          assert !Usable(sels[1..], select, pick, j - 1);
        }
      }
    }
  }

  /** Conversely, the first usable selector gives the value. */
  lemma {:induction false} FirstUsableWins(sels: seq<string>, select: string -> Option<Element>, pick: Element -> Option<string>, i: nat)
    requires i < |sels| && Usable(sels, select, pick, i)
    requires forall j :: 0 <= j < i ==> !Usable(sels, select, pick, j)
    ensures FirstPick(sels, select, pick) == pick(select(sels[i]).value)
    decreases i
  {
    if i > 0 {
      assert !Usable(sels, select, pick, 0);
      forall j | 0 <= j < i - 1 ensures !Usable(sels[1..], select, pick, j) {
        assert sels[1..][j] == sels[j + 1];
        assert !Usable(sels, select, pick, j + 1);
      }
      FirstUsableWins(sels[1..], select, pick, i - 1);
    }
  }

  /** Nothing is found exactly when no selector is usable. */
  lemma {:induction false} FirstPickNone(sels: seq<string>, select: string -> Option<Element>, pick: Element -> Option<string>)
    ensures FirstPick(sels, select, pick).None? <==> forall j :: 0 <= j < |sels| ==> !Usable(sels, select, pick, j)
    decreases |sels|
  {
    if sels != [] && !Usable(sels, select, pick, 0) {
      FirstPickNone(sels[1..], select, pick);
      forall j | 0 <= j < |sels| - 1 ensures Usable(sels[1..], select, pick, j) == Usable(sels, select, pick, j + 1) {
        assert sels[1..][j] == sels[j + 1];
      }
      if FirstPick(sels, select, pick).None? {
        forall j | 0 <= j < |sels| ensures !Usable(sels, select, pick, j) {
          if j > 0 {
            assert !Usable(sels[1..], select, pick, j - 1);
          }
        }
      } else {
        var i := FirstPickIsFirst(sels[1..], select, pick);
        assert Usable(sels, select, pick, i + 1);
      }
    }
  }

  // ---- title (product scraper) ----

  const TitleSelectors: seq<string> := ["h1", "title", ".article-title", ".post-title", "#title"]
  const NoTitle: string := "Titre non trouvé"

  /** An element names the page when its stripped text is not empty. */
  function TitlePick(e: Element): (r: Option<string>)
    ensures r.Some? ==> r.value != [] && !IsSpace(r.value[0]) && !IsSpace(r.value[|r.value| - 1])
  {
    var t := Strip(GetText(e, "", false));
    if t != [] then Some(t) else None
  }

  function Title(page: Page): string {
    FirstPick(TitleSelectors, page.select, TitlePick).GetOr(NoTitle)
  }

  /** `_extract_title`. */
  method ExtractTitle(page: Page) returns (title: string)
    ensures title == Title(page)
  {
    var found := SearchSelectors(TitleSelectors, page.select, TitlePick);
    title := found.GetOr(NoTitle);
  }

  predicate Trimmed(t: string) {
    t != [] && !IsSpace(t[0]) && !IsSpace(t[|t| - 1])
  }

  /** Whatever the selectors, a found title is a value `TitlePick` produced. */
  lemma FoundTitleTrimmed(sels: seq<string>, select: string -> Option<Element>)
    requires FirstPick(sels, select, TitlePick).Some?
    ensures Trimmed(FirstPick(sels, select, TitlePick).value)
  {
    var i := FirstPickIsFirst(sels, select, TitlePick);
  }

  /** A title is never empty and never has surrounding whitespace. */
  lemma TitleIsTrimmed(page: Page)
    ensures Trimmed(Title(page))
  {
    if FirstPick(TitleSelectors, page.select, TitlePick).Some? {
      FoundTitleTrimmed(TitleSelectors, page.select);
    } else {
      assert NoTitle[0] == 'T' && NoTitle[|NoTitle| - 1] == '\U{E9}';
    }
  }

  // ---- main content (product scraper) ----

  const ProductContentSelectors: seq<string> :=
    ["article", ".article-content", ".post-content", ".entry-content", ".content", "main", "#content", ".article-body", ".post-body"]

  /** A tag is always true in a condition, so any element found is taken, even one with no text. */
  function ProductContentPick(e: Element): Option<string> {
    Some(GetText(e, " ", true))
  }

  function ProductContent(page: Page): string {
    match FirstPick(ProductContentSelectors, page.select, ProductContentPick)
    case Some(text) => text
    case None =>
      match page.body
      case Some(body) => GetText(body, " ", true)
      case None => GetText(page.whole, " ", true)
  }

  /** `_extract_main_content`, after the decomposition of scripts, navigation and the like. */
  method ExtractMainContent(page: Page) returns (text: string)
    ensures text == ProductContent(page)
  {
    var found := SearchSelectors(ProductContentSelectors, page.select, ProductContentPick);
    if found.Some? {
      return found.value;
    }
    if page.body.Some? {
      return GetText(page.body.value, " ", true);
    }
    return GetText(page.whole, " ", true);
  }

  /** The first content selector that finds an element decides, even when its text is empty. */
  lemma FirstContentElementDecides(page: Page, i: nat)
    requires i < |ProductContentSelectors| && page.select(ProductContentSelectors[i]).Some?
    requires forall j :: 0 <= j < i ==> page.select(ProductContentSelectors[j]).None?
    ensures ProductContent(page) == GetText(page.select(ProductContentSelectors[i]).value, " ", true)
  {
    FirstUsableWins(ProductContentSelectors, page.select, ProductContentPick, i);
  }

  /** The body is read only when no content selector finds anything. */
  lemma BodyFallback(page: Page)
    requires forall j :: 0 <= j < |ProductContentSelectors| ==> page.select(ProductContentSelectors[j]).None?
    ensures ProductContent(page) == GetText(if page.body.Some? then page.body.value else page.whole, " ", true)
  {
    FirstPickNone(ProductContentSelectors, page.select, ProductContentPick);
  }

  // ---- images ----

  /** `url.split('?')[0]`: the text before the first `?`. */
  function QueryFree(u: string): (r: string)
    ensures '?' !in r && |r| <= |u| && r == u[..|r|]
    ensures '?' !in u ==> r == u
  {
    var k := Find(u, '?');
    if k == -1 then u else u[..k]
  }

  predicate IsAbsolute(u: string) {
    StartsWith(u, "http://") || StartsWith(u, "https://")
  }

  /** A relative URL is resolved against the `<base href>` when the page has one; `resolve` stands for `urljoin`. */
  function Absolute(u: string, base: Option<string>, resolve: (string, string) -> string): (r: string)
    ensures IsAbsolute(u) || base.None? ==> r == u
  {
    if IsAbsolute(u) then u
    else match base
      case Some(b) => resolve(b, u)
      case None => u
  }

  const ProductImageSelectors: seq<string> := [
    "meta[property=\"og:image\"]", "meta[name=\"twitter:image\"]", "#landingImage", "#main-image",
    ".product-image-main img", ".product-featured-image", ".gallery-image--default", "[data-main-image]",
    ".product-image img", ".primary-image", ".main-product-image", "img[itemprop=\"image\"]",
    ".product img:first-of-type"]

  const DefaultProductImage: string :=
    "https://images.unsplash.com/photo-1611224923853-80b023f02d71?ixlib=rb-4.0.3&auto=format&fit=crop&w=2070&q=80"

  /** The URL a product image element carries: `content` for a meta tag, else `data-src` or `src`. */
  function ProductRawUrl(e: Element): Option<string> {
    if e.name == "meta" then e.Get("content")
    else if e.Get("data-src").Some? && e.Get("data-src").value != "" then e.Get("data-src")
    else e.Get("src")
  }

  function ProductImagePick(e: Element, base: Option<string>, resolve: (string, string) -> string): Option<string> {
    match ProductRawUrl(e)
    case Some(u) => if u != "" then Some(Absolute(QueryFree(u), base, resolve)) else None
    case None => None
  }

  function ProductImagePickOn(page: Page, resolve: (string, string) -> string): Element -> Option<string> {
    e => ProductImagePick(e, page.baseHref, resolve)
  }

  function ProductImage(page: Page, resolve: (string, string) -> string): string {
    FirstPick(ProductImageSelectors, page.select, ProductImagePickOn(page, resolve)).GetOr(DefaultProductImage)
  }

  /** `_extract_product_image`. */
  method ExtractProductImage(page: Page, resolve: (string, string) -> string) returns (url: string)
    ensures url == ProductImage(page, resolve)
  {
    var found := SearchSelectors(ProductImageSelectors, page.select, ProductImagePickOn(page, resolve));
    url := found.GetOr(DefaultProductImage);
  }

  /**
   * Without a `<base href>` the product image is either the default or a URL from the page cut
   * at its first `?`.
   */
  lemma ProductImageWithoutBase(page: Page, resolve: (string, string) -> string)
    requires page.baseHref.None?
    ensures var url := ProductImage(page, resolve);
      url == DefaultProductImage || '?' !in url
  {
    var pick := ProductImagePickOn(page, resolve);
    if FirstPick(ProductImageSelectors, page.select, pick).Some? {
      var i := FirstPickIsFirst(ProductImageSelectors, page.select, pick);
    }
  }

  /** A lazy-loading `data-src` wins over `src`; an empty one does not count. */
  lemma DataSrcPreferred(e: Element)
    requires e.name != "meta" && "data-src" in e.attrs && e.attrs["data-src"] != ""
    ensures ProductRawUrl(e) == Some(e.attrs["data-src"])
  {
  }

  const BlogImageSelectors: seq<string> := [
    "meta[property=\"og:image\"]", "meta[name=\"twitter:image\"]", ".article-featured-image img",
    ".post-thumbnail img", ".entry-featured-image img", "article img:first-of-type", ".wp-post-image",
    "article .image-principale", "[itemprop=\"image\"]"]

  /** The blog scraper reads `content` of a meta tag and `src` of anything else, and keeps the query. */
  function BlogImagePick(e: Element, base: Option<string>, resolve: (string, string) -> string): Option<string> {
    var raw := if e.name == "meta" then e.Get("content") else e.Get("src");
    match raw
    case Some(u) => if u != "" then Some(Absolute(u, base, resolve)) else None
    case None => None
  }

  function BlogImagePickOn(page: Page, resolve: (string, string) -> string): Element -> Option<string> {
    e => BlogImagePick(e, page.baseHref, resolve)
  }

  function BlogImage(page: Page, resolve: (string, string) -> string): Option<string> {
    FirstPick(BlogImageSelectors, page.select, BlogImagePickOn(page, resolve))
  }

  /** `_extract_main_image`. */
  method ExtractMainImage(page: Page, resolve: (string, string) -> string) returns (url: Option<string>)
    ensures url == BlogImage(page, resolve)
  {
    url := SearchSelectors(BlogImageSelectors, page.select, BlogImagePickOn(page, resolve));
  }

  /** An `og:image` meta tag with a content wins over every other source. */
  lemma OpenGraphImageWins(page: Page, resolve: (string, string) -> string)
    requires page.select(BlogImageSelectors[0]).Some?
    requires var e := page.select(BlogImageSelectors[0]).value;
      e.name == "meta" && "content" in e.attrs && e.attrs["content"] != ""
    ensures BlogImage(page, resolve) == Some(Absolute(page.select(BlogImageSelectors[0]).value.attrs["content"], page.baseHref, resolve))
  {
  }

  /** With no usable element the blog image is absent: no default is invented. */
  lemma BlogImageAbsent(page: Page, resolve: (string, string) -> string)
    ensures BlogImage(page, resolve).None? <==>
      forall j :: 0 <= j < |BlogImageSelectors| ==> !Usable(BlogImageSelectors, page.select, BlogImagePickOn(page, resolve), j)
  {
    FirstPickNone(BlogImageSelectors, page.select, BlogImagePickOn(page, resolve));
  }

  // ---- main content (blog scraper) ----

  const BlogContentSelectors: seq<string> :=
    ["article", ".post-content", ".entry-content", ".article-content", ".blog-post", ".content", "main", ".post-body", "[role=\"main\"]"]

  function BlogText(e: Element): string {
    GetText(e, "", true)
  }

  /**
   * The loop over the blog content selectors: each element found replaces the content, and a
   * text longer than 200 characters ends the loop.
   */
  function Scan(sels: seq<string>, select: string -> Option<Element>, content: string): string
    decreases |sels|
  {
    if sels == [] then content
    else match select(sels[0])
      case None => Scan(sels[1..], select, content)
      case Some(e) => if |BlogText(e)| > 200 then BlogText(e) else Scan(sels[1..], select, BlogText(e))
  }

  /** The text the scan ends with, after the `<body>` fallback and the 100 character threshold. */
  function BlogContent(page: Page): (r: Option<string>)
    ensures r.Some? ==> |r.value| > 100
  {
    var scanned := Scan(BlogContentSelectors, page.select, "");
    var content := if |scanned| < 200 && page.body.Some? then BlogText(page.body.value) else scanned;
    if |content| > 100 then Some(content) else None
  }

  /** The content part of `scrape_article_content`. */
  method SelectBlogContent(page: Page) returns (r: Option<string>)
    ensures r == BlogContent(page)
  {
    var content := "";
    var i := 0;
    while i < |BlogContentSelectors|
      invariant 0 <= i <= |BlogContentSelectors|
      invariant Scan(BlogContentSelectors, page.select, "") == Scan(BlogContentSelectors[i..], page.select, content)
    {
      assert BlogContentSelectors[i..][1..] == BlogContentSelectors[i + 1..];
      var element := page.select(BlogContentSelectors[i]);
      if element.Some? {
        content := BlogText(element.value);
        if |content| > 200 {
          break;
        }
      }
      i := i + 1;
    }
    if content == "" || |content| < 200 {
      if page.body.Some? {
        content := BlogText(page.body.value);
      }
    }
    r := if |content| > 100 then Some(content) else None;
  }

  predicate LongAt(sels: seq<string>, select: string -> Option<Element>, i: nat)
    requires i < |sels|
  {
    select(sels[i]).Some? && |BlogText(select(sels[i]).value)| > 200
  }

  /** Dropping the first selector shifts the positions by one. */
  lemma LongAtTail(sels: seq<string>, select: string -> Option<Element>, j: nat)
    requires j + 1 < |sels|
    ensures LongAt(sels[1..], select, j) <==> LongAt(sels, select, j + 1)
  {
    assert sels[1..][j] == sels[j + 1];
  }

  /** Past a first selector that does not end it, the scan goes on with the content it left. */
  lemma ScanStep(sels: seq<string>, select: string -> Option<Element>, content: string)
    requires sels != [] && !LongAt(sels, select, 0)
    ensures Scan(sels, select, content) ==
      Scan(sels[1..], select, if select(sels[0]).Some? then BlogText(select(sels[0]).value) else content)
  {
  }

  /** A first selector whose element has a text longer than 200 characters ends the scan there. */
  lemma ScanHere(sels: seq<string>, select: string -> Option<Element>, content: string)
    requires sels != [] && LongAt(sels, select, 0)
    ensures Scan(sels, select, content) == BlogText(select(sels[0]).value)
  {
  }

  /** The scan stops at the first element whose text is longer than 200 characters. */
  lemma {:induction false} ScanStopsAtFirstLong(sels: seq<string>, select: string -> Option<Element>, content: string, i: nat)
    requires i < |sels| && LongAt(sels, select, i)
    requires forall j :: 0 <= j < i ==> !LongAt(sels, select, j)
    ensures Scan(sels, select, content) == BlogText(select(sels[i]).value)
    decreases i
  {
    if i == 0 {
      ScanHere(sels, select, content);
    } else {
      assert !LongAt(sels, select, 0);
      ScanStep(sels, select, content);
      forall j | 0 <= j < i - 1 ensures !LongAt(sels[1..], select, j) {
        LongAtTail(sels, select, j);
      }
      LongAtTail(sels, select, i - 1);
      assert sels[1..][i - 1] == sels[i];
      var next := if select(sels[0]).Some? then BlogText(select(sels[0]).value) else content;
      ScanStopsAtFirstLong(sels[1..], select, next, i - 1);
    }
  }

  /** The text of the last selector that finds an element, or `content` when none does. */
  function LastFound(sels: seq<string>, select: string -> Option<Element>, content: string): string
    decreases |sels|
  {
    if sels == [] then content
    else match select(sels[|sels| - 1])
      case Some(e) => BlogText(e)
      case None => LastFound(sels[..|sels| - 1], select, content)
  }

  /** `LastFound` looks at the last selector first. */
  lemma LastFoundLast(sels: seq<string>, select: string -> Option<Element>, content: string)
    requires sels != []
    ensures LastFound(sels, select, content) ==
      if select(sels[|sels| - 1]).Some? then BlogText(select(sels[|sels| - 1]).value)
      else LastFound(sels[..|sels| - 1], select, content)
  {
  }

  lemma {:induction false} LastFoundStep(sels: seq<string>, select: string -> Option<Element>, content: string)
    requires sels != []
    ensures LastFound(sels, select, content) ==
      LastFound(sels[1..], select, if select(sels[0]).Some? then BlogText(select(sels[0]).value) else content)
    decreases |sels|
  {
    var next := if select(sels[0]).Some? then BlogText(select(sels[0]).value) else content;
    LastFoundLast(sels, select, content);
    if |sels| == 1 {
      assert sels[1..] == [] && sels[..0] == [];
    } else {
      var front, rest := sels[..|sels| - 1], sels[1..];
      LastFoundLast(rest, select, next);
      assert rest[|rest| - 1] == sels[|sels| - 1];
      assert rest[..|rest| - 1] == front[1..];
      if select(sels[|sels| - 1]).None? {
        assert front[0] == sels[0];
        LastFoundStep(front, select, content);
      }
    }
  }

  /** Without a text longer than 200 characters, the content is the text of the last element found. */
  lemma {:induction false} ScanWithoutLongText(sels: seq<string>, select: string -> Option<Element>, content: string)
    requires forall j :: 0 <= j < |sels| ==> !LongAt(sels, select, j)
    ensures Scan(sels, select, content) == LastFound(sels, select, content)
    decreases |sels|
  {
    if sels != [] {
      ScanStep(sels, select, content);
      forall j | 0 <= j < |sels| - 1 ensures !LongAt(sels[1..], select, j) {
        LongAtTail(sels, select, j);
      }
      var next := if select(sels[0]).Some? then BlogText(select(sels[0]).value) else content;
      ScanWithoutLongText(sels[1..], select, next);
      LastFoundStep(sels, select, content);
    }
  }

  /** A scanned text shorter than 200 characters gives way to the body text when there is a body. */
  lemma ShortContentUsesBody(page: Page)
    requires |Scan(BlogContentSelectors, page.select, "")| < 200 && page.body.Some?
    ensures BlogContent(page) == (if |BlogText(page.body.value)| > 100 then Some(BlogText(page.body.value)) else None)
  {
  }
}
