/**
 * `is_single_article_url`: a URL that matches a homepage pattern is not an article; otherwise a
 * URL that matches an article pattern is; otherwise the URL path must have two segments. All
 * searches are `re.search(pattern, url, re.IGNORECASE)`.
 */
module Classifier {
  import opened PyStr

  /** The regular expressions of the two tables. */
  datatype Pattern =
    | EndsWithText(lit: string)   // `lit$`
    | HasText(lit: string)        // `lit`
    | YearSegment                 // `/\d{4}/`
    | YearMonthSegment            // `/\d{4}-\d{2}/`
    | BlogTwoLevels               // `/blog/.+/.+`
    | DashDigitsAtEnd             // `-\d+$`
    | SlugAtEnd                   // `/[^/]+$`
    | SevenDigitsUnderscore       // `\d{7}_`

  predicate EqualsCI(s: string, p: string) {
    |s| == |p| && StartsWithCI(s, p)
  }

  predicate DigitsIn(s: string, i: nat, j: nat)
    requires i <= j <= |s|
  {
    forall k :: i <= k < j ==> IsAsciiDigit(s[k])
  }

  predicate NoNewlineIn(s: string, i: nat, j: nat)
    requires i <= j <= |s|
  {
    forall k :: i <= k < j ==> s[k] != '\n'
  }

  /**
   * Pattern `p` matches `s` starting at index `i`. Without MULTILINE, `$` holds at the end and
   * just before a final line break. `.` takes anything but a line break; `[^/]` also takes line
   * breaks, so `/[^/]+$` amounts to a `/` followed by a non-empty rest without `/`.
   */
  predicate MatchesAt(p: Pattern, s: string, i: nat)
    requires i <= |s|
  {
    match p
    case EndsWithText(lit) => EqualsCI(s[i..], lit) || EqualsCI(s[i..], lit + "\n")
    case HasText(lit) => StartsWithCI(s[i..], lit)
    case YearSegment => i + 6 <= |s| && s[i] == '/' && DigitsIn(s, i + 1, i + 5) && s[i + 5] == '/'
    case YearMonthSegment =>
      && i + 9 <= |s| && s[i] == '/' && DigitsIn(s, i + 1, i + 5) && s[i + 5] == '-'
      && DigitsIn(s, i + 6, i + 8) && s[i + 8] == '/'
    case BlogTwoLevels =>
      && StartsWithCI(s[i..], "/blog/")
      && exists j :: i + 7 <= j < |s| - 1 && s[j] == '/' && NoNewlineIn(s, i + 6, j) && s[j + 1] != '\n'
    case DashDigitsAtEnd =>
      && i < |s| && s[i] == '-'
      && ((i + 1 < |s| && DigitsIn(s, i + 1, |s|)) || (i + 2 < |s| && s[|s| - 1] == '\n' && DigitsIn(s, i + 1, |s| - 1)))
    case SlugAtEnd => i + 1 < |s| && s[i] == '/' && '/' !in s[i + 1..]
    case SevenDigitsUnderscore => i + 8 <= |s| && DigitsIn(s, i, i + 7) && s[i + 7] == '_'
  }

  /** `re.search(p, s, re.IGNORECASE)` finds something. */
  predicate Search(p: Pattern, s: string) {
    exists i :: 0 <= i <= |s| && MatchesAt(p, s, i)
  }

  predicate AnyMatches(ps: seq<Pattern>, s: string) {
    exists k :: 0 <= k < |ps| && Search(ps[k], s)
  }

  const HomepagePatterns: seq<Pattern> := [
    EndsWithText("/"), EndsWithText("/blog/"), EndsWithText("/articles/"), EndsWithText("/posts/"),
    HasText("/page/"), HasText("/category/"), HasText("/tag/")]

  const ArticlePatterns: seq<Pattern> := [
    YearSegment, YearMonthSegment, HasText("/article/"), HasText("/post/"), BlogTwoLevels,
    DashDigitsAtEnd, SlugAtEnd, SevenDigitsUnderscore]

  predicate IsSlash(c: char) {
    c == '/'
  }

  /** `len(path.strip('/').split('/'))`: one more than the number of inner slashes. */
  function PathDepth(path: string): nat {
    1 + multiset(TrimRight(TrimLeft(path, IsSlash), IsSlash))['/']
  }

  /** `is_single_article_url`; `pathOf` stands for `urlparse(url).path`. */
  function IsSingleArticleUrl(url: string, pathOf: string -> string): bool {
    if AnyMatches(HomepagePatterns, url) then false
    else if AnyMatches(ArticlePatterns, url) then true
    else PathDepth(pathOf(url)) >= 2
  }

  // ---- the homepage table ----

  predicate EndsWithSlash(s: string) {
    EndsWith(s, "/") || EndsWith(s, "/\n")
  }

  predicate HasListingSegment(s: string) {
    ContainsCI(s, "/page/") || ContainsCI(s, "/category/") || ContainsCI(s, "/tag/")
  }

  lemma HasTextSearch(s: string, lit: string)
    ensures Search(HasText(lit), s) <==> ContainsCI(s, lit)
  {
    if ContainsCI(s, lit) {
      var i := ContainsCIIndex(s, lit);
      assert MatchesAt(HasText(lit), s, i);
    }
    if Search(HasText(lit), s) {
      var i :| 0 <= i <= |s| && MatchesAt(HasText(lit), s, i);
      ContainsCIAt(s, lit, i);
    }
  }

  /** A text that ends with `lit` ignoring case, where `lit` ends in `/`, ends in `/`. */
  lemma EndsWithTextSlash(s: string, lit: string, i: nat)
    requires i <= |s| && lit != [] && lit[|lit| - 1] == '/'
    requires MatchesAt(EndsWithText(lit), s, i)
    ensures EndsWithSlash(s)
  {
    var t := s[i..];
    if EqualsCI(t, lit) {
      AsciiLowerOfNonLetter(t[|t| - 1], '/');
      assert s[|s| - 1..] == "/";
    } else {
      var l := lit + "\n";
      assert l[|l| - 2] == '/' && l[|l| - 1] == '\n';
      AsciiLowerOfNonLetter(t[|t| - 2], '/');
      AsciiLowerOfNonLetter(t[|t| - 1], '\n');
      assert s[|s| - 2..] == "/\n";
    }
  }

  /** Each homepage pattern that matches means a trailing `/` or a listing segment. */
  lemma HomepageMatchMeaning(s: string)
    requires AnyMatches(HomepagePatterns, s)
    ensures EndsWithSlash(s) || HasListingSegment(s)
  {
    var k :| 0 <= k < |HomepagePatterns| && Search(HomepagePatterns[k], s);
    if k < 4 {
      var lit := HomepagePatterns[k].lit;
      var i :| 0 <= i <= |s| && MatchesAt(EndsWithText(lit), s, i);
      EndsWithTextSlash(s, lit, i);
    } else {
      HasTextSearch(s, HomepagePatterns[k].lit);
    }
  }

  lemma TrailingSlashFound(s: string)
    requires EndsWithSlash(s)
    ensures AnyMatches(HomepagePatterns, s)
  {
    if EndsWith(s, "/") {
      assert MatchesAt(EndsWithText("/"), s, |s| - 1);
    } else {
      assert s[|s| - 2..] == "/" + "\n";
      assert MatchesAt(EndsWithText("/"), s, |s| - 2);
    }
    assert Search(HomepagePatterns[0], s);
  }

  lemma ListingSegmentFound(s: string)
    requires HasListingSegment(s)
    ensures AnyMatches(HomepagePatterns, s)
  {
    HasTextSearch(s, "/page/");
    HasTextSearch(s, "/category/");
    HasTextSearch(s, "/tag/");
    assert Search(HomepagePatterns[4], s) || Search(HomepagePatterns[5], s) || Search(HomepagePatterns[6], s);
  }

  /** A trailing `/` or a listing segment is caught by the homepage table. */
  lemma HomepageMatchFound(s: string)
    requires EndsWithSlash(s) || HasListingSegment(s)
    ensures AnyMatches(HomepagePatterns, s)
  {
    if EndsWithSlash(s) {
      TrailingSlashFound(s);
    } else {
      ListingSegmentFound(s);
    }
  }

  /**
   * The homepage table amounts to: the URL ends in `/` (or `/` and a final line break), or it
   * holds `/page/`, `/category/` or `/tag/` in any case. The `/blog/$`, `/articles/$` and
   * `/posts/$` entries never decide anything that `/$` does not.
   */
  lemma HomepageMeaning(s: string)
    ensures AnyMatches(HomepagePatterns, s) <==> EndsWithSlash(s) || HasListingSegment(s)
  {
    if AnyMatches(HomepagePatterns, s) {
      HomepageMatchMeaning(s);
    }
    if EndsWithSlash(s) || HasListingSegment(s) {
      HomepageMatchFound(s);
    }
  }

  /** A homepage pattern wins even when an article pattern also matches. */
  lemma HomepageWins(url: string, pathOf: string -> string)
    requires EndsWithSlash(url) || HasListingSegment(url)
    ensures !IsSingleArticleUrl(url, pathOf)
  {
    HomepageMeaning(url);
  }

  // ---- the article table ----

  /** `/[^/]+$` matches exactly the URLs that contain a `/` and do not end with one. */
  lemma SlugAtEndMeaning(s: string)
    ensures Search(SlugAtEnd, s) <==> '/' in s && s[|s| - 1] != '/'
  {
    if '/' in s && s[|s| - 1] != '/' {
      var i := RFind(s, '/');
      assert MatchesAt(SlugAtEnd, s, i);
    }
    if Search(SlugAtEnd, s) {
      var i :| 0 <= i <= |s| && MatchesAt(SlugAtEnd, s, i);
      assert s[|s| - 1] == s[i + 1..][|s| - i - 2];
    }
  }

  /** The article patterns other than `-\d+$` and `\d{7}_` all need a `/`. */
  lemma SlashFreeArticle(s: string)
    requires '/' !in s
    ensures AnyMatches(ArticlePatterns, s) <==> Search(DashDigitsAtEnd, s) || Search(SevenDigitsUnderscore, s)
  {
    if AnyMatches(ArticlePatterns, s) {
      var k :| 0 <= k < |ArticlePatterns| && Search(ArticlePatterns[k], s);
      var p := ArticlePatterns[k];
      var i :| 0 <= i <= |s| && MatchesAt(p, s, i);
    }
    if Search(DashDigitsAtEnd, s) {
      assert Search(ArticlePatterns[5], s);
    }
    if Search(SevenDigitsUnderscore, s) {
      assert Search(ArticlePatterns[7], s);
    }
  }

  /** A URL with a `/` that no homepage pattern claims is an article through `/[^/]+$`. */
  lemma SlashedUrlIsArticle(s: string)
    requires '/' in s && !AnyMatches(HomepagePatterns, s)
    ensures AnyMatches(ArticlePatterns, s)
  {
    HomepageMeaning(s);
    assert s[|s| - 1..] != "/";
    SlugAtEndMeaning(s);
    assert Search(ArticlePatterns[6], s);
  }

  /** A path without `/` has one segment. */
  lemma ShallowPath(path: string)
    requires '/' !in path
    ensures PathDepth(path) == 1
  {
  }

  /**
   * What the classifier decides: not an article when a homepage pattern matches; otherwise an
   * article when the URL has a `/`, ends in `-<digits>`, holds seven digits and `_`, or, failing
   * all of those, when its path has two segments.
   */
  lemma ClassifierMeaning(url: string, pathOf: string -> string)
    ensures IsSingleArticleUrl(url, pathOf) <==>
      && !(EndsWithSlash(url) || HasListingSegment(url))
      && ('/' in url || Search(DashDigitsAtEnd, url) || Search(SevenDigitsUnderscore, url) || PathDepth(pathOf(url)) >= 2)
  {
    HomepageMeaning(url);
    if !AnyMatches(HomepagePatterns, url) {
      if '/' in url {
        SlashedUrlIsArticle(url);
      } else {
        SlashFreeArticle(url);
      }
    }
  }

  /**
   * The path-depth fallback is reached only for URLs without `/`; since the path is then without
   * `/` too, the fallback always answers no.
   */
  lemma FallbackNeverAccepts(url: string, pathOf: string -> string)
    requires '/' in pathOf(url) ==> '/' in url
    ensures IsSingleArticleUrl(url, pathOf) <==>
      && !(EndsWithSlash(url) || HasListingSegment(url))
      && ('/' in url || Search(DashDigitsAtEnd, url) || Search(SevenDigitsUnderscore, url))
  {
    ClassifierMeaning(url, pathOf);
    if '/' !in url {
      ShallowPath(pathOf(url));
    }
  }

  /** Without a `g` or `G` no listing segment can occur. */
  lemma NoListingWithoutG(s: string)
    requires forall i :: 0 <= i < |s| ==> AsciiLower(s[i]) != 'g'
    ensures !HasListingSegment(s)
  {
    AbsentCharExcludes(s, "/page/", 3);
    AbsentCharExcludes(s, "/category/", 5);
    AbsentCharExcludes(s, "/tag/", 3);
  }

  /** `https://example.com/2023/my-post` is an article. */
  lemma DatedPostIsArticle(url: string, pathOf: string -> string)
    requires url == "https://example.com/2023/my-post"
    ensures IsSingleArticleUrl(url, pathOf)
  {
    assert url[|url| - 1] == 't' && url[|url| - 2] == 's';
    assert url[19] == '/';
    assert forall i :: 0 <= i < |url| ==> AsciiLower(url[i]) != 'g';
    NoListingWithoutG(url);
    ClassifierMeaning(url, pathOf);
  }

  /** `https://example.com/blog/` is a listing page. */
  lemma BlogIndexIsNotArticle(url: string, pathOf: string -> string)
    requires url == "https://example.com/blog/"
    ensures !IsSingleArticleUrl(url, pathOf)
  {
    assert url[|url| - 1..] == "/";
    HomepageWins(url, pathOf);
  }
}
