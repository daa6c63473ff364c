/**
 * What `extract_blog_links` does with the links BeautifulSoup finds on a blog page, and
 * `_extract_site_name`. Fetching, parsing and the CSS selectors are outside the model: the
 * method receives the `href` attribute of every element the twelve selectors return, in selector
 * order, together with `urljoin(blog_url, ·)` as `resolve` and `urlparse(·).netloc` as `host`.
 */
module Links {
  import opened Wrappers
  import opened PyStr
  import Slug

  /** The exclusion list; `\?` is the literal question mark. All searches ignore case. */
  const ExcludePatterns: seq<string> :=
    ["/page/", "/category/", "/tag/", "/author/", "/search/", "#", "?", "/feed", "/rss"]

  /** The maximum number of links kept. */
  const MaxLinks: nat := 20

  predicate Excluded(link: string) {
    exists k :: 0 <= k < |ExcludePatterns| && ContainsCI(link, ExcludePatterns[k])
  }

  /** An `href` that is present and non-empty (`if href:`), resolved and on the blog's host. */
  predicate Accepted(href: Option<string>, resolve: string -> string, host: string -> string, baseHost: string) {
    href.Some? && href.value != [] && host(resolve(href.value)) == baseHost
  }

  /** The set `article_links` after the selector loops have seen `hrefs`. */
  function Candidates(hrefs: seq<Option<string>>, resolve: string -> string, host: string -> string, baseHost: string): set<string>
    decreases |hrefs|
  {
    if hrefs == [] then {}
    else
      var last := hrefs[|hrefs| - 1];
      Candidates(hrefs[..|hrefs| - 1], resolve, host, baseHost)
        + (if Accepted(last, resolve, host, baseHost) then {resolve(last.value)} else {})
  }

  /** The links that survive the exclusion list. */
  function Eligible(hrefs: seq<Option<string>>, resolve: string -> string, host: string -> string, baseHost: string): set<string> {
    set l | l in Candidates(hrefs, resolve, host, baseHost) && !Excluded(l)
  }

  /** A candidate is the resolved form of an accepted `href`, and every accepted `href` gives one. */
  lemma {:induction false} CandidatesMeaning(hrefs: seq<Option<string>>, resolve: string -> string, host: string -> string, baseHost: string, l: string)
    ensures l in Candidates(hrefs, resolve, host, baseHost) <==>
      exists k :: 0 <= k < |hrefs| && Accepted(hrefs[k], resolve, host, baseHost) && resolve(hrefs[k].value) == l
    decreases |hrefs|
  {
    if hrefs != [] {
      var front := hrefs[..|hrefs| - 1];
      CandidatesMeaning(front, resolve, host, baseHost, l);
      if l in Candidates(front, resolve, host, baseHost) {
        var k :| 0 <= k < |front| && Accepted(front[k], resolve, host, baseHost) && resolve(front[k].value) == l;
        assert hrefs[k] == front[k];
      }
      if exists k :: 0 <= k < |hrefs| && Accepted(hrefs[k], resolve, host, baseHost) && resolve(hrefs[k].value) == l {
        var k :| 0 <= k < |hrefs| && Accepted(hrefs[k], resolve, host, baseHost) && resolve(hrefs[k].value) == l;
        if k < |front| {
          assert front[k] == hrefs[k];
        }
      }
    }
  }

  /** Every candidate lies on the blog's host. */
  lemma CandidatesOnHost(hrefs: seq<Option<string>>, resolve: string -> string, host: string -> string, baseHost: string, l: string)
    requires l in Candidates(hrefs, resolve, host, baseHost)
    ensures host(l) == baseHost
  {
    CandidatesMeaning(hrefs, resolve, host, baseHost, l);
  }

  predicate Distinct(s: seq<string>) {
    forall i, j :: 0 <= i < j < |s| ==> s[i] != s[j]
  }

  /**
   * The selector loops: every accepted `href` is resolved and added to the set.
   */
  method CollectCandidates(hrefs: seq<Option<string>>, resolve: string -> string, host: string -> string, baseHost: string)
    returns (links: set<string>)
    ensures links == Candidates(hrefs, resolve, host, baseHost)
  {
    links := {};
    var i := 0;
    while i < |hrefs|
      invariant i <= |hrefs|
      invariant links == Candidates(hrefs[..i], resolve, host, baseHost)
    {
      assert hrefs[..i + 1][..i] == hrefs[..i];
      var href := hrefs[i];
      if href.Some? && href.value != [] {
        var full := resolve(href.value);
        if host(full) == baseHost {
          links := links + {full};
        }
      }
      i := i + 1;
    }
    assert hrefs[..i] == hrefs;
  }

  /**
   * The filter loop over the set and `list(set(filtered))[:20]`. The set is visited in an order
   * Python does not specify; the model picks the elements in an arbitrary order too.
   */
  method FilterAndCap(candidates: set<string>) returns (links: seq<string>)
    ensures Distinct(links)
    ensures forall l :: l in links ==> l in candidates && !Excluded(l)
    ensures var eligible := set l | l in candidates && !Excluded(l);
      |links| == if |eligible| <= MaxLinks then |eligible| else MaxLinks
  {
    var todo := candidates;
    var filtered: set<string> := {};
    while todo != {}
      invariant todo <= candidates
      invariant filtered == set l | l in candidates && l !in todo && !Excluded(l)
      decreases |todo|
    {
      var link :| link in todo;
      if !Excluded(link) {
        filtered := filtered + {link};
      }
      todo := todo - {link};
    }
    assert filtered == set l | l in candidates && !Excluded(l);
    links := [];
    var rest := filtered;
    while |links| < MaxLinks && rest != {}
      invariant rest <= filtered
      invariant Distinct(links)
      invariant forall l :: l in links ==> l in filtered && l !in rest
      invariant forall l :: l in filtered ==> l in rest || l in links
      invariant |links| + |rest| == |filtered|
      invariant |links| <= MaxLinks
      decreases |rest|
    {
      var link :| link in rest;
      links := links + [link];
      rest := rest - {link};
    }
  }

  /**
   * `extract_blog_links` after the page has been fetched and parsed; `None` stands for a failed
   * fetch or any other exception, which the source turns into an empty list.
   */
  method ExtractBlogLinks(page: Option<seq<Option<string>>>, resolve: string -> string, host: string -> string, baseHost: string)
    returns (links: seq<string>)
    ensures page.None? ==> links == []
    ensures Distinct(links) && |links| <= MaxLinks
    ensures page.Some? ==> forall l :: l in links ==> l in Eligible(page.value, resolve, host, baseHost)
    ensures page.Some? ==> var eligible := Eligible(page.value, resolve, host, baseHost);
      |links| == if |eligible| <= MaxLinks then |eligible| else MaxLinks
    ensures page.Some? ==> var eligible := Eligible(page.value, resolve, host, baseHost);
      |eligible| <= MaxLinks ==> forall l :: l in eligible ==> l in links
  {
    if page.None? {
      return [];
    }
    var candidates := CollectCandidates(page.value, resolve, host, baseHost);
    links := FilterAndCap(candidates);
    var eligible := Eligible(page.value, resolve, host, baseHost);
    if |eligible| <= MaxLinks {
      AllKeptWhenFew(links, eligible);
    }
  }

  /** So every kept link is on the blog's host and matches none of the exclusion patterns. */
  lemma EligibleLinks(hrefs: seq<Option<string>>, resolve: string -> string, host: string -> string, baseHost: string, l: string)
    requires l in Eligible(hrefs, resolve, host, baseHost)
    ensures host(l) == baseHost
    ensures forall k :: 0 <= k < |ExcludePatterns| ==> !ContainsCI(l, ExcludePatterns[k])
    ensures exists k :: 0 <= k < |hrefs| && Accepted(hrefs[k], resolve, host, baseHost) && resolve(hrefs[k].value) == l
  {
    CandidatesOnHost(hrefs, resolve, host, baseHost, l);
    CandidatesMeaning(hrefs, resolve, host, baseHost, l);
  }

  /** With at most twenty eligible links, all of them are kept. */
  lemma AllKeptWhenFew(links: seq<string>, eligible: set<string>)
    requires Distinct(links) && (forall l :: l in links ==> l in eligible) && |links| == |eligible|
    ensures forall l :: l in eligible ==> l in links
  {
    var seen := set l | l in links;
    DistinctCard(links);
    assert seen <= eligible;
    var missing := eligible - seen;
    assert eligible == seen + missing && seen !! missing;
    assert missing == {};
    forall l | l in eligible ensures l in links {
      assert l !in missing;
    }
  }

  lemma {:induction false} DistinctCard(links: seq<string>)
    requires Distinct(links)
    ensures |set l | l in links| == |links|
    decreases |links|
  {
    if links != [] {
      var front := links[..|links| - 1];
      var last := links[|links| - 1];
      DistinctCard(front);
      assert (set l | l in links) == (set l | l in front) + {last};
      assert last !in front;
    }
  }

  // ---- _extract_site_name ----

  /**
   * `_extract_site_name`: the lower-cased host without a leading `www.`, cut at its first dot.
   * `netloc` is `urlparse(url).netloc`, or `None` when `urlparse` raises; then the name is `site`.
   */
  function ExtractSiteName(netloc: Option<string>): (r: string)
    ensures '.' !in r
  {
    if netloc.None? then "site"
    else
      var lowered := Slug.Lower(netloc.value);
      var domain := if StartsWith(lowered, "www.") then lowered[4..] else lowered;
      var dot := Find(domain, '.');
      if dot < 0 then domain else domain[..dot]
  }

  lemma {:induction false} LowerAppend(a: string, b: string)
    ensures Slug.Lower(a + b) == Slug.Lower(a) + Slug.Lower(b)
    decreases |a|
  {
    if a != [] {
      assert (a + b)[1..] == a[1..] + b;
      LowerAppend(a[1..], b);
    } else {
      assert a + b == b;
    }
  }

  lemma {:induction false} LowerKeepsNoDot(s: string)
    requires '.' !in s
    ensures '.' !in Slug.Lower(s)
    decreases |s|
  {
    if s != [] {
      assert s[0] != '.';
      assert '.' !in Slug.LowerChar(s[0]);
      LowerKeepsNoDot(s[1..]);
    }
  }

  lemma LowerOfWww()
    ensures Slug.Lower("www.") == "www."
  {
    var w := "www.";
    assert w[1..] == "ww." && w[1..][1..] == "w." && w[1..][1..][1..] == ".";
  }

  lemma LowerOfDot()
    ensures Slug.Lower(".") == "."
  {
    assert "."[1..] == [];
  }

  lemma LowerOfHost(name: string, rest: string)
    ensures Slug.Lower("www." + name + "." + rest) == "www." + Slug.Lower(name) + "." + Slug.Lower(rest)
  {
    var a, b := "www." + name, "." + rest;
    assert "www." + name + "." + rest == a + b;
    LowerAppend(a, b);
    LowerAppend("www.", name);
    LowerOfWww();
    LowerAppend(".", rest);
    LowerOfDot();
  }

  lemma SplitAfter(p: string, x: string)
    ensures (p + x)[..|p|] == p && (p + x)[|p|..] == x
  {
  }

  lemma FindAfterDotFree(a: string, b: string)
    requires '.' !in a && b != [] && b[0] == '.'
    ensures Find(a + b, '.') == |a| && (a + b)[..|a|] == a
  {
    var s := a + b;
    assert s[..|a|] == a;
    assert s[|a|] == '.';
  }

  lemma SiteNameOfLowered(netloc: string, ln: string, tail: string)
    requires Slug.Lower(netloc) == "www." + (ln + tail)
    requires '.' !in ln && tail != [] && tail[0] == '.'
    ensures ExtractSiteName(Some(netloc)) == ln
  {
    SplitAfter("www.", ln + tail);
    FindAfterDotFree(ln, tail);
  }

  lemma LoweredHostShape(netloc: string, name: string, rest: string)
    requires netloc == "www." + name + "." + rest
    ensures Slug.Lower(netloc) == "www." + (Slug.Lower(name) + ("." + Slug.Lower(rest)))
  {
    LowerOfHost(name, rest);
  }

  /** `www.<name>.<rest>` gives the lower-cased `name`, when `name` has no dot. */
  lemma SiteNameOfHost(netloc: string, name: string, rest: string)
    requires netloc == "www." + name + "." + rest && '.' !in name
    ensures ExtractSiteName(Some(netloc)) == Slug.Lower(name)
  {
    LoweredHostShape(netloc, name, rest);
    LowerKeepsNoDot(name);
    SiteNameOfLowered(netloc, Slug.Lower(name), "." + Slug.Lower(rest));
  }

  lemma LowerOfBareHost(name: string, rest: string)
    ensures Slug.Lower(name + "." + rest) == Slug.Lower(name) + ("." + Slug.Lower(rest))
  {
    assert name + "." + rest == name + ("." + rest);
    LowerAppend(name, "." + rest);
    LowerAppend(".", rest);
    LowerOfDot();
  }

  lemma SiteNameOfBareLowered(netloc: string, ln: string, tail: string)
    requires Slug.Lower(netloc) == ln + tail && !StartsWith(ln + tail, "www.")
    requires '.' !in ln && tail != [] && tail[0] == '.'
    ensures ExtractSiteName(Some(netloc)) == ln
  {
    FindAfterDotFree(ln, tail);
  }

  /** A host with no leading `www.`: `<name>.<rest>` gives the lower-cased `name`, when `name` has no dot. */
  lemma SiteNameOfBareHost(netloc: string, name: string, rest: string)
    requires netloc == name + "." + rest && '.' !in name
    requires !StartsWith(Slug.Lower(netloc), "www.")
    ensures ExtractSiteName(Some(netloc)) == Slug.Lower(name)
  {
    LowerOfBareHost(name, rest);
    LowerKeepsNoDot(name);
    SiteNameOfBareLowered(netloc, Slug.Lower(name), "." + Slug.Lower(rest));
  }

  /** A dot-free host gives all of its lower-cased text: a leading `www.` would hold a dot. */
  lemma SiteNameOfDotFreeHost(netloc: string)
    requires '.' !in netloc
    ensures ExtractSiteName(Some(netloc)) == Slug.Lower(netloc)
  {
    var lowered := Slug.Lower(netloc);
    LowerKeepsNoDot(netloc);
    assert !StartsWith(lowered, "www.") by {
      assert "www."[3] == '.';
    }
  }
}
