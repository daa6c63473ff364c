/**
 * How both scripts name their output files: the value of a `key: '...'` line found with
 * `re.search(key + r": '([^']+)'", text)` is slugified; without it a name is built from the clock.
 */
module Naming {
  import opened Wrappers
  import opened PyStr
  import opened Slug
  import opened Dates

  predicate NotQuote(c: char) {
    c != '\''
  }

  /**
   * The capture of `prefix + "([^']+)'"` matched at the very start of `s`. The group is greedy and
   * `[^']` also takes line breaks, so it runs up to the first quote; the match needs that quote.
   */
  function CaptureAt(s: string, prefix: string): (r: Option<string>)
    ensures r.Some? ==> r.value != [] && '\'' !in r.value
    ensures r.Some? ==> StartsWith(s, prefix + r.value + "'")
  {
    if !StartsWith(s, prefix) then None
    else
      var rest := s[|prefix|..];
      var tail := TrimLeft(rest, NotQuote);
      var n := |rest| - |tail|;
      TrimLeftDropped(rest, NotQuote);
      if n == 0 || tail == [] then None
      else
        var v := rest[..n];
        assert forall i :: 0 <= i < |v| ==> v[i] == rest[i];
        assert s[..|prefix + v + "'"|] == prefix + v + "'" by {
          assert s == prefix + rest;
          assert rest[n] == tail[0];
        }
        Some(v)
  }

  /** `re.search(prefix + "([^']+)'", s).group(1)`: the leftmost match wins. */
  function Search(s: string, prefix: string): Option<string>
    decreases |s|
  {
    if CaptureAt(s, prefix).Some? then CaptureAt(s, prefix)
    else if s == [] then None
    else Search(s[1..], prefix)
  }

  /** A found value is the capture at some position, and no position before it matches. */
  lemma {:induction false} SearchIsLeftmost(s: string, prefix: string) returns (i: nat)
    requires Search(s, prefix).Some?
    ensures i <= |s| && CaptureAt(s[i..], prefix) == Search(s, prefix)
    ensures forall j :: 0 <= j < i ==> CaptureAt(s[j..], prefix).None?
    decreases |s|
  {
    if CaptureAt(s, prefix).Some? {
      i := 0;
    } else {
      var k := SearchIsLeftmost(s[1..], prefix);
      i := k + 1;
      assert s[i..] == s[1..][k..];
      forall j | 0 <= j < i ensures CaptureAt(s[j..], prefix).None? {
        if j > 0 {
          assert s[j..] == s[1..][j - 1..];
        }
      }
    }
  }

  /** Nothing is found exactly when no position matches. */
  lemma {:induction false} SearchNone(s: string, prefix: string)
    ensures Search(s, prefix).None? <==> forall j :: 0 <= j <= |s| ==> CaptureAt(s[j..], prefix).None?
    decreases |s|
  {
    assert s[0..] == s;
    if s != [] {
      SearchNone(s[1..], prefix);
      if CaptureAt(s, prefix).None? {
        forall j | 1 <= j <= |s| ensures s[j..] == s[1..][j - 1..] {}
      }
    }
  }

  /** A value written as `prefix + v + "'"` at the front is found again, whatever follows. */
  lemma CaptureWritten(prefix: string, v: string, rest: string)
    requires v != [] && '\'' !in v
    ensures CaptureAt(prefix + v + "'" + rest, prefix) == Some(v)
  {
    var s := prefix + v + "'" + rest;
    assert s[..|prefix|] == prefix;
    var r := s[|prefix|..];
    assert r == v + ("'" + rest);
    TrimLeftStopsAtQuote(v, "'" + rest);
    assert r[..|v|] == v;
  }

  lemma {:induction false} TrimLeftStopsAtQuote(v: string, t: string)
    requires '\'' !in v && t != [] && t[0] == '\''
    ensures TrimLeft(v + t, NotQuote) == t
    decreases |v|
  {
    if v != [] {
      assert (v + t)[1..] == v[1..] + t;
      TrimLeftStopsAtQuote(v[1..], t);
    } else {
      assert v + t == t;
    }
  }

  const BrandKey: string := "brand: '"
  const ModelKey: string := "model: '"
  const TitleKey: string := "title: '"

  /** The name `save_to_file` gives a product sheet without an explicit name. */
  function ProductFileName(content: string, today: Date): string {
    var brand := Search(content, BrandKey);
    var model := Search(content, ModelKey);
    if brand.Some? && model.Some? then Slugify(brand.value) + "-" + TakeAtMost(Slugify(model.value), 40) + ".mdx"
    else "fiche-" + FormatCompactDate(today) + ".mdx"
  }

  /** The name `save_article` gives a blog article. */
  function ArticleFileName(content: string, now: Timestamp): string {
    var title := Search(content, TitleKey);
    if title.Some? then Slugify(title.value) + ".md"
    else "article-" + FormatCompactDateTime(now) + ".md"
  }

  lemma SlugAlphabet3(a: string, b: string, c: string)
    requires SlugAlphabet(a) && SlugAlphabet(b) && SlugAlphabet(c)
    ensures SlugAlphabet(a + b + c)
  {
    var s := a + b + c;
    forall i | 0 <= i < |s| ensures IsAlnum(s[i]) || s[i] == '-' {
      if i < |a| { assert s[i] == a[i]; }
      else if i < |a| + |b| { assert s[i] == b[i - |a|]; }
      else { assert s[i] == c[i - |a| - |b|]; }
    }
  }

  /** With both values found, the name joins the brand slug and the model slug cut to its first 40 characters. */
  lemma ProductFileNameFromValues(content: string, today: Date) returns (m: string)
    requires Search(content, BrandKey).Some? && Search(content, ModelKey).Some?
    ensures var model := Slugify(Search(content, ModelKey).value);
      && |m| <= 40 && |m| <= |model| && m == model[..|m|] && (|model| <= 40 ==> m == model) && (|model| > 40 ==> m == model[..40])
      && ProductFileName(content, today) == Slugify(Search(content, BrandKey).value) + "-" + m + ".mdx"
  {
    m := TakeAtMost(Slugify(Search(content, ModelKey).value), 40);
  }

  /** Otherwise the name is `fiche-` and the eight digits of the date. */
  lemma ProductFileNameFallback(content: string, today: Date)
    requires Search(content, BrandKey).None? || Search(content, ModelKey).None?
    requires ValidDate(today)
    ensures var stamp := FormatCompactDate(today);
      && |stamp| == 8 && AllDigits(stamp)
      && ProductFileName(content, today) == "fiche-" + stamp + ".mdx"
  {
    DigitsOfCompactDate(today);
  }

  lemma DigitsOfCompactDate(d: Date)
    ensures AllDigits(FormatCompactDate(d))
  {
    var y, m, dd := Decimal(d.year, 4), Decimal(d.month, 2), Decimal(d.day, 2);
    var s := y + m + dd;
    forall i | 0 <= i < |s| ensures IsAsciiDigit(s[i]) {
      if i < |y| { assert s[i] == y[i]; }
      else if i < |y| + |m| { assert s[i] == m[i - |y|]; }
      else { assert s[i] == dd[i - |y| - |m|]; }
    }
  }

  lemma DigitsOfCompactDateTime(t: Timestamp)
    ensures SlugAlphabet(FormatCompactDateTime(t))
  {
    var d := FormatCompactDate(t.date);
    DigitsOfCompactDate(t.date);
    var h, mi, se := Decimal(t.hour, 2), Decimal(t.minute, 2), Decimal(t.second, 2);
    SlugAlphabet3(d, "-", h);
    SlugAlphabet3(d + "-" + h, mi, se);
  }

  lemma PrefixAlphabet(s: string, n: nat)
    requires SlugAlphabet(s)
    ensures SlugAlphabet(TakeAtMost(s, n))
  {
    var m := TakeAtMost(s, n);
    forall i | 0 <= i < |m| ensures IsAlnum(m[i]) || m[i] == '-' {
      assert m[i] == s[i];
    }
  }

  lemma FoundStemAlphabet(brand: string, model: string)
    ensures SlugAlphabet(Slugify(brand) + "-" + TakeAtMost(Slugify(model), 40))
  {
    SlugifyIsSlug(brand);
    SlugifyIsSlug(model);
    JoinedStemAlphabet(Slugify(brand), Slugify(model));
  }

  lemma JoinedStemAlphabet(b: string, m: string)
    requires SlugAlphabet(b) && SlugAlphabet(m)
    ensures SlugAlphabet(b + "-" + TakeAtMost(m, 40))
  {
    PrefixAlphabet(m, 40);
    SlugAlphabet3(b, "-", TakeAtMost(m, 40));
  }

  lemma DatedStemAlphabet(prefix: string, stamp: string)
    requires SlugAlphabet(prefix) && AllDigits(stamp)
    ensures SlugAlphabet(prefix + stamp)
  {
    SlugAlphabet3(prefix, stamp, "");
    assert prefix + stamp + "" == prefix + stamp;
  }

  /** The part of a product name before `.mdx` uses only `[a-z0-9-]`. */
  lemma ProductStemAlphabet(content: string, today: Date) returns (stem: string)
    ensures SlugAlphabet(stem) && ProductFileName(content, today) == stem + ".mdx"
  {
    var brand := Search(content, BrandKey);
    var model := Search(content, ModelKey);
    if brand.Some? && model.Some? {
      FoundStemAlphabet(brand.value, model.value);
      stem := Slugify(brand.value) + "-" + TakeAtMost(Slugify(model.value), 40);
    } else {
      DigitsOfCompactDate(today);
      DatedStemAlphabet("fiche-", FormatCompactDate(today));
      stem := "fiche-" + FormatCompactDate(today);
    }
  }

  /** So a product name has no `/`, and `os.path.basename` leaves it as it is. */
  lemma ProductFileNameHasNoSlash(content: string, today: Date)
    ensures '/' !in ProductFileName(content, today)
    ensures Basename(ProductFileName(content, today)) == ProductFileName(content, today)
  {
    var stem := ProductStemAlphabet(content, today);
    NoSlashWithSuffix(stem, ".mdx");
  }

  lemma NoSlashWithSuffix(stem: string, suffix: string)
    requires SlugAlphabet(stem) && '/' !in suffix
    ensures '/' !in stem + suffix
  {
    var name := stem + suffix;
    forall i | 0 <= i < |name| ensures name[i] != '/' {
      if i < |stem| { assert name[i] == stem[i]; } else { assert name[i] == suffix[i - |stem|]; }
    }
  }

  /** Every article name uses only `[a-z0-9-]` and the `.md` suffix, so it has no `/`. */
  lemma ArticleFileNameHasNoSlash(content: string, now: Timestamp)
    ensures '/' !in ArticleFileName(content, now)
  {
    var title := Search(content, TitleKey);
    var stem: string;
    if title.Some? {
      SlugifyIsSlug(title.value);
      stem := Slugify(title.value);
    } else {
      DigitsOfCompactDateTime(now);
      SlugAlphabet3("article-", FormatCompactDateTime(now), "");
      assert "article-" + FormatCompactDateTime(now) + "" == "article-" + FormatCompactDateTime(now);
      stem := "article-" + FormatCompactDateTime(now);
    }
    NoSlashWithSuffix(stem, ".md");
  }

  /**
   * A title written as `title: '<v>'` at the top of the article names the file after `v`. A
   * quote in the title ends the capture early: an escaped `''` quote leaves only the text before it.
   */
  lemma ArticleNamedAfterLeadingTitle(v: string, rest: string, now: Timestamp)
    requires v != [] && '\'' !in v
    ensures ArticleFileName(TitleKey + v + "'" + rest, now) == Slugify(v) + ".md"
  {
    CaptureWritten(TitleKey, v, rest);
  }

  /**
   * The same for a title line anywhere, such as after the `publishDate` line of a generated
   * article, when no match starts earlier in the text.
   */
  lemma ArticleNamedAfterTitle(pre: string, v: string, rest: string, now: Timestamp)
    requires v != [] && '\'' !in v
    requires forall j :: 0 <= j < |pre| ==> CaptureAt((pre + TitleKey + v + "'" + rest)[j..], TitleKey).None?
    ensures ArticleFileName(pre + TitleKey + v + "'" + rest, now) == Slugify(v) + ".md"
  {
    var s := pre + TitleKey + v + "'" + rest;
    assert s[|pre|..] == TitleKey + v + "'" + rest;
    CaptureWritten(TitleKey, v, rest);
    SearchAt(s, TitleKey, |pre|);
  }

  /** The search finds the capture at `k` when no earlier position matches. */
  lemma {:induction false} SearchAt(s: string, prefix: string, k: nat)
    requires k <= |s| && CaptureAt(s[k..], prefix).Some?
    requires forall j :: 0 <= j < k ==> CaptureAt(s[j..], prefix).None?
    ensures Search(s, prefix) == CaptureAt(s[k..], prefix)
    decreases k
  {
    assert s[0..] == s;
    if k > 0 {
      forall j | 0 <= j < k - 1 ensures CaptureAt(s[1..][j..], prefix).None? {
        assert s[1..][j..] == s[j + 1..];
      }
      assert s[1..][k - 1..] == s[k..];
      SearchAt(s[1..], prefix, k - 1);
    }
  }

  /**
   * Without a title the name is `article-`, then the fifteen characters of
   * `strftime('%Y%m%d-%H%M%S')`: eight digits, `-`, six digits.
   */
  lemma ArticleFileNameFallback(content: string, now: Timestamp)
    requires Search(content, TitleKey).None?
    requires ValidTimestamp(now)
    ensures var stamp := FormatCompactDateTime(now);
      && |stamp| == 15 && stamp[8] == '-'
      && (forall i :: 0 <= i < 15 && i != 8 ==> IsAsciiDigit(stamp[i]))
      && ArticleFileName(content, now) == "article-" + stamp + ".md"
  {
    var d := FormatCompactDate(now.date);
    DigitsOfCompactDate(now.date);
    var t := Decimal(now.hour, 2) + Decimal(now.minute, 2) + Decimal(now.second, 2);
    DigitsOfTime(now);
    var stamp := FormatCompactDateTime(now);
    assert stamp == d + "-" + t;
    forall i | 0 <= i < 15 && i != 8 ensures IsAsciiDigit(stamp[i]) {
      if i < 8 { assert stamp[i] == d[i]; } else { assert stamp[i] == t[i - 9]; }
    }
  }

  /** `%H%M%S` is six digits. */
  lemma DigitsOfTime(now: Timestamp)
    requires ValidTimestamp(now)
    ensures var t := Decimal(now.hour, 2) + Decimal(now.minute, 2) + Decimal(now.second, 2);
      |t| == 6 && AllDigits(t) && |FormatCompactDate(now.date)| == 8
  {
    var h, mi, se := Decimal(now.hour, 2), Decimal(now.minute, 2), Decimal(now.second, 2);
    var t := h + mi + se;
    forall i | 0 <= i < |t| ensures IsAsciiDigit(t[i]) {
      if i < |h| { assert t[i] == h[i]; }
      else if i < |h| + |mi| { assert t[i] == mi[i - |h|]; }
      else { assert t[i] == se[i - |h| - |mi|]; }
    }
  }
}
