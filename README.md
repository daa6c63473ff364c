# ScrapX core in Dafny

ScrapX is two command-line scrapers.

- `scriptfiche.py` reads a list of article URLs. For each URL it scrapes the article (title, main text, product image) and asks a language model for the product facts as JSON. It then writes a product sheet to `./fiche`. The sheet has a fixed-order YAML front matter followed by an MDX body.
- `scriptblog.py` reads a list of URLs. Each is either a single article or a blog page, told apart by a URL classifier; for a blog page it collects the article links. It scrapes each article, has the model rewrite it as a Markdown blog post, cleans the reply of code fences, and saves it under `articles`.

This project models the deterministic core of both scripts and proves what that code promises. The core is:

- slugs and file names;
- YAML escaping and front-matter assembly;
- the JSON brace slice;
- the URL classifier;
- link filtering;
- the selector fallback chains;
- fence cleaning;
- the URL-file line filters;
- the per-URL bookkeeping of the batch runs.

The world outside is passed in as parameters:

- HTTP fetching: the parsed page of a URL, or `None`.
- BeautifulSoup: for each selector, the element `select_one` returns, plus the `<body>`, the whole document and the `<base href>`.
- `urljoin` and `urlparse`: abstract functions.
- The language model: its reply as a function of its inputs, or `None` when the call raises.
- `json.loads`: a function returning typed product facts, or `None`.
- The file system: whether a write succeeds, and a file's lines or `None`.
- The clock: one date (`Date`) or time (`Timestamp`) per run.

Modules, in dependency order:

- `Wrappers`: `Option`.
- `PyStr`: Python `str` behaviour.
- `Slug`: `_slugify`.
- `Yaml`: `_escape_yaml_string`.
- `Dates`: `strftime` and `strptime`.
- `Naming`: output file names.
- `Html`: what the scripts see of a parsed page.
- `Extract`: the selector chains.
- `Classifier`: `is_single_article_url`.
- `Links`: `extract_blog_links` and `_extract_site_name`.
- `Cleaner`: `_clean_markdown_response`.
- `ProductSheet`: the JSON slice and the front matter.
- `UrlList`: the URL-file line filter.
- `FichePipeline`: the run of `scriptfiche.py`.
- `BlogPipeline`: the run of `scriptblog.py`.

The scripts' loops are modelled as methods with loops (building the front matter, collecting and capping links, the content scan, the URL-file filters, the batch runs). Each such method except `Links.FilterAndCap` and `Links.ExtractBlogLinks` is proved equal to a specification function, and lemmas state what that function means. Those two take their links from a Python set, whose iteration order is unspecified, so they are proved only to return distinct eligible links, at most 20 of them, and exactly `min(20, number of eligible links)`.

In these places the model follows the code as written:

- The fence cleaner is case-sensitive and knows only the `markdown` tag. It does not drop a stray `yaml` line and does not add a missing `---` delimiter.
- `category` is written as given and is not checked against a closed list.
- Dates are accepted as `datetime.strptime(s, '%Y-%m-%d')` accepts them, so one-digit months and days pass too (`Dates.ShortFieldsAccepted`).
- The key `original_article_url` is added to the facts but never written to the front matter (`FichePipeline.SourceNotWritten`).

## Model

| member | source | states |
|---|---|---|
| Yaml.EscapeLength | scriptfiche.py:18-21 | the escaped text is as long as the input plus its number of single quotes |
| Yaml.EscapeIsWellEscaped | scriptfiche.py:18-21 | every quote in the escaped text belongs to a doubled pair |
| Yaml.UnescapeEscape | scriptfiche.py:18-21 | reading a doubled quote back as one quote (YAML 1.2 section 7.3.2) recovers the input |
| Yaml.EscapeUnescape | scriptfiche.py:18-21 | conversely, every well-escaped text is the escape of its reading |
| Yaml.EscapeWithoutQuotes | scriptfiche.py:18-21 | a text without quotes is left unchanged |
| Yaml.EscapeValue | scriptfiche.py:18-21 | a non-string value is returned as it is; a string comes back well escaped and reads back as the input |
| Slug.FoldAccents | scriptfiche.py:488-491 | each accented letter of the table is replaced by its base letter, position by position |
| Slug.SlugifyIsSlug | scriptfiche.py:484-498 | a slug uses only `[a-z0-9-]`, has no `-` at either end and no `--` |
| Slug.SlugifyOfSlug | scriptfiche.py:484-498 | a text that is already a slug is its own slug |
| Slug.SlugifyIdempotent | scriptblog.py:303-317 | slugifying twice is slugifying once |
| Naming.SearchIsLeftmost | scriptfiche.py:509-510 | the captured value is the one of the leftmost `key: '...'` occurrence, and nothing matches before it |
| Naming.SearchNone | scriptfiche.py:509-512 | the search fails exactly when no position starts a match |
| Naming.CaptureWritten | scriptfiche.py:509-514 | a line `key: 'v'` with `v` non-empty and quote-free gives back `v` |
| Naming.ProductFileNameFromValues | scriptfiche.py:512-521 | with brand and model found, the name is `slug(brand)-m.mdx`, where `m` is the model slug cut to its first 40 characters: all of it when it has at most 40, otherwise exactly its first 40 |
| Naming.ProductFileNameFallback | scriptfiche.py:522-529 | without brand or model, the name is `fiche-<8 digits of today>.mdx` |
| Naming.ProductStemAlphabet | scriptfiche.py:506-529 | every product file name is a stem over `[a-z0-9-]` followed by `.mdx` |
| Naming.ProductFileNameHasNoSlash | scriptfiche.py:506-532 | a derived product file name holds no `/`, so `basename` keeps it whole |
| Naming.ArticleFileNameHasNoSlash | scriptblog.py:325-333 | a derived article file name holds no `/` |
| Naming.ArticleNamedAfterLeadingTitle | scriptblog.py:325-330 | an article starting with `title: 'v'` is named `slug(v).md` |
| Naming.ArticleNamedAfterTitle | scriptblog.py:325-329 | a `title: 'v'` line anywhere in the text, such as after the `publishDate` line of a generated article, names the file `slug(v).md` when no match starts earlier |
| Naming.ArticleFileNameFallback | scriptblog.py:330-333 | without a title the name is `article-`, fifteen characters of `%Y%m%d-%H%M%S` (eight digits, `-`, six digits) and `.md` |
| Dates.Decimal | scriptfiche.py:297 | a number is written in decimal digits, zero-padded to the requested width |
| Dates.ParseIsoDate | scriptfiche.py:300-307 | only real calendar dates are accepted |
| Dates.ParseFormattedDate | scriptfiche.py:297-307 | the date written with `%Y-%m-%d` is read back as the same date |
| Dates.LeapDayAccepted | scriptfiche.py:301 | `2024-02-29` is a valid date |
| Dates.NonLeapDayRefused | scriptfiche.py:301 | `2023-02-29` is refused |
| Dates.ShortFieldsAccepted | scriptfiche.py:301 | `strptime` also accepts one-digit months and days |
| Dates.YearZeroRefused | scriptfiche.py:301 | year 0 is refused |
| Extract.SearchSelectors | scriptfiche.py:159-177 | the selector loop returns what the first-usable-selector function gives |
| Extract.FirstPickIsFirst | scriptfiche.py:159-177 | a found value comes from a usable selector, and no earlier selector was usable |
| Extract.FirstUsableWins | scriptfiche.py:159-177 | the first usable selector decides the value |
| Extract.FirstPickNone | scriptfiche.py:159-180 | nothing is found exactly when no selector is usable |
| Extract.ExtractTitle | scriptfiche.py:101-110 | the title loop computes the first non-blank stripped title, or `Titre non trouvé` |
| Extract.TitleIsTrimmed | scriptfiche.py:101-110 | the title never starts or ends with white space |
| Extract.ExtractMainContent | scriptfiche.py:112-131 | the content loop computes the text of the first matching element, else of the body, else of the whole page |
| Extract.FirstContentElementDecides | scriptfiche.py:122-125 | the first selector that finds an element decides the content, whatever its text |
| Extract.BodyFallback | scriptfiche.py:127-131 | with no selector matching, the body text is used, or the whole page's without a body |
| Extract.QueryFree | scriptfiche.py:171 | cutting at the first `?` leaves a prefix without `?` |
| Extract.Absolute | scriptfiche.py:173-176 | an absolute URL, or any URL on a page without `<base href>`, is kept as it is |
| Extract.ExtractProductImage | scriptfiche.py:133-180 | the image loop computes the first usable image URL of the product image chain, or the default image |
| Extract.DataSrcPreferred | scriptfiche.py:163-167 | for a non-meta element a non-empty `data-src` wins over `src` |
| Extract.ProductImageWithoutBase | scriptfiche.py:169-180 | without `<base href>` the product image is the default or a URL without query |
| Extract.ExtractMainImage | scriptblog.py:133-166 | the image loop computes the first usable blog image URL, or `None` |
| Extract.OpenGraphImageWins | scriptblog.py:149-164 | a non-empty `og:image` content wins over every other selector |
| Extract.BlogImageAbsent | scriptblog.py:149-166 | there is no image exactly when no selector yields a URL |
| Extract.SelectBlogContent | scriptblog.py:177-208 | the content scan with its `break` computes the blog content function |
| Extract.BlogContent | scriptblog.py:206-207 | reported content is always longer than 100 characters |
| Extract.ScanStopsAtFirstLong | scriptblog.py:189-195 | the scan stops at the first selector whose text is longer than 200 characters |
| Extract.ScanWithoutLongText | scriptblog.py:189-195 | without a long text, the scan ends with the text of the last selector that found an element |
| Extract.ShortContentUsesBody | scriptblog.py:197-207 | scanned content shorter than 200 characters is replaced by the body text, kept only above 100 characters |
| Html.StrippedTextIsTrimmed | scriptblog.py:194 | `get_text(strip=True)` never starts or ends with white space |
| Classifier.HomepageMeaning | scriptblog.py:53-65 | a homepage pattern matches exactly when the URL ends in `/` or has `/page/`, `/category/` or `/tag/` in any case |
| Classifier.HomepageWins | scriptblog.py:63-69 | such a URL is not an article, even when an article pattern matches too |
| Classifier.SlugAtEndMeaning | scriptblog.py:48 | `/[^/]+$` matches exactly the URLs that contain `/` and do not end in `/` |
| Classifier.SlashedUrlIsArticle | scriptblog.py:41-69 | every URL with a `/` and no homepage match is an article |
| Classifier.SlashFreeArticle | scriptblog.py:41-50 | for a URL without `/`, only the `-digits` and the seven-digit patterns can match |
| Classifier.ShallowPath | scriptblog.py:71-72 | a path without `/` has depth one |
| Classifier.ClassifierMeaning | scriptblog.py:39-72 | the classifier in closed form: no homepage match, and a `/`, a trailing `-digits`, the seven-digit id or a deep path |
| Classifier.FallbackNeverAccepts | scriptblog.py:71-72 | when the path's slashes come from the URL, the depth fallback never decides anything |
| Classifier.DatedPostIsArticle | scriptblog.py:41-69 | `https://example.com/2023/my-post` is an article |
| Classifier.BlogIndexIsNotArticle | scriptblog.py:53-65 | `https://example.com/blog/` is not an article |
| Links.CollectCandidates | scriptblog.py:100-107 | the collecting loop builds the set of resolved same-host links |
| Links.CandidatesMeaning | scriptblog.py:100-107 | a link is collected exactly when some `href` is present, resolves to it and is on the blog's host |
| Links.FilterAndCap | scriptblog.py:109-127 | the filter keeps distinct, non-excluded candidates, as many as there are up to 20 |
| Links.ExtractBlogLinks | scriptblog.py:74-131 | the links are distinct, at most 20, all eligible, and all eligible links are kept when there are at most 20; a failed fetch gives none |
| Links.EligibleLinks | scriptblog.py:106-124 | an eligible link is on the blog's host, matches no exclusion pattern, and comes from some `href` |
| Links.AllKeptWhenFew | scriptblog.py:127 | distinct links, all eligible, as many as the eligible ones, are all of them |
| Links.ExtractSiteName | scriptblog.py:280-289 | the site name holds no dot |
| Links.SiteNameOfHost | scriptblog.py:284-287 | `www.name.rest` with a dot-free `name` gives the lower-cased `name` |
| Links.SiteNameOfBareHost | scriptblog.py:284-287 | `name.rest` whose lower-cased form does not start with `www.`, with a dot-free `name`, gives the lower-cased `name` |
| Links.SiteNameOfDotFreeHost | scriptblog.py:284-287 | a host with no dot gives the whole host, lower-cased |
| Cleaner.CleanResult | scriptblog.py:214-224 | the cleaned reply contains no ```` ``` ```` and has no white space at either end |
| Cleaner.CleanIdempotent | scriptblog.py:214-224 | cleaning twice is cleaning once |
| Cleaner.CleanUnwrapsFencedBlock | scriptblog.py:214-224 | a ```` ```markdown ```` fenced block comes out as exactly its trimmed inside |
| Cleaner.DropFencesLeavesNone | scriptblog.py:222-223 | the last pass leaves no ```` ``` ```` |
| Cleaner.ClosingDropsFinalFence | scriptblog.py:218-219 | a closing fence on its own last line is removed |
| ProductSheet.JsonCandidateShape | scriptfiche.py:271-279 | no text is parsed when a brace is missing; otherwise the stripped reply from its first `{` through its last `}` is parsed (empty when they are out of order) |
| ProductSheet.JsonCandidateBraces | scriptfiche.py:273-279 | the parsed text then starts with `{` and ends with `}` |
| ProductSheet.AppendItems | scriptfiche.py:330-331 | the item loop appends one item line per item, in order |
| ProductSheet.ItemLinesAt | scriptfiche.py:330-331 | item line `i` is the line of item `i` |
| ProductSheet.GenerateMarkdown | scriptfiche.py:292-348 | no sheet for a missing or empty dictionary; otherwise the front matter document, which starts with `---\n` |
| ProductSheet.MarkdownOutcome | scriptfiche.py:292-294 | a sheet is produced exactly for a non-empty dictionary, and starts with `---\n` |
| ProductSheet.DocumentShape | scriptfiche.py:348 | the sheet is `---\n`, the joined lines, `\n---\n\n` and the body, at the stated offsets |
| ProductSheet.KeyOrder | scriptfiche.py:316-346 | the front matter keys are name, brand, model, image, amazonASIN, publishDate, updateDate, draft, title, hookIntro, keyBenefits, keyFeatures, detailedSpecs, ctaText, affiliateLink, category, tags, in this order |
| ProductSheet.ListLayout | scriptfiche.py:316-346 | the front matter has `17 + |lists|` lines, and the three list headers are always there, each followed by its items |
| ProductSheet.BenefitsReadBack | scriptfiche.py:329-331 | each benefit line reads back as the benefit, in input order |
| ProductSheet.FeaturesReadBack | scriptfiche.py:333-335 | each feature line reads back as the feature, in input order |
| ProductSheet.TagsReadBack | scriptfiche.py:344-346 | each tag line reads back as the tag, in input order |
| ProductSheet.ItemLineReadsBack | scriptfiche.py:331 | an item line `  - '<escaped>'` reads back as the item |
| ProductSheet.ScalarLineReadsBack | scriptfiche.py:317 | a line `key: '<escaped>'` reads back as the value |
| ProductSheet.StringFields | scriptfiche.py:316-342 | each string key's line reads back as its value, or as `''` when it is missing |
| ProductSheet.ImageDefault | scriptfiche.py:310-320 | a missing or empty image is written as the placeholder URL, any other as it is |
| ProductSheet.AsinDefault | scriptfiche.py:321 | a missing ASIN is written as `ASIN_PLACEHOLDER` |
| ProductSheet.DraftDefault | scriptfiche.py:324 | `draft` is written `true` only when it is true, otherwise `false` |
| ProductSheet.DatesAreValid | scriptfiche.py:297-323 | both dates are written as valid dates: the given one when it parses, otherwise today |
| UrlList.SelectMeaning | scriptblog.py:467-470 | a line is selected exactly when it occurs, is non-empty, is not a comment and is accepted |
| UrlList.KeptLinesMeaning | scriptfiche.py:48-59 | a URL is kept exactly when some line strips to it and it is wanted |
| UrlList.KeptLinesAreClean | scriptfiche.py:48-59 | every kept URL is stripped, non-empty, not a comment and accepted |
| UrlList.KeptLinesSnoc | scriptfiche.py:48-59 | one more line adds its stripped text exactly when that is wanted |
| FichePipeline.LoadUrlsFromFile | scriptfiche.py:39-70 | a missing file gives no URLs; otherwise the loop keeps the wanted stripped lines in file order |
| FichePipeline.ScrapeArticle | scriptfiche.py:72-99 | a failed fetch gives `None`; otherwise the article's url, title, content and image |
| FichePipeline.GenerateProductSheet | scriptfiche.py:182-206 | the sheet produced for the model's reply to the article |
| FichePipeline.SheetForOutcome | scriptfiche.py:182-206 | a sheet comes out exactly when the reply is non-empty, has both braces and parses to a non-empty dictionary; it is then the markdown of that dictionary with the source URL added |
| FichePipeline.SourceNotWritten | scriptfiche.py:196-198 | the source URL added to the facts does not change the front matter |
| FichePipeline.SaveToFile | scriptfiche.py:500-541 | the path is returned exactly when the write succeeds |
| FichePipeline.SheetPathInFolder | scriptfiche.py:503-532 | the path is directly inside `./fiche`, and without a name it is the derived name |
| FichePipeline.ProcessSingleUrl | scriptfiche.py:422-439 | scraping then generating, with no sheet when the fetch fails |
| FichePipeline.ProcessUrl | scriptfiche.py:451-475 | the record of one URL |
| FichePipeline.ProcessAllUrls | scriptfiche.py:441-482 | the loop builds the records of the URLs, one per URL |
| FichePipeline.RecordsAt | scriptfiche.py:447-475 | record `i` is the record of URL `i` |
| FichePipeline.RecordMeaning | scriptfiche.py:453-475 | a record names its URL and succeeds exactly when it has a file; a failed fetch fails; a success was written to `./fiche/<derived name>` |
| FichePipeline.RecordsFollowUrls | scriptfiche.py:447-482 | one record per URL, in order, with `url == urls[i]`, and success exactly when a file name is set |
| BlogPipeline.LoadConfig | scriptblog.py:452-489 | the loop computes the configuration |
| BlogPipeline.ConfigMeaning | scriptblog.py:452-489 | a key is returned exactly when it is set and the file lists a URL; the URLs are then the file's stripped lines, none empty or a comment |
| BlogPipeline.ScrapeArticleContent | scriptblog.py:168-212 | a failed fetch gives `None`; otherwise the chosen content (`None` at 100 characters or fewer) and the main image |
| BlogPipeline.GenerateBlogArticle | scriptblog.py:226-278 | the cleaned reply to the first 3000 characters of the content, `None` for an empty or missing reply |
| BlogPipeline.CleanedReplyMeaning | scriptblog.py:268-274 | an article comes back exactly for a non-empty reply, without fences and trimmed |
| BlogPipeline.SaveArticle | scriptblog.py:319-346 | the path is returned exactly when the write succeeds |
| BlogPipeline.ArticlePathInFolder | scriptblog.py:325-336 | the path is `articles/` followed by the derived name, which holds no `/` |
| BlogPipeline.ProcessSingleArticle | scriptblog.py:348-373 | scrape, generate and save, with `None` at the first step that fails |
| BlogPipeline.ArticleForMeaning | scriptblog.py:348-373 | a saved article was fetched, had usable content, and was written to `articles/<its name>`; a failed fetch saves nothing |
| BlogPipeline.AsWrittenRaisesOnMissingContent | scriptblog.py:352-357 | as written, it raises exactly for a fetched page without usable content, and agrees with the corrected form otherwise |
| BlogPipeline.KeptMeaning | scriptblog.py:393-396 | a path is kept exactly when some URL gave that path |
| BlogPipeline.KeptComplete | scriptblog.py:384-404 | nothing is dropped exactly when every URL gave a path |
| BlogPipeline.SuccessesMeaning | scriptblog.py:384-404 | at most one path per URL; a path is listed exactly when some URL's article was saved under it |
| BlogPipeline.ProcessMultipleUrls | scriptblog.py:375-404 | the loop computes the saved paths in input order |
| BlogPipeline.BatchMeaning | scriptblog.py:384-404 | a batch raises exactly when one of its URLs raises, and otherwise keeps the paths that were returned |
| BlogPipeline.BatchAsWrittenMeaning | scriptblog.py:384-393 | as written, the batch raises exactly when one of its URLs does, and otherwise equals the corrected batch |
| BlogPipeline.ScanOfNothing | scriptblog.py:189-195 | when no selector finds an element, the scan keeps its starting content |
| BlogPipeline.NoContentPageAbortsBatch | scriptblog.py:352-357 | one page without text anywhere in the list aborts the batch as written, while the corrected batch keeps every other URL's article |
| BlogPipeline.SliceFromStart | scriptblog.py:426 | `article_links[:max_articles]` is a prefix of `max_articles` links, or all but the last `-max_articles` for a negative bound |
| BlogPipeline.ProcessBlog | scriptblog.py:406-450 | a single article is processed alone; otherwise the first `max_articles` of at most 20 distinct, eligible links are processed in order; when the page gives its links, exactly `min(20, number of eligible links)` are collected, and all of them when there are at most 20 |
| BlogPipeline.BlogRunBound | scriptblog.py:426-446 | a blog run saves at most 20 articles, and at most `max_articles` |
| BlogPipeline.ProcessBlogAsWrittenMeaning | scriptblog.py:426-434 | as written, a blog run raises exactly when a processed link has a page without usable content, and otherwise agrees |
| BlogPipeline.NoContentLinkAbortsBlog | scriptblog.py:426-434 | one link to a page without text aborts the blog run as written, while the corrected run keeps every other link's article |

## Left out

- HTTP fetching, `raise_for_status`, headers and timeouts: network I/O. A fetch is a parameter returning a page or `None`.
- HTML parsing, CSS selector matching and `decompose`: BeautifulSoup code. The page is given as the lookup results of each selector. The removal of `script`, `style` and the other tags is taken to have happened before the lookups.
- `urljoin` and `urlparse`: library code following RFC 3986. They are abstract functions; `resolve` for `urljoin`, and `host` and `pathOf` for `netloc` and `path`.
- The language model, `genai.configure` and the prompts (`_create_gemini_prompt`, and the prompt text of `generate_blog_article` with its default image and timestamp): an external service and fixed prose. The reply is a parameter of what the prompt is built from.
- `json.loads`: a foreign parser. It is a parameter returning typed product facts. Values of another JSON type (a number as `name`, a list of non-strings) are left out.
- The file system (`os.makedirs`, `open`, `write`, `os.path.exists`, `load_dotenv`, `os.getenv`): I/O. A write is a success flag (apart from the `makedirs` of `save_to_file`, below); a file is its lines or `None`; the API key is an optional string.
- `datetime.now()`: the clock is one `Date` (product sheets) or one `Timestamp` (blog articles) per run, while the script reads it afresh at each call.
- `time.sleep` pacing, every `print`, `main`, `argparse`, `input()` and `sys.exit`: CLI layer and logging.
- `_extract_tags`: never called.
- The MDX body of a product sheet: fixed template prose. It is a function `body` of the facts, appended after the front matter.
- The `raw_html` entry of the scraped article: it is built and never read, neither by the prompt nor anywhere else.
- `main` of `scriptblog.py`, which splits the URL list with the classifier before calling the two batch operations: CLI layer. Both operations are modelled.
- The worked example `'Café & Thé!'` → `cafe-the`: evaluating the recursive slug functions on a literal is beyond the solver's budget. The general properties (alphabet, hyphens, idempotence, accent folding) are proved instead.
- Yaml.Escape: does not handle newlines or other characters that a single-quoted YAML scalar would fold, because the source does not either.
- Dates.ParseIsoDate: accepts only ASCII digits, while `strptime`'s `%Y`, `%m` and `%d` use the Unicode `\d` and `int()` reads any Unicode decimal digit. A date such as `２０２４-01-15` (full-width digits) is written as given by the script; the model replaces it with today's date (`ProductSheet.DatesAreValid`).
- Dates.Decimal: writes years below 1000 with four digits. The C library's `%Y` may write them unpadded; the scripts' clock does not give such years.
- Links.ExtractBlogLinks: the order of the 20 kept links comes from Python's set iteration, which is unspecified. The model proves only membership, distinctness and the count of an order it chooses. The exclusion test of `Links.Excluded` folds only ASCII case, while `re.IGNORECASE` also lets `ſ` (U+017F) match `s`; a link such as `/ſearch/x` is dropped by the script and kept by the model. `resolve` and `host` are total, while `urljoin` and `urlparse` raise `ValueError` on an unbalanced bracketed host such as `http://[x/`; inside the script's `try`, one such href makes the whole result `[]`, whereas the model keeps the other links.
- FichePipeline.ScrapeArticle and BlogPipeline.ScrapeArticleContent: the `resolve` both receive (through `Extract.Absolute`) is total, while `urljoin(base_href, image_url)` raises `ValueError` for a `<base href>` with an unbalanced bracketed host such as `http://[x/` and a relative image URL. Inside the scrape's `try`, the script then returns `None` for the whole article: it writes no sheet for that URL, and the blog batch skips it. The model produces the article.
- FichePipeline.SaveToFile, FichePipeline.ProcessUrl and FichePipeline.ProcessAllUrls: `os.makedirs("./fiche", exist_ok=True)` (scriptfiche.py:504) runs before the `try` of `save_to_file`. If it raises, for example because `./fiche` is a regular file or is not writable, the exception leaves `process_all_urls`, `main`'s `except Exception` prints it and exits with status 1, and no record list is produced. The model folds that failure into the `write` flag, so it returns a failed record for each URL instead of aborting the run. `BlogPipeline.SaveArticle` is unaffected: its `makedirs` is inside the `try`.
- Links.ExtractSiteName: `None` stands for a `urlparse` that raises. `lower()` is exact for ASCII, Latin-1 and a few other letters; other capitals in a host name are kept as they are.
- Classifier.ClassifierMeaning: Unicode digits (`\d` beyond ASCII) and Unicode case folding under `re.IGNORECASE` are not modelled; only ASCII letters fold.

## Findings

| source | as written | input that shows it | evidently intended | confidence | as-written member | corrected member |
|---|---|---|---|---|---|---|
| scriptblog.py:352-357 | `scrape_article_content` returns a dictionary whose `content` is `None` for a short page. That dictionary passes `if not content`, and `len(content['content'])` then raises `TypeError`. Nothing in `process_multiple_urls` catches it, so one short page ends the whole batch. Articles saved before that URL stay in `articles/`; every later URL is never processed, and the list of saved paths is never returned, so `main` prints no summary of them and goes on to no blog page. | a URL whose fetched page has no matching selector and an empty `<body>` (`BlogPipeline.NoContentPage`) | a page without usable content is a failure of that URL alone | not executed | BlogPipeline.BatchAsWritten | BlogPipeline.ProcessMultipleUrls |
| scriptblog.py:426-434 | the same `len(content['content'])` raises inside the loop of `process_blog` | a blog page whose first `max_articles` links include one such page | skip the link and go on with the next | not executed | BlogPipeline.ProcessBlogAsWritten | BlogPipeline.ProcessBlog |
