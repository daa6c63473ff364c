/**
 * The product sheet of `scriptfiche.py`: the brace slice `_parse_gemini_response` hands to the
 * JSON parser, and the YAML front matter `_generate_markdown` writes from the parsed facts.
 * The MDX body after the front matter is fixed prose around some of the facts; the model takes
 * it as a function `body` of the facts.
 */
module ProductSheet {
  import opened Wrappers
  import opened PyStr
  import opened Yaml
  import opened Dates

  /**
   * The parsed JSON object, one optional field per key the script reads (a missing key is
   * `None`), plus the names of any other keys, which matter only for the emptiness test.
   */
  datatype ProductFacts = ProductFacts(
    name: Option<string>,
    brand: Option<string>,
    model: Option<string>,
    image: Option<string>,
    amazonASIN: Option<string>,
    publishDate: Option<string>,
    updateDate: Option<string>,
    draft: Option<bool>,
    title: Option<string>,
    hookIntro: Option<string>,
    keyBenefits: Option<seq<string>>,
    keyFeatures: Option<seq<string>>,
    detailedSpecs: Option<string>,
    ctaText: Option<string>,
    affiliateLink: Option<string>,
    category: Option<string>,
    tags: Option<seq<string>>,
    original_article_url: Option<string>,
    otherKeys: set<string>)
  {
    /** `not product_data` for a dictionary: it has no key at all. */
    predicate IsEmpty() {
      && name.None? && brand.None? && model.None? && image.None? && amazonASIN.None?
      && publishDate.None? && updateDate.None? && draft.None? && title.None? && hookIntro.None?
      && keyBenefits.None? && keyFeatures.None? && detailedSpecs.None? && ctaText.None?
      && affiliateLink.None? && category.None? && tags.None? && original_article_url.None?
      && otherKeys == {}
    }
  }

  // ---- _parse_gemini_response ----

  /**
   * The text handed to `json.loads`: the stripped reply from its first `{` through its last `}`,
   * as the Python slice `text[start:end]` takes it. `None` when either brace is missing.
   */
  function JsonCandidate(reply: string): Option<string> {
    BracedPart(Strip(reply))
  }

  /** `text[start:end]` for the first `{` and the last `}` of the stripped text `t`. */
  function BracedPart(t: string): Option<string> {
    var start := Find(t, '{');
    var end := RFind(t, '}') + 1;
    if start == -1 || end == 0 then None else Some(PySlice(t, start, end))
  }

  /** `_parse_gemini_response`; `loads` is `json.loads`, `None` when it raises. */
  function ParseGeminiResponse(reply: string, loads: string -> Option<ProductFacts>): Option<ProductFacts> {
    match JsonCandidate(reply)
    case None => None
    case Some(json) => loads(json)
  }

  /**
   * Nothing is parsed when a brace is missing; otherwise the parser sees exactly the text from
   * the first `{` to the last `}`, or the empty text when the last `}` comes before the first `{`.
   */
  lemma JsonCandidateShape(reply: string)
    ensures var t := Strip(reply);
      JsonCandidate(reply).None? <==> '{' !in t || '}' !in t
    ensures var t := Strip(reply);
      JsonCandidate(reply).Some? ==>
        var f, l := Find(t, '{'), RFind(t, '}');
        && 0 <= f && 0 <= l
        && '{' !in t[..f] && '}' !in t[l + 1..]
        && (f <= l ==> JsonCandidate(reply).value == t[f..l + 1])
        && (l < f ==> JsonCandidate(reply).value == [])
  {
    BracedPartMissing(Strip(reply));
    BracedPartFound(Strip(reply));
  }

  lemma BracedPartMissing(t: string)
    ensures BracedPart(t).None? <==> '{' !in t || '}' !in t
  {
  }

  lemma BracedPartFound(t: string)
    ensures BracedPart(t).Some? ==>
      var f, l := Find(t, '{'), RFind(t, '}');
      && 0 <= f && 0 <= l
      && '{' !in t[..f] && '}' !in t[l + 1..]
      && (f <= l ==> BracedPart(t).value == t[f..l + 1])
      && (l < f ==> BracedPart(t).value == [])
  {
    if BracedPart(t).Some? {
      PySliceWithin(t, Find(t, '{'), RFind(t, '}') + 1);
    }
  }

  /** When the braces are in order, the parser's text starts with `{` and ends with `}`. */
  lemma JsonCandidateBraces(reply: string)
    requires JsonCandidate(reply).Some?
    requires var t := Strip(reply); Find(t, '{') <= RFind(t, '}')
    ensures Braced(JsonCandidate(reply).value)
  {
    BracedPartBraces(Strip(reply));
  }

  /** A text that opens with `{` and closes with `}`. */
  predicate Braced(j: string) {
    |j| >= 1 && j[0] == '{' && j[|j| - 1] == '}'
  }

  lemma BracedPartBraces(t: string)
    requires BracedPart(t).Some? && Find(t, '{') <= RFind(t, '}')
    ensures Braced(BracedPart(t).value)
  {
    BracedPartFound(t);
    SliceBraced(t, Find(t, '{'), RFind(t, '}'), BracedPart(t).value);
  }

  lemma SliceBraced(t: string, f: nat, l: nat, j: string)
    requires f <= l < |t| && t[f] == '{' && t[l] == '}' && j == t[f..l + 1]
    ensures Braced(j)
  {
  }

  // ---- _generate_markdown ----

  const PlaceholderImage: string := "https://via.placeholder.com/600x400.png"
  const AsinPlaceholder: string := "ASIN_PLACEHOLDER"

  /** A front-matter line `key:rest`. */
  function Field(key: string, rest: string): string {
    key + ":" + rest
  }

  /** ` '<escaped value>'`, the part after the colon of a string field. */
  function Quoted(value: string): string {
    " '" + Escape(value) + "'"
  }

  /** `key: '<escaped value>'`. */
  function ScalarLine(key: string, value: string): string {
    Field(key, Quoted(value))
  }

  /** `  - '<escaped item>'`. */
  function ItemLine(item: string): string {
    "  - '" + Escape(item) + "'"
  }

  /** One item line per list entry, in list order. */
  function ItemLines(items: seq<string>): (r: seq<string>)
    ensures |r| == |items|
    decreases |items|
  {
    if items == [] then []
    else ItemLines(items[..|items| - 1]) + [ItemLine(items[|items| - 1])]
  }

  /** Line `i` of the item lines is the line of entry `i`. */
  lemma {:induction false} ItemLinesAt(items: seq<string>, i: nat)
    requires i < |items|
    ensures ItemLines(items)[i] == ItemLine(items[i])
    decreases |items|
  {
    var front := items[..|items| - 1];
    if i < |items| - 1 {
      ItemLinesAt(front, i);
    }
  }

  /** The image, or the placeholder when it is missing or empty. */
  function ImageOf(d: ProductFacts): string {
    if d.image.None? || d.image.value == [] then PlaceholderImage else d.image.value
  }

  /** A date field: the given value when `strptime(value, '%Y-%m-%d')` accepts it, else today. */
  function DateField(value: Option<string>, today: Date): string {
    var fallback := FormatIsoDate(today);
    var s := value.GetOr(fallback);
    if ParseIsoDate(s).Some? then s else fallback
  }

  /** `str(product_data.get('draft', False)).lower()`. */
  function DraftText(d: ProductFacts): string {
    if d.draft.GetOr(false) then "true" else "false"
  }

  /** The ten lines before the first list. */
  function LeadingLines(d: ProductFacts, today: Date): seq<string> {
    [ ScalarLine("name", d.name.GetOr("")),
      ScalarLine("brand", d.brand.GetOr("")),
      ScalarLine("model", d.model.GetOr("")),
      ScalarLine("image", ImageOf(d)),
      ScalarLine("amazonASIN", d.amazonASIN.GetOr(AsinPlaceholder)),
      Field("publishDate", " " + DateField(d.publishDate, today)),
      Field("updateDate", " " + DateField(d.updateDate, today)),
      Field("draft", " " + DraftText(d)),
      ScalarLine("title", d.title.GetOr("")),
      ScalarLine("hookIntro", d.hookIntro.GetOr("")) ]
  }

  /** The four lines between the second list and the tags. */
  function MiddleLines(d: ProductFacts): seq<string> {
    [ ScalarLine("detailedSpecs", d.detailedSpecs.GetOr("")),
      ScalarLine("ctaText", d.ctaText.GetOr("")),
      ScalarLine("affiliateLink", d.affiliateLink.GetOr("")),
      ScalarLine("category", d.category.GetOr("")) ]
  }

  /** A list header `key:` followed by one item line per entry. */
  function ListBlock(key: string, items: seq<string>): seq<string> {
    [Field(key, "")] + ItemLines(items)
  }

  /** The leading lines, the two lists, the middle lines and the tags, in that order. */
  function Assemble(leading: seq<string>, kb: seq<string>, kf: seq<string>, middle: seq<string>, tg: seq<string>): seq<string> {
    leading + (ListBlock("keyBenefits", kb) + (ListBlock("keyFeatures", kf) + (middle + ListBlock("tags", tg))))
  }

  /** `frontmatter_lines` once complete. */
  function FrontmatterLines(d: ProductFacts, today: Date): seq<string> {
    Assemble(LeadingLines(d, today), d.keyBenefits.GetOr([]), d.keyFeatures.GetOr([]), MiddleLines(d), d.tags.GetOr([]))
  }

  /** The front matter between two `---` lines, a blank line, and the body. */
  function Document(lines: seq<string>, bodyText: string): string {
    "---\n" + Join("\n", lines) + "\n---\n\n" + bodyText
  }

  /** What `_generate_markdown` returns. */
  function Markdown(data: Option<ProductFacts>, today: Date, body: ProductFacts -> string): Option<string> {
    if data.None? || data.value.IsEmpty() then None
    else Some(Document(FrontmatterLines(data.value, today), body(data.value)))
  }

  /**
   * A document opens with `---\n`, ends its front matter with `\n---\n\n` and then holds the
   * body; the lines sit in between, joined by newlines.
   */
  lemma DocumentShape(lines: seq<string>, bodyText: string)
    ensures var doc, n := Document(lines, bodyText), |Join("\n", lines)|;
      && |doc| == n + 10 + |bodyText|
      && StartsWith(doc, "---\n")
      && doc[4..4 + n] == Join("\n", lines)
      && doc[4 + n..10 + n] == "\n---\n\n"
      && doc[10 + n..] == bodyText
  {
    var j := Join("\n", lines);
    var doc := Document(lines, bodyText);
    assert doc == "---\n" + (j + ("\n---\n\n" + bodyText));
  }

  /** A sheet comes out exactly for a non-empty dictionary, and it opens the front matter. */
  lemma MarkdownOutcome(data: Option<ProductFacts>, today: Date, body: ProductFacts -> string)
    ensures Markdown(data, today, body).None? <==> data.None? || data.value.IsEmpty()
    ensures Markdown(data, today, body).Some? ==> StartsWith(Markdown(data, today, body).value, "---\n")
  {
    if data.Some? && !data.value.IsEmpty() {
      DocumentShape(FrontmatterLines(data.value, today), body(data.value));
    }
  }

  /** The loops that append one item line per entry. */
  method AppendItems(lines: seq<string>, items: seq<string>) returns (out: seq<string>)
    ensures out == lines + ItemLines(items)
  {
    out := lines;
    var i := 0;
    while i < |items|
      invariant i <= |items|
      invariant out == lines + ItemLines(items[..i])
    {
      assert items[..i + 1][..i] == items[..i];
      out := out + [ItemLine(items[i])];
      i := i + 1;
    }
    assert items[..i] == items;
  }

  /**
   * `_generate_markdown`: nothing for a missing or empty dictionary; otherwise the front matter
   * between two `---` lines, a blank line, and the body.
   */
  method GenerateMarkdown(data: Option<ProductFacts>, today: Date, body: ProductFacts -> string)
    returns (r: Option<string>)
    ensures r == Markdown(data, today, body)
    ensures r.None? <==> data.None? || data.value.IsEmpty()
    ensures r.Some? ==> StartsWith(r.value, "---\n")
  {
    if data.None? || data.value.IsEmpty() {
      return None;
    }
    var d := data.value;
    var lines := LeadingLines(d, today);
    lines := lines + [Field("keyBenefits", "")];
    lines := AppendItems(lines, d.keyBenefits.GetOr([]));
    lines := lines + [Field("keyFeatures", "")];
    lines := AppendItems(lines, d.keyFeatures.GetOr([]));
    lines := lines + MiddleLines(d);
    lines := lines + [Field("tags", "")];
    lines := AppendItems(lines, d.tags.GetOr([]));
    AppendsAssemble(LeadingLines(d, today), d.keyBenefits.GetOr([]), d.keyFeatures.GetOr([]), MiddleLines(d), d.tags.GetOr([]));
    var markdown := "---\n" + Join("\n", lines) + "\n---\n\n";
    markdown := markdown + body(d);
    DocumentShape(lines, body(d));
    r := Some(markdown);
  }

  /** Appending the blocks one after the other, as the script does, gives the assembled lines. */
  lemma AppendsAssemble(leading: seq<string>, kb: seq<string>, kf: seq<string>, middle: seq<string>, tg: seq<string>)
    ensures leading + [Field("keyBenefits", "")] + ItemLines(kb) + [Field("keyFeatures", "")] + ItemLines(kf)
      + middle + [Field("tags", "")] + ItemLines(tg) == Assemble(leading, kb, kf, middle, tg)
  {
    var b, c, t := ListBlock("keyBenefits", kb), ListBlock("keyFeatures", kf), ListBlock("tags", tg);
    var x1 := leading + [Field("keyBenefits", "")] + ItemLines(kb);
    assert x1 == leading + b;
    var x2 := x1 + [Field("keyFeatures", "")] + ItemLines(kf);
    assert x2 == leading + b + c;
    var x3 := x2 + middle + [Field("tags", "")] + ItemLines(tg);
    assert x3 == leading + b + c + middle + t;
    assert leading + b + c + middle + t == leading + (b + (c + (middle + t)));
  }

  // ---- the key order ----

  /** The order in which the keys appear: ten keys, two lists, four keys and the tags. */
  const LeadingKeyNames: seq<string> := [
    "name", "brand", "model", "image", "amazonASIN", "publishDate", "updateDate", "draft",
    "title", "hookIntro"]
  const MiddleKeyNames: seq<string> := ["detailedSpecs", "ctaText", "affiliateLink", "category"]
  const Keys: seq<string> := LeadingKeyNames + (["keyBenefits"] + (["keyFeatures"] + (MiddleKeyNames + ["tags"])))

  predicate IsItemLine(line: string) {
    StartsWith(line, "  - ")
  }

  /** The text before the first `:` of a line. */
  function LineKey(line: string): string {
    var i := Find(line, ':');
    if i < 0 then line else line[..i]
  }

  /** The keys of the lines that are not list items, in order. */
  function HeaderKeys(lines: seq<string>): seq<string>
    decreases |lines|
  {
    if lines == [] then []
    else (if IsItemLine(lines[0]) then [] else [LineKey(lines[0])]) + HeaderKeys(lines[1..])
  }

  lemma {:induction false} HeaderKeysAppend(a: seq<string>, b: seq<string>)
    ensures HeaderKeys(a + b) == HeaderKeys(a) + HeaderKeys(b)
    decreases |a|
  {
    if a != [] {
      assert (a + b)[1..] == a[1..] + b;
      HeaderKeysAppend(a[1..], b);
    } else {
      assert a + b == b;
    }
  }

  lemma {:induction false} HeaderKeysOfItems(items: seq<string>)
    ensures HeaderKeys(ItemLines(items)) == []
    decreases |items|
  {
    if items != [] {
      var front := items[..|items| - 1];
      HeaderKeysOfItems(front);
      var line := ItemLine(items[|items| - 1]);
      assert line[..4] == "  - ";
      HeaderKeysAppend(ItemLines(front), [line]);
    }
  }

  /** A key that cannot be mistaken for an item line and holds no colon. */
  predicate PlainKey(key: string) {
    key != [] && key[0] != ' ' && ':' !in key
  }

  /** The lines `Field(keys[i], rests[i])`. */
  function Fields(keys: seq<string>, rests: seq<string>): (r: seq<string>)
    requires |keys| == |rests|
    ensures |r| == |keys| && forall i :: 0 <= i < |keys| ==> r[i] == Field(keys[i], rests[i])
  {
    seq(|keys|, i requires 0 <= i < |keys| => Field(keys[i], rests[i]))
  }

  /** Lines built from plain keys carry exactly those keys. */
  lemma {:induction false} HeaderKeysOfFields(keys: seq<string>, rests: seq<string>)
    requires |keys| == |rests| && forall i :: 0 <= i < |keys| ==> PlainKey(keys[i])
    ensures HeaderKeys(Fields(keys, rests)) == keys
    decreases |keys|
  {
    if keys != [] {
      FieldKey(keys[0], rests[0]);
      FieldsTail(keys, rests);
      HeaderKeysOfFields(keys[1..], rests[1..]);
      assert [keys[0]] + keys[1..] == keys;
    }
  }

  /** A field line with a plain key is no item line, and its key is read back. */
  lemma FieldKey(key: string, rest: string)
    requires PlainKey(key)
    ensures !IsItemLine(Field(key, rest)) && LineKey(Field(key, rest)) == key
  {
    var line := Field(key, rest);
    assert line[0] == key[0];
    assert line[|key|] == ':' && line[..|key|] == key;
  }

  lemma FieldsTail(keys: seq<string>, rests: seq<string>)
    requires |keys| == |rests| && keys != []
    ensures Fields(keys, rests)[1..] == Fields(keys[1..], rests[1..])
  {
  }

  lemma LeadingKeysArePlain()
    ensures forall i :: 0 <= i < |LeadingKeyNames| ==> PlainKey(LeadingKeyNames[i])
  {
  }

  lemma MiddleKeysArePlain()
    ensures forall i :: 0 <= i < |MiddleKeyNames| ==> PlainKey(MiddleKeyNames[i])
  {
  }

  /** The parts after the colon of the leading lines. */
  function LeadingRests(d: ProductFacts, today: Date): seq<string> {
    [ Quoted(d.name.GetOr("")), Quoted(d.brand.GetOr("")), Quoted(d.model.GetOr("")),
      Quoted(ImageOf(d)), Quoted(d.amazonASIN.GetOr(AsinPlaceholder)),
      " " + DateField(d.publishDate, today), " " + DateField(d.updateDate, today),
      " " + DraftText(d), Quoted(d.title.GetOr("")), Quoted(d.hookIntro.GetOr("")) ]
  }

  function MiddleRests(d: ProductFacts): seq<string> {
    [ Quoted(d.detailedSpecs.GetOr("")), Quoted(d.ctaText.GetOr("")),
      Quoted(d.affiliateLink.GetOr("")), Quoted(d.category.GetOr("")) ]
  }

  lemma LeadingKeys(d: ProductFacts, today: Date)
    ensures HeaderKeys(LeadingLines(d, today)) == LeadingKeyNames
  {
    LeadingKeysArePlain();
    assert LeadingLines(d, today) == Fields(LeadingKeyNames, LeadingRests(d, today));
    HeaderKeysOfFields(LeadingKeyNames, LeadingRests(d, today));
  }

  lemma MiddleKeys(d: ProductFacts)
    ensures HeaderKeys(MiddleLines(d)) == MiddleKeyNames
  {
    MiddleKeysArePlain();
    assert MiddleLines(d) == Fields(MiddleKeyNames, MiddleRests(d));
    HeaderKeysOfFields(MiddleKeyNames, MiddleRests(d));
  }

  lemma ListHeaderKey(key: string, items: seq<string>)
    requires PlainKey(key)
    ensures HeaderKeys(ListBlock(key, items)) == [key]
  {
    HeaderKeysOfFields([key], [""]);
    assert Fields([key], [""]) == [Field(key, "")];
    HeaderKeysOfItems(items);
    HeaderKeysAppend([Field(key, "")], ItemLines(items));
  }

  /** The keys of assembled lines: those of the leading lines, the three list keys and the middle keys. */
  lemma AssembleKeys(leading: seq<string>, kb: seq<string>, kf: seq<string>, middle: seq<string>, tg: seq<string>)
    ensures HeaderKeys(Assemble(leading, kb, kf, middle, tg))
      == HeaderKeys(leading) + (["keyBenefits"] + (["keyFeatures"] + (HeaderKeys(middle) + ["tags"])))
  {
    var b, c, t := ListBlock("keyBenefits", kb), ListBlock("keyFeatures", kf), ListBlock("tags", tg);
    ListHeaderKey("keyBenefits", kb);
    ListHeaderKey("keyFeatures", kf);
    ListHeaderKey("tags", tg);
    HeaderKeysAppend(middle, t);
    HeaderKeysAppend(c, middle + t);
    HeaderKeysAppend(b, c + (middle + t));
    HeaderKeysAppend(leading, b + (c + (middle + t)));
  }

  /**
   * The lines that are not list items carry the seventeen keys in the fixed order; the three
   * list headers are there even when a list is missing or empty.
   */
  lemma KeyOrder(d: ProductFacts, today: Date)
    ensures HeaderKeys(FrontmatterLines(d, today)) == Keys
  {
    LeadingKeys(d, today);
    MiddleKeys(d);
    AssembledKeyOrder(LeadingLines(d, today), d.keyBenefits.GetOr([]), d.keyFeatures.GetOr([]), MiddleLines(d), d.tags.GetOr([]));
  }

  /** The same, for any leading and middle lines that carry the leading and the middle keys. */
  lemma AssembledKeyOrder(leading: seq<string>, kb: seq<string>, kf: seq<string>, middle: seq<string>, tg: seq<string>)
    requires HeaderKeys(leading) == LeadingKeyNames && HeaderKeys(middle) == MiddleKeyNames
    ensures HeaderKeys(Assemble(leading, kb, kf, middle, tg)) == Keys
  {
    AssembleKeys(leading, kb, kf, middle, tg);
  }

  // ---- where each value lands, and what it reads back as ----

  /** The value of an item line, read back as YAML reads a single-quoted scalar. */
  function ItemValue(line: string): string
    requires |line| >= 6
  {
    Unescape(line[5..|line| - 1])
  }

  /** The value of a `key: '…'` line. */
  function ScalarValue(key: string, line: string): string
    requires |line| >= |key| + 4
  {
    Unescape(line[|key| + 3..|line| - 1])
  }

  lemma Enclosed(front: string, middle: string, back: string)
    ensures (front + middle + back)[|front|..|front| + |middle|] == middle
  {
  }

  lemma ItemLineReadsBack(item: string)
    ensures |ItemLine(item)| >= 6 && ItemValue(ItemLine(item)) == item
  {
    var line := ItemLine(item);
    assert line[5..|line| - 1] == Escape(item);
    UnescapeEscape(item);
  }

  lemma ScalarLineReadsBack(key: string, value: string)
    ensures |ScalarLine(key, value)| >= |key| + 4 && ScalarValue(key, ScalarLine(key, value)) == value
  {
    var e := Escape(value);
    var front := key + ": '";
    assert ScalarLine(key, value) == front + e + "'";
    Enclosed(front, e, "'");
    UnescapeEscape(value);
  }

  /** The tail of assembled lines after the leading lines, and so on block by block. */
  function AfterLeading(kb: seq<string>, kf: seq<string>, middle: seq<string>, tg: seq<string>): seq<string> {
    ListBlock("keyBenefits", kb) + AfterBenefits(kf, middle, tg)
  }

  function AfterBenefits(kf: seq<string>, middle: seq<string>, tg: seq<string>): seq<string> {
    ListBlock("keyFeatures", kf) + (middle + ListBlock("tags", tg))
  }

  /** Assembled lines start with the leading lines; three list headers follow besides the entries. */
  lemma AssembleLeading(leading: seq<string>, kb: seq<string>, kf: seq<string>, middle: seq<string>, tg: seq<string>, p: nat)
    requires p == |leading|
    ensures var lines := Assemble(leading, kb, kf, middle, tg);
      |lines| == p + 3 + |kb| + |kf| + |middle| + |tg| && lines[..p] == leading
  {
    AfterLeadingLayout(kb, kf, middle, tg);
    SplitAt(leading, AfterLeading(kb, kf, middle, tg));
  }

  /** The benefits header follows the leading lines, then one line per benefit. */
  lemma AssembleBenefits(leading: seq<string>, kb: seq<string>, kf: seq<string>, middle: seq<string>, tg: seq<string>, p: nat)
    requires p == |leading|
    ensures var lines := Assemble(leading, kb, kf, middle, tg);
      p + 1 + |kb| <= |lines| && lines[p] == Field("keyBenefits", "") && lines[p + 1..p + 1 + |kb|] == ItemLines(kb)
  {
    var lines, rest := Assemble(leading, kb, kf, middle, tg), AfterLeading(kb, kf, middle, tg);
    AfterLeadingLayout(kb, kf, middle, tg);
    SplitAt(leading, rest);
    ShiftIndex(lines, rest, p, p, 0);
    ShiftSlice(lines, rest, p, p + 1, p + 1 + |kb|, 1, 1 + |kb|);
  }

  /** The features header follows the benefits, then one line per feature. */
  lemma AssembleFeatures(leading: seq<string>, kb: seq<string>, kf: seq<string>, middle: seq<string>, tg: seq<string>, p: nat)
    requires p == |leading|
    ensures var lines, q := Assemble(leading, kb, kf, middle, tg), p + 1 + |kb|;
      q + 1 + |kf| <= |lines| && lines[q] == Field("keyFeatures", "") && lines[q + 1..q + 1 + |kf|] == ItemLines(kf)
  {
    var lines, rest := Assemble(leading, kb, kf, middle, tg), AfterLeading(kb, kf, middle, tg);
    AfterLeadingLayout(kb, kf, middle, tg);
    SplitAt(leading, rest);
    ShiftIndex(lines, rest, p, p + 1 + |kb|, 1 + |kb|);
    ShiftSlice(lines, rest, p, p + 1 + |kb| + 1, p + 1 + |kb| + 1 + |kf|, 1 + |kb| + 1, 1 + |kb| + 1 + |kf|);
  }

  /** The middle lines follow the features. */
  lemma AssembleMiddle(leading: seq<string>, kb: seq<string>, kf: seq<string>, middle: seq<string>, tg: seq<string>, p: nat)
    requires p == |leading|
    ensures var lines, q := Assemble(leading, kb, kf, middle, tg), p + 2 + |kb| + |kf|;
      q + |middle| <= |lines| && lines[q..q + |middle|] == middle
  {
    var lines, rest := Assemble(leading, kb, kf, middle, tg), AfterLeading(kb, kf, middle, tg);
    AfterLeadingLayout(kb, kf, middle, tg);
    SplitAt(leading, rest);
    ShiftSlice(lines, rest, p, p + 2 + |kb| + |kf|, p + 2 + |kb| + |kf| + |middle|, 1 + |kb| + 1 + |kf|, 1 + |kb| + 1 + |kf| + |middle|);
  }

  /** The tags header follows the middle lines, then one line per tag to the end. */
  lemma AssembleTags(leading: seq<string>, kb: seq<string>, kf: seq<string>, middle: seq<string>, tg: seq<string>, p: nat)
    requires p == |leading|
    ensures var lines, r := Assemble(leading, kb, kf, middle, tg), p + 2 + |kb| + |kf| + |middle|;
      r < |lines| && lines[r] == Field("tags", "") && lines[r + 1..] == ItemLines(tg)
  {
    var lines, rest := Assemble(leading, kb, kf, middle, tg), AfterLeading(kb, kf, middle, tg);
    var r := p + 2 + |kb| + |kf| + |middle|;
    AfterLeadingLayout(kb, kf, middle, tg);
    SplitAt(leading, rest);
    ShiftIndex(lines, rest, p, r, 1 + |kb| + 1 + |kf| + |middle|);
    ShiftTail(lines, rest, p, r + 1, 1 + |kb| + 2 + |kf| + |middle|);
  }

  /** Index `a` of lines whose tail from `from` is `rest` is index `a - from` of `rest`. */
  lemma ShiftIndex(lines: seq<string>, rest: seq<string>, from: nat, a: nat, i: nat)
    requires from <= |lines| && lines[from..] == rest && a == from + i && i < |rest|
    ensures a < |lines| && lines[a] == rest[i]
  {
  }

  lemma ShiftSlice(lines: seq<string>, rest: seq<string>, from: nat, a: nat, b: nat, i: nat, j: nat)
    requires from <= |lines| && lines[from..] == rest && a == from + i && b == from + j && i <= j <= |rest|
    ensures a <= b <= |lines| && lines[a..b] == rest[i..j]
  {
    assert lines[from..][i..j] == lines[a..b];
  }

  lemma ShiftTail(lines: seq<string>, rest: seq<string>, from: nat, a: nat, i: nat)
    requires from <= |lines| && lines[from..] == rest && a == from + i && i <= |rest|
    ensures a <= |lines| && lines[a..] == rest[i..]
  {
    assert lines[from..][i..] == lines[a..];
  }

  /** A slice of the tail is the matching slice of the whole. */
  lemma TailAt(lines: seq<string>, from: nat, rest: seq<string>, i: nat, j: nat)
    requires from <= |lines| && lines[from..] == rest && i <= j <= |rest|
    ensures lines[from + i..from + j] == rest[i..j]
    ensures i < j ==> lines[from + i] == rest[i]
  {
    assert lines[from..][i..j] == lines[from + i..from + j];
  }

  lemma AfterLeadingLayout(kb: seq<string>, kf: seq<string>, middle: seq<string>, tg: seq<string>)
    ensures var rest, q := AfterLeading(kb, kf, middle, tg), 1 + |kb|;
      && |rest| == 3 + |kb| + |kf| + |middle| + |tg|
      && rest[0] == Field("keyBenefits", "") && rest[1..q] == ItemLines(kb)
      && rest[q] == Field("keyFeatures", "") && rest[q + 1..q + 1 + |kf|] == ItemLines(kf)
      && rest[q + 1 + |kf|..q + 1 + |kf| + |middle|] == middle
      && rest[q + 1 + |kf| + |middle|] == Field("tags", "") && rest[q + 2 + |kf| + |middle|..] == ItemLines(tg)
  {
    var b, after := ListBlock("keyBenefits", kb), AfterBenefits(kf, middle, tg);
    SplitAt(b, after);
    HeaderAndItems(b + after, b, "keyBenefits", kb);
    AfterBenefitsLayout(kf, middle, tg);
    TailAt(b + after, |b|, after, 0, 1 + |kf|);
    TailAt(b + after, |b|, after, 1 + |kf|, 1 + |kf| + |middle|);
    TailAt(b + after, |b|, after, 1 + |kf| + |middle|, |after|);
  }

  lemma AfterBenefitsLayout(kf: seq<string>, middle: seq<string>, tg: seq<string>)
    ensures var rest, q := AfterBenefits(kf, middle, tg), 1 + |kf|;
      && |rest| == 2 + |kf| + |middle| + |tg|
      && rest[0] == Field("keyFeatures", "") && rest[1..q] == ItemLines(kf)
      && rest[q..q + |middle|] == middle
      && rest[q + |middle|] == Field("tags", "") && rest[q + |middle| + 1..] == ItemLines(tg)
  {
    var c, t := ListBlock("keyFeatures", kf), ListBlock("tags", tg);
    SplitAt(c, middle + t);
    HeaderAndItems(c + (middle + t), c, "keyFeatures", kf);
    SplitAt(middle, t);
    TailAt(c + (middle + t), |c|, middle + t, 0, |middle|);
    var rest := c + (middle + t);
    assert rest[|c| + |middle|..] == t;
    HeaderAndItems(rest[|c| + |middle|..], t, "tags", tg);
    assert rest[|c| + |middle| + 1..] == rest[|c| + |middle|..][1..];
  }

  lemma SplitAt(a: seq<string>, b: seq<string>)
    ensures (a + b)[..|a|] == a && (a + b)[|a|..] == b
  {
  }

  lemma HeaderAndItems(rest: seq<string>, block: seq<string>, key: string, items: seq<string>)
    requires block == ListBlock(key, items) && |block| <= |rest| && rest[..|block|] == block
    ensures rest[0] == Field(key, "") && rest[1..|block|] == ItemLines(items)
  {
    assert rest[0] == block[0];
    assert rest[1..|block|] == block[1..];
  }

  /** Where the three lists sit: each header is followed by one line per entry, in order. */
  lemma ListLayout(d: ProductFacts, today: Date)
    ensures var lines := FrontmatterLines(d, today);
      var kb, kf, tg := d.keyBenefits.GetOr([]), d.keyFeatures.GetOr([]), d.tags.GetOr([]);
      && |lines| == 17 + |kb| + |kf| + |tg|
      && lines[..10] == LeadingLines(d, today)
      && lines[10] == Field("keyBenefits", "") && lines[11..11 + |kb|] == ItemLines(kb)
      && lines[11 + |kb|] == Field("keyFeatures", "") && lines[12 + |kb|..12 + |kb| + |kf|] == ItemLines(kf)
      && lines[12 + |kb| + |kf|..16 + |kb| + |kf|] == MiddleLines(d)
      && lines[16 + |kb| + |kf|] == Field("tags", "") && lines[17 + |kb| + |kf|..] == ItemLines(tg)
  {
    AssembledLayout(LeadingLines(d, today), d.keyBenefits.GetOr([]), d.keyFeatures.GetOr([]), MiddleLines(d), d.tags.GetOr([]));
  }

  lemma AssembledLayout(l: seq<string>, kb: seq<string>, kf: seq<string>, m: seq<string>, tg: seq<string>)
    requires |l| == 10 && |m| == 4
    ensures var lines := Assemble(l, kb, kf, m, tg);
      && |lines| == 17 + |kb| + |kf| + |tg|
      && lines[..10] == l
      && lines[10] == Field("keyBenefits", "") && lines[11..11 + |kb|] == ItemLines(kb)
      && lines[11 + |kb|] == Field("keyFeatures", "") && lines[12 + |kb|..12 + |kb| + |kf|] == ItemLines(kf)
      && lines[12 + |kb| + |kf|..16 + |kb| + |kf|] == m
      && lines[16 + |kb| + |kf|] == Field("tags", "") && lines[17 + |kb| + |kf|..] == ItemLines(tg)
  {
    AssembledFront(l, kb, kf, m, tg);
    AssembledBack(l, kb, kf, m, tg);
  }

  lemma AssembledFront(l: seq<string>, kb: seq<string>, kf: seq<string>, m: seq<string>, tg: seq<string>)
    requires |l| == 10 && |m| == 4
    ensures var lines := Assemble(l, kb, kf, m, tg);
      && |lines| == 17 + |kb| + |kf| + |tg|
      && lines[..10] == l
      && lines[10] == Field("keyBenefits", "") && lines[11..11 + |kb|] == ItemLines(kb)
      && lines[11 + |kb|] == Field("keyFeatures", "") && lines[12 + |kb|..12 + |kb| + |kf|] == ItemLines(kf)
  {
    AssembleLeading(l, kb, kf, m, tg, 10);
    AssembleBenefits(l, kb, kf, m, tg, 10);
    AssembleFeatures(l, kb, kf, m, tg, 10);
  }

  lemma AssembledBack(l: seq<string>, kb: seq<string>, kf: seq<string>, m: seq<string>, tg: seq<string>)
    requires |l| == 10 && |m| == 4
    ensures var lines := Assemble(l, kb, kf, m, tg);
      && 17 + |kb| + |kf| <= |lines|
      && lines[12 + |kb| + |kf|..16 + |kb| + |kf|] == m
      && lines[16 + |kb| + |kf|] == Field("tags", "") && lines[17 + |kb| + |kf|..] == ItemLines(tg)
  {
    AssembleMiddle(l, kb, kf, m, tg, 10);
    AssembleTags(l, kb, kf, m, tg, 10);
  }

  /** Every benefit reads back from its line, in list order, right after the `keyBenefits:` header. */
  lemma BenefitsReadBack(d: ProductFacts, today: Date)
    ensures var lines, kb := FrontmatterLines(d, today), d.keyBenefits.GetOr([]);
      && 11 + |kb| <= |lines|
      && forall j :: 11 <= j < 11 + |kb| ==> |lines[j]| >= 6 && ItemValue(lines[j]) == kb[j - 11]
  {
    AssembledBenefitsReadBack(LeadingLines(d, today), d.keyBenefits.GetOr([]), d.keyFeatures.GetOr([]), MiddleLines(d), d.tags.GetOr([]));
  }

  /** Every feature reads back from its line, in list order, right after the `keyFeatures:` header. */
  lemma FeaturesReadBack(d: ProductFacts, today: Date)
    ensures var lines, kb, kf := FrontmatterLines(d, today), d.keyBenefits.GetOr([]), d.keyFeatures.GetOr([]);
      && 12 + |kb| + |kf| <= |lines|
      && forall j :: 12 + |kb| <= j < 12 + |kb| + |kf| ==> |lines[j]| >= 6 && ItemValue(lines[j]) == kf[j - (12 + |kb|)]
  {
    AssembledFeaturesReadBack(LeadingLines(d, today), d.keyBenefits.GetOr([]), d.keyFeatures.GetOr([]), MiddleLines(d), d.tags.GetOr([]));
  }

  /** Every tag reads back from its line, in list order, from the `tags:` header to the end. */
  lemma TagsReadBack(d: ProductFacts, today: Date)
    ensures var lines, kb, kf, tg := FrontmatterLines(d, today), d.keyBenefits.GetOr([]), d.keyFeatures.GetOr([]), d.tags.GetOr([]);
      && |lines| == 17 + |kb| + |kf| + |tg|
      && forall j :: 17 + |kb| + |kf| <= j < |lines| ==> |lines[j]| >= 6 && ItemValue(lines[j]) == tg[j - (17 + |kb| + |kf|)]
  {
    AssembledTagsReadBack(LeadingLines(d, today), d.keyBenefits.GetOr([]), d.keyFeatures.GetOr([]), MiddleLines(d), d.tags.GetOr([]));
  }

  /** The benefits read back from any assembled lines, for ten leading lines. */
  lemma AssembledBenefitsReadBack(leading: seq<string>, kb: seq<string>, kf: seq<string>, middle: seq<string>, tg: seq<string>)
    requires |leading| == 10
    ensures var lines := Assemble(leading, kb, kf, middle, tg);
      && 11 + |kb| <= |lines|
      && forall j :: 11 <= j < 11 + |kb| ==> |lines[j]| >= 6 && ItemValue(lines[j]) == kb[j - 11]
  {
    AssembleBenefits(leading, kb, kf, middle, tg, 10);
    ItemsReadBack(Assemble(leading, kb, kf, middle, tg), 11, kb);
  }

  /** The features read back from any assembled lines, for ten leading lines. */
  lemma AssembledFeaturesReadBack(leading: seq<string>, kb: seq<string>, kf: seq<string>, middle: seq<string>, tg: seq<string>)
    requires |leading| == 10
    ensures var lines := Assemble(leading, kb, kf, middle, tg);
      && 12 + |kb| + |kf| <= |lines|
      && forall j :: 12 + |kb| <= j < 12 + |kb| + |kf| ==> |lines[j]| >= 6 && ItemValue(lines[j]) == kf[j - (12 + |kb|)]
  {
    AssembleFeatures(leading, kb, kf, middle, tg, 10);
    ItemsReadBack(Assemble(leading, kb, kf, middle, tg), 12 + |kb|, kf);
  }

  /** The tags read back from any assembled lines, for ten leading and four middle lines. */
  lemma AssembledTagsReadBack(leading: seq<string>, kb: seq<string>, kf: seq<string>, middle: seq<string>, tg: seq<string>)
    requires |leading| == 10 && |middle| == 4
    ensures var lines := Assemble(leading, kb, kf, middle, tg);
      && |lines| == 17 + |kb| + |kf| + |tg|
      && forall j :: 17 + |kb| + |kf| <= j < |lines| ==> |lines[j]| >= 6 && ItemValue(lines[j]) == tg[j - (17 + |kb| + |kf|)]
  {
    AssembledLayout(leading, kb, kf, middle, tg);
    ItemsTailReadBack(Assemble(leading, kb, kf, middle, tg), 17 + |kb| + |kf|, tg);
  }

  /** Item lines that make up the tail from `from` read back, one entry per line. */
  lemma ItemsTailReadBack(lines: seq<string>, from: nat, items: seq<string>)
    requires from <= |lines| && lines[from..] == ItemLines(items)
    ensures from + |items| == |lines|
    ensures forall j :: from <= j < |lines| ==> |lines[j]| >= 6 && ItemValue(lines[j]) == items[j - from]
  {
    forall j | from <= j < |lines| ensures |lines[j]| >= 6 && ItemValue(lines[j]) == items[j - from] {
      ItemTailReadBackAt(lines, from, items, j);
    }
  }

  lemma ItemTailReadBackAt(lines: seq<string>, from: nat, items: seq<string>, j: nat)
    requires from <= j < |lines| && lines[from..] == ItemLines(items)
    ensures |lines[j]| >= 6 && ItemValue(lines[j]) == items[j - from]
  {
    assert lines[j] == ItemLines(items)[j - from];
    ItemLinesAt(items, j - from);
    ItemLineReadsBack(items[j - from]);
  }

  /** Item lines placed at `from` read back, one entry per line. */
  lemma ItemsReadBack(lines: seq<string>, from: nat, items: seq<string>)
    requires from + |items| <= |lines| && lines[from..from + |items|] == ItemLines(items)
    ensures forall j :: from <= j < from + |items| ==> |lines[j]| >= 6 && ItemValue(lines[j]) == items[j - from]
  {
    forall j | from <= j < from + |items| ensures |lines[j]| >= 6 && ItemValue(lines[j]) == items[j - from] {
      ItemReadBackAt(lines, from, items, j);
    }
  }

  lemma ItemReadBackAt(lines: seq<string>, from: nat, items: seq<string>, j: nat)
    requires from + |items| <= |lines| && lines[from..from + |items|] == ItemLines(items)
    requires from <= j < from + |items|
    ensures |lines[j]| >= 6 && ItemValue(lines[j]) == items[j - from]
  {
    var i := j - from;
    assert lines[j] == ItemLines(items)[i];
    ItemLinesAt(items, i);
    ItemLineReadsBack(items[i]);
  }

  /** The line at `index` is a `key: '…'` line that reads back as `value`. */
  predicate ReadsBackAt(lines: seq<string>, index: nat, key: string, value: string) {
    && index < |lines| && |lines[index]| >= |key| + 4
    && lines[index][..|key| + 3] == key + ": '"
    && ScalarValue(key, lines[index]) == value
  }

  lemma QuotedLineReadsBack(line: string, key: string, value: string)
    requires line == ScalarLine(key, value)
    ensures |line| >= |key| + 4 && line[..|key| + 3] == key + ": '" && ScalarValue(key, line) == value
  {
    ScalarLineReadsBack(key, value);
    assert line == (key + ": '") + (Escape(value) + "'");
  }

  /** Line `i` of the leading block is line `i` of the front matter. */
  lemma AssembledLeadingAt(leading: seq<string>, kb: seq<string>, kf: seq<string>, middle: seq<string>, tg: seq<string>, i: nat)
    requires i < |leading|
    ensures i < |Assemble(leading, kb, kf, middle, tg)| && Assemble(leading, kb, kf, middle, tg)[i] == leading[i]
  {
  }

  /** Line `i` of the middle block sits after the leading block and the two lists. */
  lemma AssembledMiddleAt(leading: seq<string>, kb: seq<string>, kf: seq<string>, middle: seq<string>, tg: seq<string>, p: nat, i: nat)
    requires p == |leading| && i < |middle|
    ensures var q := p + 2 + |kb| + |kf| + i;
      q < |Assemble(leading, kb, kf, middle, tg)| && Assemble(leading, kb, kf, middle, tg)[q] == middle[i]
  {
    var b, f, t := ListBlock("keyBenefits", kb), ListBlock("keyFeatures", kf), ListBlock("tags", tg);
    assert |b| == 1 + |kb| && |f| == 1 + |kf|;
    var x := middle + t;
    assert x[i] == middle[i];
    var y := f + x;
    assert y[|f| + i] == middle[i];
    var z := b + y;
    assert z[|b| + |f| + i] == middle[i];
  }

  lemma LeadingLineAt(d: ProductFacts, today: Date, index: nat, key: string, value: string)
    requires index < 10 && LeadingLines(d, today)[index] == ScalarLine(key, value)
    ensures ReadsBackAt(FrontmatterLines(d, today), index, key, value)
  {
    var lines := FrontmatterLines(d, today);
    AssembledLeadingAt(LeadingLines(d, today), d.keyBenefits.GetOr([]), d.keyFeatures.GetOr([]), MiddleLines(d), d.tags.GetOr([]), index);
    QuotedLineReadsBack(lines[index], key, value);
  }

  /** An image that is missing or empty becomes the placeholder; any other image is kept. */
  lemma ImageDefault(d: ProductFacts, today: Date)
    ensures d.image.None? || d.image == Some("") ==> ReadsBackAt(FrontmatterLines(d, today), 3, "image", PlaceholderImage)
    ensures d.image.Some? && d.image.value != "" ==> ReadsBackAt(FrontmatterLines(d, today), 3, "image", d.image.value)
  {
    LeadingLineAt(d, today, 3, "image", ImageOf(d));
  }

  /** A missing ASIN becomes `ASIN_PLACEHOLDER`; a present one, even empty, is kept. */
  lemma AsinDefault(d: ProductFacts, today: Date)
    ensures d.amazonASIN.None? ==> ReadsBackAt(FrontmatterLines(d, today), 4, "amazonASIN", AsinPlaceholder)
    ensures d.amazonASIN.Some? ==> ReadsBackAt(FrontmatterLines(d, today), 4, "amazonASIN", d.amazonASIN.value)
  {
    LeadingLineAt(d, today, 4, "amazonASIN", d.amazonASIN.GetOr(AsinPlaceholder));
  }

  /** A missing draft flag is written `false`. */
  lemma DraftDefault(d: ProductFacts, today: Date)
    ensures d.draft != Some(true) ==> FrontmatterLines(d, today)[7] == "draft: false"
    ensures d.draft == Some(true) ==> FrontmatterLines(d, today)[7] == "draft: true"
  {
    AssembledLeadingAt(LeadingLines(d, today), d.keyBenefits.GetOr([]), d.keyFeatures.GetOr([]), MiddleLines(d), d.tags.GetOr([]), 7);
    DraftField(d.draft.GetOr(false));
  }

  lemma DraftField(b: bool)
    ensures Field("draft", " " + (if b then "true" else "false")) == if b then "draft: true" else "draft: false"
  {
  }

  /** The other string fields of the leading block and the middle block: a missing one is written as `''`. */
  lemma StringFields(d: ProductFacts, today: Date)
    ensures var lines := FrontmatterLines(d, today);
      var m := 12 + |d.keyBenefits.GetOr([])| + |d.keyFeatures.GetOr([])|;
      && ReadsBackAt(lines, 0, "name", d.name.GetOr(""))
      && ReadsBackAt(lines, 1, "brand", d.brand.GetOr(""))
      && ReadsBackAt(lines, 2, "model", d.model.GetOr(""))
      && ReadsBackAt(lines, 8, "title", d.title.GetOr(""))
      && ReadsBackAt(lines, 9, "hookIntro", d.hookIntro.GetOr(""))
      && ReadsBackAt(lines, m, "detailedSpecs", d.detailedSpecs.GetOr(""))
      && ReadsBackAt(lines, m + 1, "ctaText", d.ctaText.GetOr(""))
      && ReadsBackAt(lines, m + 2, "affiliateLink", d.affiliateLink.GetOr(""))
      && ReadsBackAt(lines, m + 3, "category", d.category.GetOr(""))
  {
    LeadingStringFields(d, today);
    MiddleStringFields(d, today);
  }

  lemma LeadingStringFields(d: ProductFacts, today: Date)
    ensures var lines := FrontmatterLines(d, today);
      && ReadsBackAt(lines, 0, "name", d.name.GetOr(""))
      && ReadsBackAt(lines, 1, "brand", d.brand.GetOr(""))
      && ReadsBackAt(lines, 2, "model", d.model.GetOr(""))
      && ReadsBackAt(lines, 8, "title", d.title.GetOr(""))
      && ReadsBackAt(lines, 9, "hookIntro", d.hookIntro.GetOr(""))
  {
    ProductFields(d, today);
    TitleFields(d, today);
  }

  lemma ProductFields(d: ProductFacts, today: Date)
    ensures var lines := FrontmatterLines(d, today);
      && ReadsBackAt(lines, 0, "name", d.name.GetOr(""))
      && ReadsBackAt(lines, 1, "brand", d.brand.GetOr(""))
      && ReadsBackAt(lines, 2, "model", d.model.GetOr(""))
  {
    LeadingLineAt(d, today, 0, "name", d.name.GetOr(""));
    LeadingLineAt(d, today, 1, "brand", d.brand.GetOr(""));
    LeadingLineAt(d, today, 2, "model", d.model.GetOr(""));
  }

  lemma TitleFields(d: ProductFacts, today: Date)
    ensures var lines := FrontmatterLines(d, today);
      && ReadsBackAt(lines, 8, "title", d.title.GetOr(""))
      && ReadsBackAt(lines, 9, "hookIntro", d.hookIntro.GetOr(""))
  {
    LeadingLineAt(d, today, 8, "title", d.title.GetOr(""));
    LeadingLineAt(d, today, 9, "hookIntro", d.hookIntro.GetOr(""));
  }

  lemma MiddleStringFields(d: ProductFacts, today: Date)
    ensures var lines := FrontmatterLines(d, today);
      var m := 12 + |d.keyBenefits.GetOr([])| + |d.keyFeatures.GetOr([])|;
      && ReadsBackAt(lines, m, "detailedSpecs", d.detailedSpecs.GetOr(""))
      && ReadsBackAt(lines, m + 1, "ctaText", d.ctaText.GetOr(""))
      && ReadsBackAt(lines, m + 2, "affiliateLink", d.affiliateLink.GetOr(""))
      && ReadsBackAt(lines, m + 3, "category", d.category.GetOr(""))
  {
    MiddleLineAt(d, today, 0, "detailedSpecs", d.detailedSpecs.GetOr(""));
    MiddleLineAt(d, today, 1, "ctaText", d.ctaText.GetOr(""));
    MiddleLineAt(d, today, 2, "affiliateLink", d.affiliateLink.GetOr(""));
    MiddleLineAt(d, today, 3, "category", d.category.GetOr(""));
  }

  lemma MiddleLineAt(d: ProductFacts, today: Date, index: nat, key: string, value: string)
    requires index < 4 && MiddleLines(d)[index] == ScalarLine(key, value)
    ensures ReadsBackAt(FrontmatterLines(d, today), 12 + |d.keyBenefits.GetOr([])| + |d.keyFeatures.GetOr([])| + index, key, value)
  {
    var lines := FrontmatterLines(d, today);
    var m := 12 + |d.keyBenefits.GetOr([])| + |d.keyFeatures.GetOr([])|;
    AssembledMiddleAt(LeadingLines(d, today), d.keyBenefits.GetOr([]), d.keyFeatures.GetOr([]), MiddleLines(d), d.tags.GetOr([]), 10, index);
    QuotedLineReadsBack(lines[m + index], key, value);
  }

  /** A date field holds a date `strptime` accepts: the given one when it parses, today's otherwise. */
  lemma DateFieldValid(value: Option<string>, today: Date)
    requires ValidDate(today)
    ensures ParseIsoDate(DateField(value, today)).Some?
    ensures value.Some? && ParseIsoDate(value.value).Some? ==> DateField(value, today) == value.value
    ensures value.None? || ParseIsoDate(value.value).None? ==> DateField(value, today) == FormatIsoDate(today)
  {
    ParseFormattedDate(today);
  }

  /** A field whose text after the colon starts with a blank. */
  lemma SpacedField(key: string, value: string)
    ensures Field(key, " " + value) == key + ": " + value
  {
  }

  /**
   * Both date lines always hold a date `strptime` accepts: the given one when it is valid, the
   * current date otherwise.
   */
  lemma DatesAreValid(d: ProductFacts, today: Date)
    requires ValidDate(today)
    ensures var lines := FrontmatterLines(d, today);
      && lines[5] == "publishDate: " + DateField(d.publishDate, today)
      && lines[6] == "updateDate: " + DateField(d.updateDate, today)
    ensures ParseIsoDate(DateField(d.publishDate, today)).Some?
    ensures ParseIsoDate(DateField(d.updateDate, today)).Some?
    ensures d.publishDate.Some? && ParseIsoDate(d.publishDate.value).Some? ==> DateField(d.publishDate, today) == d.publishDate.value
    ensures d.publishDate.None? || ParseIsoDate(d.publishDate.value).None? ==> DateField(d.publishDate, today) == FormatIsoDate(today)
    ensures d.updateDate.Some? && ParseIsoDate(d.updateDate.value).Some? ==> DateField(d.updateDate, today) == d.updateDate.value
    ensures d.updateDate.None? || ParseIsoDate(d.updateDate.value).None? ==> DateField(d.updateDate, today) == FormatIsoDate(today)
  {
    DateLines(d, today);
    DateFieldValid(d.publishDate, today);
    DateFieldValid(d.updateDate, today);
  }

  /** Lines 5 and 6 are the two date fields. */
  lemma DateLines(d: ProductFacts, today: Date)
    ensures var lines := FrontmatterLines(d, today);
      && lines[5] == "publishDate: " + DateField(d.publishDate, today)
      && lines[6] == "updateDate: " + DateField(d.updateDate, today)
  {
    var l := LeadingLines(d, today);
    AssembledLeadingAt(l, d.keyBenefits.GetOr([]), d.keyFeatures.GetOr([]), MiddleLines(d), d.tags.GetOr([]), 5);
    AssembledLeadingAt(l, d.keyBenefits.GetOr([]), d.keyFeatures.GetOr([]), MiddleLines(d), d.tags.GetOr([]), 6);
    SpacedField("publishDate", DateField(d.publishDate, today));
    SpacedField("updateDate", DateField(d.updateDate, today));
  }

}
