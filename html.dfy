/**
 * What the scripts see of a parsed page. Parsing and CSS selector matching are BeautifulSoup's;
 * the model receives their results: for each selector the element `select_one` returns, the
 * `<body>` element, the whole document, and the `href` of a `<base>` tag.
 */
module Html {
  import opened Wrappers
  import opened PyStr

  /** A tag: its name, its attributes and the text strings below it in document order. */
  datatype Element = Element(name: string, attrs: map<string, string>, strings: seq<string>)
  {
    /** `tag.get(key)`. */
    function Get(key: string): Option<string> {
      if key in attrs then Some(attrs[key]) else None
    }
  }

  /** A parsed page, after the unwanted tags have been removed. */
  datatype Page = Page(
    select: string -> Option<Element>,
    body: Option<Element>,
    whole: Element,
    baseHref: Option<string>)

  /** The strings `get_text(strip=True)` joins: each one stripped, the empty ones skipped. */
  function StrippedStrings(ss: seq<string>): (r: seq<string>)
    ensures forall k :: 0 <= k < |r| ==> r[k] != [] && !IsSpace(r[k][0]) && !IsSpace(r[k][|r[k]| - 1])
    decreases |ss|
  {
    if ss == [] then []
    else
      var t := Strip(ss[0]);
      (if t == [] then [] else [t]) + StrippedStrings(ss[1..])
  }

  /** `tag.get_text(separator=sep, strip=strip)`. */
  function GetText(e: Element, sep: string, strip: bool): string {
    Join(sep, if strip then StrippedStrings(e.strings) else e.strings)
  }

  lemma {:induction false} JoinFirst(sep: string, parts: seq<string>)
    requires |parts| >= 1 && parts[0] != []
    ensures Join(sep, parts) != [] && Join(sep, parts)[0] == parts[0][0]
  {
  }

  lemma {:induction false} JoinLast(sep: string, parts: seq<string>)
    requires |parts| >= 1 && parts[|parts| - 1] != []
    ensures var j := Join(sep, parts); j != [] && j[|j| - 1] == parts[|parts| - 1][|parts[|parts| - 1]| - 1]
    decreases |parts|
  {
    if |parts| > 1 {
      JoinLast(sep, parts[1..]);
    }
  }

  /** The stripped text never starts or ends with whitespace, whatever the separator. */
  lemma StrippedTextIsTrimmed(e: Element, sep: string)
    ensures var t := GetText(e, sep, true); t != [] ==> !IsSpace(t[0]) && !IsSpace(t[|t| - 1])
  {
    var parts := StrippedStrings(e.strings);
    if |parts| >= 1 {
      JoinFirst(sep, parts);
      JoinLast(sep, parts);
    }
  }
}
