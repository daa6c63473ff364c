/**
 * `_slugify`, defined identically in both scripts: lower-case the text, replace the accented
 * Latin letters of a fixed table by their base letter, turn every run of characters outside
 * `[a-z0-9]` into one `-`, strip `-` from both ends and collapse repeated `-`.
 */
module Slug {
  import opened PyStr

  /** The substitution table: `Accented[i]` becomes `Plain[i]`. */
  const Accented: string := "àáâãäçèéêëìíîïñòóôõöùúûüýÿ"
  const Plain: string := "aaaaaceeeeiiiinooooouuuuyy"

  /**
   * Python's `str.lower()` on one character. Exact for ASCII, for the Latin-1 capitals, for
   * U+0178 (capital Y with diaeresis), U+212A (Kelvin sign, lowered to `k`) and U+0130 (capital
   * I with dot, lowered to `i` and a combining dot). Every other character is kept: Python may
   * lower it, but never into `[a-z0-9]` or into the table, so the slug comes out the same.
   */
  function LowerChar(c: char): seq<char> {
    if 'A' <= c <= 'Z' then [(c as int + 32) as char]
    else if '\U{C0}' <= c <= '\U{DE}' && c != '\U{D7}' then [(c as int + 32) as char]
    else if c == '\U{178}' then ['\U{FF}']
    else if c == '\U{212A}' then ['k']
    else if c == '\U{130}' then ['i', '\U{307}']
    else [c]
  }

  /** `text.lower()`. */
  function Lower(s: string): string
    decreases |s|
  {
    if s == [] then [] else LowerChar(s[0]) + Lower(s[1..])
  }

  function IndexIn(s: string, c: char): (i: nat)
    requires c in s
    ensures i < |s| && s[i] == c
  {
    if s[0] == c then 0 else 1 + IndexIn(s[1..], c)
  }

  /**
   * The replacement callback: `Plain[Accented.index(c)]` for table letters. Every table letter
   * lies in U+00E0..U+00FF, so characters below U+00E0 are kept without consulting the table.
   */
  function FoldChar(c: char): char {
    if c < '\U{E0}' || c !in Accented then c else Plain[IndexIn(Accented, c)]
  }

  /** `re.sub('[àá…ÿ]', …, text)`. */
  function FoldAccents(s: string): (r: string)
    ensures |r| == |s| && forall i :: 0 <= i < |s| ==> r[i] == FoldChar(s[i])
    decreases |s|
  {
    if s == [] then [] else [FoldChar(s[0])] + FoldAccents(s[1..])
  }

  /** The character class `[a-z0-9]`. */
  predicate IsAlnum(c: char) {
    'a' <= c <= 'z' || '0' <= c <= '9'
  }

  predicate NotAlnum(c: char) {
    !IsAlnum(c)
  }

  predicate IsHyphen(c: char) {
    c == '-'
  }

  /** `re.sub(r'[^a-z0-9]+', '-', text)`: the leftmost, longest run is replaced, then the scan goes on after it. */
  function HyphenateRuns(s: string): string
    decreases |s|
  {
    if s == [] then []
    else if IsAlnum(s[0]) then [s[0]] + HyphenateRuns(s[1..])
    else "-" + HyphenateRuns(TrimLeft(s[1..], NotAlnum))
  }

  /** `text.strip('-')`. */
  function StripHyphens(s: string): string {
    TrimRight(TrimLeft(s, IsHyphen), IsHyphen)
  }

  /** `re.sub(r'-+', '-', text)`. */
  function CollapseHyphens(s: string): string
    decreases |s|
  {
    if s == [] then []
    else if s[0] == '-' then "-" + CollapseHyphens(TrimLeft(s[1..], IsHyphen))
    else [s[0]] + CollapseHyphens(s[1..])
  }

  function Slugify(text: string): string {
    CollapseHyphens(StripHyphens(HyphenateRuns(FoldAccents(Lower(text)))))
  }

  /** Only `[a-z0-9-]`. */
  predicate SlugAlphabet(s: string) {
    forall i :: 0 <= i < |s| ==> IsAlnum(s[i]) || s[i] == '-'
  }

  /** No two consecutive hyphens. */
  predicate NoDoubleHyphen(s: string)
    decreases |s|
  {
    |s| < 2 || ((s[0] != '-' || s[1] != '-') && NoDoubleHyphen(s[1..]))
  }

  /** Each adjacent pair of a string without `--` contains a non-hyphen. */
  lemma {:induction false} NoDoubleHyphenAt(s: string, i: nat)
    requires NoDoubleHyphen(s) && i + 1 < |s|
    ensures s[i] != '-' || s[i + 1] != '-'
    decreases i
  {
    if i > 0 {
      NoDoubleHyphenAt(s[1..], i - 1);
    }
  }

  /** Dropping characters from the front or the back cannot create `--`. */
  lemma {:induction false} NoDoubleHyphenSlice(s: string, i: nat, j: nat)
    requires NoDoubleHyphen(s) && i <= j <= |s|
    ensures NoDoubleHyphen(s[i..j])
    decreases j - i
  {
    if j - i >= 2 {
      assert s[i..j][1..] == s[i + 1..j];
      NoDoubleHyphenAt(s, i);
      NoDoubleHyphenSlice(s, i + 1, j);
    }
  }

  /** The shape every slug has: alphabet `[a-z0-9-]`, no `-` at either end, no `--`. */
  predicate IsSlug(s: string) {
    && SlugAlphabet(s)
    && NoDoubleHyphen(s)
    && (s != [] ==> s[0] != '-' && s[|s| - 1] != '-')
  }

  // ---- HyphenateRuns ----

  lemma {:induction false} HyphenateRunsHead(s: string)
    requires s != [] && IsAlnum(s[0])
    ensures HyphenateRuns(s) != [] && HyphenateRuns(s)[0] == s[0]
  {
  }

  /** An allowed character in front of a slug-shaped text keeps its shape. */
  lemma ConsShape(c: char, t: string)
    requires IsAlnum(c) && SlugAlphabet(t) && NoDoubleHyphen(t)
    ensures SlugAlphabet([c] + t) && NoDoubleHyphen([c] + t)
  {
    assert ([c] + t)[1..] == t;
    forall i | 1 <= i < |t| + 1 ensures IsAlnum(([c] + t)[i]) || ([c] + t)[i] == '-' {
      assert ([c] + t)[i] == t[i - 1];
    }
  }

  /** A hyphen in front of a slug-shaped text that does not start with one keeps its shape. */
  lemma HyphenShape(t: string)
    requires SlugAlphabet(t) && NoDoubleHyphen(t) && (t != [] ==> t[0] != '-')
    ensures SlugAlphabet("-" + t) && NoDoubleHyphen("-" + t)
  {
    assert ("-" + t)[1..] == t;
    forall i | 1 <= i < |t| + 1 ensures IsAlnum(("-" + t)[i]) || ("-" + t)[i] == '-' {
      assert ("-" + t)[i] == t[i - 1];
    }
  }

  /** After the run replacement only `[a-z0-9-]` remain and no two hyphens touch. */
  lemma {:induction false} HyphenateRunsShape(s: string)
    ensures SlugAlphabet(HyphenateRuns(s)) && NoDoubleHyphen(HyphenateRuns(s))
    decreases |s|
  {
    if s == [] {
    } else if IsAlnum(s[0]) {
      HyphenateRunsShape(s[1..]);
      ConsShape(s[0], HyphenateRuns(s[1..]));
    } else {
      var rest := TrimLeft(s[1..], NotAlnum);
      HyphenateRunsShape(rest);
      if rest != [] {
        HyphenateRunsHead(rest);
      }
      HyphenShape(HyphenateRuns(rest));
    }
  }

  lemma SlugAlphabetTail(s: string)
    requires s != [] && SlugAlphabet(s)
    ensures SlugAlphabet(s[1..])
  {
    assert forall i :: 0 <= i < |s[1..]| ==> s[1..][i] == s[i + 1];
  }

  /** A single hyphen in front of an allowed character is a run of length one. */
  lemma HyphenateRunsSingleHyphen(s: string)
    requires |s| > 1 && s[0] == '-' && IsAlnum(s[1])
    ensures HyphenateRuns(s) == "-" + HyphenateRuns(s[1..])
  {
    assert TrimLeft(s[1..], NotAlnum) == s[1..];
  }

  /** On a slug the run replacement changes nothing. */
  lemma {:induction false} HyphenateRunsOnSlug(s: string)
    requires SlugAlphabet(s) && NoDoubleHyphen(s) && (s != [] ==> s[|s| - 1] != '-')
    ensures HyphenateRuns(s) == s
    decreases |s|
  {
    if s != [] {
      SlugAlphabetTail(s);
      HyphenateRunsOnSlug(s[1..]);
      if !IsAlnum(s[0]) {
        assert s[1] != '-';
        HyphenateRunsSingleHyphen(s);
      }
    }
  }

  // ---- StripHyphens ----

  lemma SlugAlphabetSlice(s: string, i: nat, j: nat)
    requires SlugAlphabet(s) && i <= j <= |s|
    ensures SlugAlphabet(s[i..j])
  {
    forall k | 0 <= k < j - i ensures IsAlnum(s[i..j][k]) || s[i..j][k] == '-' {
      assert s[i..j][k] == s[i + k];
    }
  }

  /** `r` occurs in `s` at position `k`. */
  predicate SliceAt(s: string, k: nat, r: string) {
    k + |r| <= |s| && s[k..k + |r|] == r
  }

  /** Trimming both ends leaves a contiguous part of the text whose ends are kept characters. */
  lemma TrimBothSlice(s: string, drop: char -> bool) returns (k: nat)
    ensures var r := TrimRight(TrimLeft(s, drop), drop);
      && SliceAt(s, k, r)
      && (r != [] ==> !drop(r[0]) && !drop(r[|r| - 1]))
  {
    var l := TrimLeft(s, drop);
    k := |s| - |l|;
    PrefixOfSuffix(s, l, TrimRight(l, drop), k);
  }

  lemma PrefixOfSuffix(s: string, l: string, r: string, k: nat)
    requires k <= |s| && l == s[k..] && |r| <= |l| && r == l[..|r|]
    ensures SliceAt(s, k, r)
    ensures r != [] ==> r[0] == l[0]
  {
  }

  /** A part of a text without `--`, with no `-` at either end, is a slug. */
  lemma SlugOfSlice(s: string, r: string, k: nat)
    requires SlugAlphabet(s) && NoDoubleHyphen(s) && SliceAt(s, k, r)
    requires r != [] ==> r[0] != '-' && r[|r| - 1] != '-'
    ensures IsSlug(r)
  {
    SlugAlphabetSlice(s, k, k + |r|);
    NoDoubleHyphenSlice(s, k, k + |r|);
  }

  /** Stripping the hyphens of a text without `--` leaves a slug. */
  lemma StripHyphensShape(s: string)
    requires SlugAlphabet(s) && NoDoubleHyphen(s)
    ensures IsSlug(StripHyphens(s))
  {
    var k := TrimBothSlice(s, IsHyphen);
    SlugOfSlice(s, StripHyphens(s), k);
  }

  /** The strip keeps a text with no `-` at either end. */
  lemma StripHyphensKeeps(s: string)
    requires s != [] ==> s[0] != '-' && s[|s| - 1] != '-'
    ensures StripHyphens(s) == s
  {
    assert TrimLeft(s, IsHyphen) == s;
    assert TrimRight(s, IsHyphen) == s;
  }

  lemma StripHyphensOnSlug(s: string)
    requires IsSlug(s)
    ensures StripHyphens(s) == s
  {
    StripHyphensKeeps(s);
  }

  // ---- CollapseHyphens ----

  lemma {:induction false} CollapseWithoutDoubles(s: string)
    requires NoDoubleHyphen(s)
    ensures CollapseHyphens(s) == s
    decreases |s|
  {
    if s != [] {
      var tail := s[1..];
      assert NoDoubleHyphen(tail) by {
        assert forall i :: 0 <= i < |tail| ==> tail[i] == s[i + 1];
      }
      if s[0] == '-' {
        assert tail == [] || tail[0] != '-';
        assert TrimLeft(tail, IsHyphen) == tail;
      }
      CollapseWithoutDoubles(tail);
    }
  }

  // ---- Lower and FoldAccents ----

  lemma {:induction false} LowerOnSlug(s: string)
    requires SlugAlphabet(s)
    ensures Lower(s) == s
    decreases |s|
  {
    if s != [] {
      assert SlugAlphabet(s[1..]) by {
        assert forall i :: 0 <= i < |s[1..]| ==> s[1..][i] == s[i + 1];
      }
      LowerOnSlug(s[1..]);
      assert LowerChar(s[0]) == [s[0]];
    }
  }

  lemma AccentedAreNotAscii(c: char)
    requires c in Accented
    ensures c >= '\U{E0}'
  {
    var k :| 0 <= k < |Accented| && Accented[k] == c;
  }

  lemma FoldOnSlug(s: string)
    requires SlugAlphabet(s)
    ensures FoldAccents(s) == s
  {
    forall i | 0 <= i < |s| ensures FoldChar(s[i]) == s[i] {
      if s[i] in Accented {
        AccentedAreNotAscii(s[i]);
      }
    }
  }

  // ---- Slugify ----

  /** Every slug uses only `[a-z0-9-]`, has no `-` at either end and no `--`. */
  lemma SlugifyIsSlug(text: string)
    ensures IsSlug(Slugify(text))
  {
    var h := HyphenateRuns(FoldAccents(Lower(text)));
    HyphenateRunsShape(FoldAccents(Lower(text)));
    StripHyphensShape(h);
    CollapseWithoutDoubles(StripHyphens(h));
  }

  /** A slug is its own slug. */
  lemma SlugifyOfSlug(s: string)
    requires IsSlug(s)
    ensures Slugify(s) == s
  {
    LowerOnSlug(s);
    FoldOnSlug(s);
    HyphenateRunsOnSlug(s);
    StripHyphensOnSlug(s);
    CollapseWithoutDoubles(s);
  }

  /** Slugifying twice is slugifying once. */
  lemma SlugifyIdempotent(text: string)
    ensures Slugify(Slugify(text)) == Slugify(text)
  {
    SlugifyIsSlug(text);
    SlugifyOfSlug(Slugify(text));
  }
}
