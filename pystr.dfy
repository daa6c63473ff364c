/**
 * The parts of Python's `str` type that the two scripts rely on: whitespace, `strip`,
 * prefix and substring tests (also in the ASCII case-insensitive form that `re.IGNORECASE`
 * gives the literal patterns), `find`/`rfind`, slicing and `join`.
 */
module PyStr {

  /** `str.isspace()` for one character: the set `str.strip()` removes and `\s` matches. */
  predicate IsSpace(c: char) {
    c == ' ' || ('\t' <= c <= '\r') || ('\U{1C}' <= c <= '\U{1F}') || c == '\U{85}' || c == '\U{A0}'
    || c == '\U{1680}' || ('\U{2000}' <= c <= '\U{200A}') || c == '\U{2028}' || c == '\U{2029}'
    || c == '\U{202F}' || c == '\U{205F}' || c == '\U{3000}'
  }

  predicate IsAsciiDigit(c: char) {
    '0' <= c <= '9'
  }

  /** Removes the longest prefix whose characters all satisfy `drop`. */
  function TrimLeft(s: string, drop: char -> bool): (r: string)
    ensures |r| <= |s| && r == s[|s| - |r|..]
    ensures r != [] ==> !drop(r[0])
    decreases |s|
  {
    if s != [] && drop(s[0]) then TrimLeft(s[1..], drop) else s
  }

  /** Every character `TrimLeft` removes satisfies `drop`. */
  lemma {:induction false} TrimLeftDropped(s: string, drop: char -> bool)
    ensures forall i :: 0 <= i < |s| - |TrimLeft(s, drop)| ==> drop(s[i])
    decreases |s|
  {
    if s != [] && drop(s[0]) {
      TrimLeftDropped(s[1..], drop);
      assert forall i :: 1 <= i < |s| - |TrimLeft(s, drop)| ==> s[i] == s[1..][i - 1];
    }
  }

  /** Removes the longest suffix whose characters all satisfy `drop`. */
  function TrimRight(s: string, drop: char -> bool): (r: string)
    ensures |r| <= |s| && r == s[..|r|]
    ensures r != [] ==> !drop(r[|r| - 1])
    decreases |s|
  {
    if s != [] && drop(s[|s| - 1]) then TrimRight(s[..|s| - 1], drop) else s
  }

  /** Every character `TrimRight` removes satisfies `drop`. */
  lemma {:induction false} TrimRightDropped(s: string, drop: char -> bool)
    ensures forall i :: |TrimRight(s, drop)| <= i < |s| ==> drop(s[i])
    decreases |s|
  {
    if s != [] && drop(s[|s| - 1]) {
      TrimRightDropped(s[..|s| - 1], drop);
    }
  }

  /** `s.strip()`. */
  function Strip(s: string): (r: string)
    ensures |r| <= |s|
    ensures r != [] ==> !IsSpace(r[0]) && !IsSpace(r[|r| - 1])
  {
    TrimRight(TrimLeft(s, IsSpace), IsSpace)
  }

  /** The characters of `Strip(s)` are a contiguous part of `s`. */
  lemma StripIsSlice(s: string) returns (i: nat)
    ensures i + |Strip(s)| <= |s| && Strip(s) == s[i..i + |Strip(s)|]
  {
    var l := TrimLeft(s, IsSpace);
    i := |s| - |l|;
    assert Strip(s) == l[..|Strip(s)|];
  }

  /** A text without white space at either end is its own `strip()`. */
  lemma StripOfTrimmed(s: string)
    requires s != [] ==> !IsSpace(s[0]) && !IsSpace(s[|s| - 1])
    ensures Strip(s) == s
  {
    assert TrimLeft(s, IsSpace) == s;
  }

  lemma StripIdempotent(s: string)
    ensures Strip(Strip(s)) == Strip(s)
  {
    var r := Strip(s);
    assert TrimLeft(r, IsSpace) == r;
  }

  predicate StartsWith(s: string, p: string) {
    |p| <= |s| && s[..|p|] == p
  }

  predicate EndsWith(s: string, p: string) {
    |p| <= |s| && s[|s| - |p|..] == p
  }

  /** `p in s` for strings. */
  predicate Contains(s: string, p: string)
    decreases |s|
  {
    StartsWith(s, p) || (s != [] && Contains(s[1..], p))
  }

  lemma ContainsAt(s: string, p: string, i: nat)
    requires i + |p| <= |s| && s[i..i + |p|] == p
    ensures Contains(s, p)
    decreases i
  {
    if i > 0 {
      assert s[1..][i - 1..i - 1 + |p|] == s[i..i + |p|];
      ContainsAt(s[1..], p, i - 1);
    }
  }

  /** An occurrence of `p` in a slice of `s` is an occurrence in `s`. */
  lemma {:induction false} ContainsInSlice(s: string, p: string, i: nat, j: nat)
    requires i <= j <= |s| && Contains(s[i..j], p)
    ensures Contains(s, p)
    decreases j - i
  {
    var t := s[i..j];
    if StartsWith(t, p) {
      assert s[i..i + |p|] == t[..|p|];
      ContainsAt(s, p, i);
    } else {
      assert t[1..] == s[i + 1..j];
      ContainsInSlice(s, p, i + 1, j);
    }
  }

  /** ASCII lower case, the folding `re.IGNORECASE` applies to the scripts' ASCII patterns. */
  function AsciiLower(c: char): char {
    if 'A' <= c <= 'Z' then (c as int + 32) as char else c
  }

  /** `s` starts with `p` ignoring ASCII case; `p` is written in lower case. */
  predicate StartsWithCI(s: string, p: string) {
    |p| <= |s| && forall i :: 0 <= i < |p| ==> AsciiLower(s[i]) == p[i]
  }

  /** `re.search(p, s, re.IGNORECASE)` for a pattern `p` that is a plain lower-case literal. */
  predicate ContainsCI(s: string, p: string)
    decreases |s|
  {
    StartsWithCI(s, p) || (s != [] && ContainsCI(s[1..], p))
  }

  /** A case-insensitive occurrence needs, at its start, a character that folds to `p[0]`. */
  lemma {:induction false} ContainsCIHasChar(s: string, p: string, k: nat)
    requires k < |p| && ContainsCI(s, p)
    ensures exists i :: 0 <= i < |s| && AsciiLower(s[i]) == p[k]
    decreases |s|
  {
    if StartsWithCI(s, p) {
      assert AsciiLower(s[k]) == p[k];
    } else {
      ContainsCIHasChar(s[1..], p, k);
      var i :| 0 <= i < |s[1..]| && AsciiLower(s[1..][i]) == p[k];
      assert AsciiLower(s[i + 1]) == p[k];
    }
  }

  /** A string none of whose characters folds to some character of `p` cannot contain `p`. */
  lemma AbsentCharExcludes(s: string, p: string, k: nat)
    requires k < |p| && forall i :: 0 <= i < |s| ==> AsciiLower(s[i]) != p[k]
    ensures !ContainsCI(s, p)
  {
    if ContainsCI(s, p) {
      ContainsCIHasChar(s, p, k);
    }
  }

  lemma ContainsCIAt(s: string, p: string, i: nat)
    requires i <= |s| && StartsWithCI(s[i..], p)
    ensures ContainsCI(s, p)
    decreases i
  {
    if i > 0 {
      assert s[1..][i - 1..] == s[i..];
      ContainsCIAt(s[1..], p, i - 1);
    }
  }

  /** An occurrence found by `ContainsCI` sits at some index. */
  lemma {:induction false} ContainsCIIndex(s: string, p: string) returns (i: nat)
    requires ContainsCI(s, p)
    ensures i <= |s| && StartsWithCI(s[i..], p)
    decreases |s|
  {
    if StartsWithCI(s, p) {
      i := 0;
      assert s[0..] == s;
    } else {
      var k := ContainsCIIndex(s[1..], p);
      i := k + 1;
      assert s[1..][k..] == s[i..];
    }
  }

  /** Case folding changes only letters: a character folding to a non-letter is that character. */
  lemma AsciiLowerOfNonLetter(c: char, d: char)
    requires AsciiLower(c) == d && !('a' <= d <= 'z')
    ensures c == d
  {
  }

  /** `s.find(c)`: the first index of `c`, or -1. */
  function Find(s: string, c: char): (r: int)
    ensures -1 <= r < |s|
    ensures r == -1 <==> c !in s
    ensures r >= 0 ==> s[r] == c && c !in s[..r]
  {
    if s == [] then -1
    else if s[0] == c then 0
    else
      var r := Find(s[1..], c);
      assert s[1..] == s[1..][..|s[1..]|];
      if r == -1 then -1
      else
        assert s[..r + 1] == [s[0]] + s[1..][..r];
        r + 1
  }

  /** `s.rfind(c)`: the last index of `c`, or -1. */
  function RFind(s: string, c: char): (r: int)
    ensures -1 <= r < |s|
    ensures r == -1 <==> c !in s
    ensures r >= 0 ==> s[r] == c && c !in s[r + 1..]
  {
    if s == [] then -1
    else if s[|s| - 1] == c then |s| - 1
    else
      var r := RFind(s[..|s| - 1], c);
      assert s == s[..|s| - 1] + [s[|s| - 1]];
      if r >= 0 then
        assert s[r + 1..] == s[..|s| - 1][r + 1..] + [s[|s| - 1]];
        r
      else r
  }

  /** Python's reading of a slice bound: a negative bound counts from the end, then it is clamped to `[0, n]`. */
  function SliceBound(n: nat, i: int): (b: nat)
    ensures b <= n
    ensures 0 <= i <= n ==> b == i
    ensures i < 0 && n + i >= 0 ==> b == n + i
  {
    if i < 0 then (if n + i < 0 then 0 else n + i) else if i > n then n else i
  }

  /** Python's `s[i:j]` for bounds that may be negative, out of range or out of order. */
  function PySlice<T>(s: seq<T>, i: int, j: int): (r: seq<T>)
    ensures |r| <= |s|
  {
    var lo := SliceBound(|s|, i);
    var hi := SliceBound(|s|, j);
    if lo < hi then s[lo..hi] else []
  }

  /** Within the bounds, a Python slice is Dafny's slice, or empty when the bounds cross. */
  lemma PySliceWithin<T>(s: seq<T>, i: int, j: int)
    requires 0 <= i <= |s| && 0 <= j <= |s|
    ensures PySlice(s, i, j) == if i < j then s[i..j] else []
  {
  }

  /** `os.path.basename(p)`: what follows the last `/`. */
  function Basename(p: string): (r: string)
    ensures '/' !in r
    ensures '/' !in p ==> r == p
  {
    var k := RFind(p, '/');
    p[k + 1..]
  }

  /** `s[:n]` for a non-negative `n`. */
  function TakeAtMost<T>(s: seq<T>, n: nat): (r: seq<T>)
    ensures |r| <= n && |r| <= |s| && r == s[..|r|]
    ensures |s| <= n ==> r == s
    ensures |s| > n ==> r == s[..n]
  {
    if |s| <= n then s else s[..n]
  }

  /** `sep.join(parts)`. */
  function Join(sep: string, parts: seq<string>): string
    decreases |parts|
  {
    if |parts| == 0 then ""
    else if |parts| == 1 then parts[0]
    else parts[0] + sep + Join(sep, parts[1..])
  }
}
