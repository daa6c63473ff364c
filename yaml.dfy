/**
 * `_escape_yaml_string` and the reading a YAML parser gives it back. Inside a single-quoted
 * YAML scalar the only escape is a doubled quote, which stands for one quote (section 7.3.2 of
 * the YAML 1.2 specification); the front matter writes every string value as `'<escaped>'`.
 */
module Yaml {

  /** `text.replace("'", "''")`. */
  function Escape(s: string): (r: string)
    ensures |r| >= |s|
    decreases |s|
  {
    if s == [] then []
    else
      assert s == [s[0]] + s[1..];
      (if s[0] == '\'' then "''" else [s[0]]) + Escape(s[1..])
  }

  /** Every quote is the first half of a doubled pair: the text can sit between single quotes. */
  predicate WellEscaped(t: string)
    decreases |t|
  {
    t == []
    || (t[0] != '\'' && WellEscaped(t[1..]))
    || (|t| >= 2 && t[0] == '\'' && t[1] == '\'' && WellEscaped(t[2..]))
  }

  /** The YAML reading of the inside of a single-quoted scalar: `''` stands for `'`. */
  function Unescape(t: string): string
    decreases |t|
  {
    if t == [] then []
    else if |t| >= 2 && t[0] == '\'' && t[1] == '\'' then "'" + Unescape(t[2..])
    else [t[0]] + Unescape(t[1..])
  }

  /** An escaped string never ends a quoted scalar early: each of its quotes is doubled. */
  lemma {:induction false} EscapeIsWellEscaped(s: string)
    ensures WellEscaped(Escape(s))
    decreases |s|
  {
    if s != [] {
      EscapeIsWellEscaped(s[1..]);
      var r := Escape(s);
      if s[0] == '\'' {
        assert r[2..] == Escape(s[1..]);
      } else {
        assert r[1..] == Escape(s[1..]);
      }
    }
  }

  /** A YAML reader gets back exactly the string that was escaped. */
  lemma {:induction false} UnescapeEscape(s: string)
    ensures Unescape(Escape(s)) == s
    decreases |s|
  {
    if s != [] {
      UnescapeEscape(s[1..]);
      var r := Escape(s);
      if s[0] == '\'' {
        assert r[2..] == Escape(s[1..]);
      } else {
        assert r[1..] == Escape(s[1..]);
      }
      assert s == [s[0]] + s[1..];
    }
  }

  /** Conversely, a well-escaped text is the escape of what it reads as. */
  lemma {:induction false} EscapeUnescape(t: string)
    requires WellEscaped(t)
    ensures Escape(Unescape(t)) == t
    decreases |t|
  {
    if t != [] {
      if |t| >= 2 && t[0] == '\'' && t[1] == '\'' {
        EscapeUnescape(t[2..]);
        var u := Unescape(t);
        assert u[0] == '\'' && u[1..] == Unescape(t[2..]);
        assert t == "''" + t[2..];
      } else {
        EscapeUnescape(t[1..]);
        var u := Unescape(t);
        assert u[0] == t[0] && u[1..] == Unescape(t[1..]);
        assert t == [t[0]] + t[1..];
      }
    }
  }

  /** The escape is one character longer than its input for every quote in it. */
  lemma {:induction false} EscapeLength(s: string)
    ensures |Escape(s)| == |s| + multiset(s)['\'']
    decreases |s|
  {
    if s != [] {
      EscapeLength(s[1..]);
      assert s == [s[0]] + s[1..];
      assert multiset(s) == multiset([s[0]]) + multiset(s[1..]);
    }
  }

  /** A string without quotes is written as it is. */
  lemma {:induction false} EscapeWithoutQuotes(s: string)
    requires '\'' !in s
    ensures Escape(s) == s
    decreases |s|
  {
    if s != [] {
      assert s[0] != '\'' && '\'' !in s[1..];
      EscapeWithoutQuotes(s[1..]);
      assert s == [s[0]] + s[1..];
    }
  }

  /** A value handed to `_escape_yaml_string`: a string, or any other value. */
  datatype Value = Text(text: string) | NonText(other: string)

  /** `_escape_yaml_string`: a string is escaped, any other value comes back unchanged. */
  function EscapeValue(v: Value): (r: Value)
    ensures v.NonText? ==> r == v
    ensures v.Text? ==> r.Text? && WellEscaped(r.text) && Unescape(r.text) == v.text
  {
    if v.NonText? then v
    else
      EscapeIsWellEscaped(v.text);
      UnescapeEscape(v.text);
      Text(Escape(v.text))
  }
}
