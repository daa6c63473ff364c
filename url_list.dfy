/**
 * The line filter both scripts apply to their URL files (`urlfiche.txt`, `urlblog.txt`): each
 * line is stripped, empty lines and `#` comments are skipped, and what is left is kept when a
 * further test accepts it.
 */
module UrlList {
  import opened PyStr

  /** Every line, stripped. */
  function Stripped(lines: seq<string>): (r: seq<string>)
    ensures |r| == |lines| && forall i :: 0 <= i < |lines| ==> r[i] == Strip(lines[i])
  {
    seq(|lines|, i requires 0 <= i < |lines| => Strip(lines[i]))
  }

  /** A stripped line that is neither empty nor a comment, and that the further test accepts. */
  predicate Wanted(u: string, accept: string -> bool) {
    u != [] && u[0] != '#' && accept(u)
  }

  /** The wanted entries, in order. */
  function Select(us: seq<string>, accept: string -> bool): (r: seq<string>)
    ensures |r| <= |us|
    decreases |us|
  {
    if us == [] then []
    else Select(us[..|us| - 1], accept) + (if Wanted(us[|us| - 1], accept) then [us[|us| - 1]] else [])
  }

  /** The stripped lines that are kept, in file order. */
  function KeptLines(lines: seq<string>, accept: string -> bool): (r: seq<string>)
    ensures |r| <= |lines|
  {
    Select(Stripped(lines), accept)
  }

  /** The test of a file that only skips blanks and comments. */
  predicate AnyLine(u: string) {
    true
  }

  /** An entry is selected exactly when it occurs and is wanted. */
  lemma {:induction false} SelectMeaning(us: seq<string>, accept: string -> bool, u: string)
    ensures u in Select(us, accept) <==> u in us && Wanted(u, accept)
    decreases |us|
  {
    if us != [] {
      var front := us[..|us| - 1];
      SelectMeaning(front, accept, u);
      assert us == front + [us[|us| - 1]];
    }
  }

  /** A URL is kept exactly when some line strips to it and it is wanted. */
  lemma KeptLinesMeaning(lines: seq<string>, accept: string -> bool, u: string)
    ensures u in KeptLines(lines, accept) <==>
      (exists i :: 0 <= i < |lines| && Strip(lines[i]) == u) && Wanted(u, accept)
  {
    var us := Stripped(lines);
    SelectMeaning(us, accept, u);
    if u in us {
      var i :| 0 <= i < |us| && us[i] == u;
      assert Strip(lines[i]) == u;
    }
    if exists i :: 0 <= i < |lines| && Strip(lines[i]) == u {
      var i :| 0 <= i < |lines| && Strip(lines[i]) == u;
      assert us[i] == u;
    }
  }

  /** Every kept URL is already stripped, non-empty, not a comment and accepted. */
  lemma KeptLinesAreClean(lines: seq<string>, accept: string -> bool)
    ensures forall u :: u in KeptLines(lines, accept) ==> Wanted(u, accept) && Strip(u) == u
  {
    var us := Stripped(lines);
    forall u | u in KeptLines(lines, accept) ensures Wanted(u, accept) && Strip(u) == u {
      SelectMeaning(us, accept, u);
      var i :| 0 <= i < |us| && us[i] == u;
      StripIdempotent(lines[i]);
    }
  }

  /** What is kept follows the lines: one more line adds its stripped text when that is wanted. */
  lemma KeptLinesSnoc(lines: seq<string>, line: string, accept: string -> bool)
    ensures KeptLines(lines + [line], accept)
      == KeptLines(lines, accept) + (if Wanted(Strip(line), accept) then [Strip(line)] else [])
  {
    var us := Stripped(lines + [line]);
    assert us[..|us| - 1] == Stripped(lines);
  }

  /** The same step stated on the first `i + 1` lines of a file, as a loop over it meets it. */
  lemma KeptLinesNext(lines: seq<string>, i: nat, accept: string -> bool)
    requires i < |lines|
    ensures KeptLines(lines[..i + 1], accept)
      == KeptLines(lines[..i], accept) + (if Wanted(Strip(lines[i]), accept) then [Strip(lines[i])] else [])
  {
    assert lines[..i + 1] == lines[..i] + [lines[i]];
    KeptLinesSnoc(lines[..i], lines[i], accept);
  }
}
