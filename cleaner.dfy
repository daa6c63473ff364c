/**
 * `_clean_markdown_response`: four `re.sub` passes that remove code-fence markers from the
 * generated article, then `strip()`. Each pass is written as the scan `re.sub` performs: at every
 * position, try the pattern; on a match drop it and go on after it, otherwise keep one character.
 * The passes are case-sensitive, as the source writes them.
 */
module Cleaner {
  import opened Wrappers
  import opened PyStr

  const Fence: string := "```"
  const TaggedFence: string := "```markdown"

  /** The length of the run of `\s` characters at the front of `s`. */
  function SpaceRun(s: string): (n: nat)
    ensures n <= |s|
    ensures forall i :: 0 <= i < n ==> IsSpace(s[i])
    ensures n < |s| ==> !IsSpace(s[n])
  {
    TrimLeftDropped(s, IsSpace);
    |s| - |TrimLeft(s, IsSpace)|
  }

  /**
   * The length of a match of `^```markdown\s*\n` at the front of `s` (the `^` is checked by the
   * caller). The greedy `\s*` gives back characters until a line break follows it, so the match
   * ends with the last line break of the white-space run after the tag.
   */
  function OpeningFenceLength(s: string): (r: Option<nat>)
    ensures r.Some? ==> |TaggedFence| < r.value <= |s| && StartsWith(s, TaggedFence) && s[r.value - 1] == '\n'
  {
    if !StartsWith(s, TaggedFence) then None
    else
      var rest := s[|TaggedFence|..];
      var run := rest[..SpaceRun(rest)];
      var last := RFind(run, '\n');
      if last < 0 then None else Some(|TaggedFence| + last + 1)
  }

  /**
   * `re.sub(r'^```markdown\s*\n', '', text, flags=re.MULTILINE)`; `lineStart` says whether the
   * character before `s` in the original text was a line break (or there was none).
   */
  function DropOpeningFences(s: string, lineStart: bool): string
    decreases |s|
  {
    if s == [] then []
    else if lineStart && OpeningFenceLength(s).Some? then DropOpeningFences(s[OpeningFenceLength(s).value..], true)
    else [s[0]] + DropOpeningFences(s[1..], s[0] == '\n')
  }

  /**
   * The length of a match of `\n```\s*$` at the front of `s`. With MULTILINE, `$` holds at the
   * end of the text and before every line break: the greedy `\s*` takes the whole run when it
   * reaches the end, and otherwise gives back characters up to the last line break in the run,
   * which stays in the text.
   */
  function ClosingFenceLength(s: string): (r: Option<nat>)
    ensures r.Some? ==> 4 <= r.value <= |s| && StartsWith(s, "\n" + Fence)
  {
    if !StartsWith(s, "\n" + Fence) then None
    else
      var rest := s[4..];
      var n := SpaceRun(rest);
      if n == |rest| then Some(|s|)
      else
        var last := RFind(rest[..n], '\n');
        if last < 0 then None else Some(4 + last)
  }

  /** `re.sub(r'\n```\s*$', '', text, flags=re.MULTILINE)`. */
  function DropClosingFences(s: string): string
    decreases |s|
  {
    if s == [] then []
    else if ClosingFenceLength(s).Some? then DropClosingFences(s[ClosingFenceLength(s).value..])
    else [s[0]] + DropClosingFences(s[1..])
  }

  /** `re.sub(marker + r'\s*', '', text)`: every `marker` and the white space after it. */
  function DropMarkers(s: string, marker: string): string
    requires marker != []
    decreases |s|
  {
    if s == [] then []
    else if StartsWith(s, marker) then
      var rest := s[|marker|..];
      DropMarkers(rest[SpaceRun(rest)..], marker)
    else [s[0]] + DropMarkers(s[1..], marker)
  }

  /** `_clean_markdown_response`. */
  function Clean(text: string): string {
    Strip(DropMarkers(DropMarkers(DropClosingFences(DropOpeningFences(text, true)), TaggedFence), Fence))
  }

  // ---- no fence survives ----

  /** A cleaned text that starts with a backtick comes from a text that starts with one. */
  lemma {:induction false} DropFencesFirst(s: string)
    requires DropMarkers(s, Fence) != [] && DropMarkers(s, Fence)[0] == '`'
    ensures s != [] && s[0] == '`'
  {
  }

  lemma {:induction false} DropFencesFirstTwo(s: string)
    requires StartsWith(DropMarkers(s, Fence), "``")
    ensures StartsWith(s, "``")
  {
    if !StartsWith(s, Fence) {
      var r := DropMarkers(s[1..], Fence);
      assert DropMarkers(s, Fence) == [s[0]] + r;
      assert r != [] && r[0] == DropMarkers(s, Fence)[1];
      DropFencesFirst(s[1..]);
    }
  }

  /** A text that does not start with a fence does not start with one after the last pass. */
  lemma KeptStartHasNoFence(s: string)
    requires s != [] && !StartsWith(s, Fence)
    ensures !StartsWith(DropMarkers(s, Fence), Fence)
  {
    var r := DropMarkers(s[1..], Fence);
    var t := [s[0]] + r;
    assert t[1..] == r;
    if StartsWith(t, Fence) {
      assert StartsWith(r, "``") by {
        assert r[..2] == t[1..3];
      }
      DropFencesFirstTwo(s[1..]);
    }
  }

  /** A character in front of a fence-free text adds a fence only by starting one. */
  lemma ConsNoFence(c: char, r: string)
    requires !Contains(r, Fence) && !StartsWith([c] + r, Fence)
    ensures !Contains([c] + r, Fence)
  {
    assert ([c] + r)[1..] == r;
  }

  /** After the last pass the text holds no three backticks in a row. */
  lemma {:induction false} DropFencesLeavesNone(s: string)
    ensures !Contains(DropMarkers(s, Fence), Fence)
    decreases |s|
  {
    if s != [] {
      if StartsWith(s, Fence) {
        var rest := s[|Fence|..];
        DropFencesLeavesNone(rest[SpaceRun(rest)..]);
      } else {
        DropFencesLeavesNone(s[1..]);
        KeptStartHasNoFence(s);
        ConsNoFence(s[0], DropMarkers(s[1..], Fence));
      }
    }
  }

  /** Stripping takes a slice, so it adds no fence. */
  lemma StripKeepsNoFence(s: string)
    requires !Contains(s, Fence)
    ensures !Contains(Strip(s), Fence)
  {
    var i := StripIsSlice(s);
    if Contains(Strip(s), Fence) {
      ContainsInSlice(s, Fence, i, i + |Strip(s)|);
    }
  }

  /** The cleaned text holds no code fence and has no white space at either end. */
  lemma CleanResult(text: string)
    ensures !Contains(Clean(text), Fence)
    ensures var c := Clean(text); c != [] ==> !IsSpace(c[0]) && !IsSpace(c[|c| - 1])
  {
    var d := DropMarkers(DropMarkers(DropClosingFences(DropOpeningFences(text, true)), TaggedFence), Fence);
    DropFencesLeavesNone(DropMarkers(DropClosingFences(DropOpeningFences(text, true)), TaggedFence));
    StripKeepsNoFence(d);
  }

  // ---- every pass leaves fence-free text alone ----

  lemma NoFenceTail(s: string)
    requires s != [] && !Contains(s, Fence)
    ensures !Contains(s[1..], Fence) && !StartsWith(s, Fence)
  {
  }

  lemma NoFenceNoPrefix(s: string, marker: string)
    requires !Contains(s, Fence) && StartsWith(marker, Fence)
    ensures !StartsWith(s, marker)
  {
  }

  lemma {:induction false} OpeningPassIdentity(s: string, lineStart: bool)
    requires !Contains(s, Fence)
    ensures DropOpeningFences(s, lineStart) == s
    decreases |s|
  {
    if s != [] {
      NoFenceTail(s);
      NoFenceNoPrefix(s, TaggedFence);
      OpeningPassIdentity(s[1..], s[0] == '\n');
    }
  }

  lemma NoClosingFenceStart(s: string)
    requires s != [] && !StartsWith(s[1..], Fence)
    ensures !StartsWith(s, "\n" + Fence)
  {
    if |s| >= 4 {
      assert s[1..][..3] == s[1..4];
      assert s[..4][1..] == s[1..4];
    }
  }

  lemma {:induction false} ClosingPassIdentity(s: string)
    requires !Contains(s, Fence)
    ensures DropClosingFences(s) == s
    decreases |s|
  {
    if s != [] {
      NoFenceTail(s);
      NoClosingFenceStart(s);
      ClosingPassIdentity(s[1..]);
    }
  }

  lemma {:induction false} MarkerPassIdentity(s: string, marker: string)
    requires !Contains(s, Fence) && StartsWith(marker, Fence)
    ensures DropMarkers(s, marker) == s
    decreases |s|
  {
    if s != [] {
      NoFenceTail(s);
      NoFenceNoPrefix(s, marker);
      MarkerPassIdentity(s[1..], marker);
    }
  }

  /** Cleaning a cleaned text changes nothing. */
  lemma CleanIdempotent(text: string)
    ensures Clean(Clean(text)) == Clean(text)
  {
    var c := Clean(text);
    CleanResult(text);
    OpeningPassIdentity(c, true);
    ClosingPassIdentity(c);
    assert StartsWith(TaggedFence, Fence);
    MarkerPassIdentity(c, TaggedFence);
    MarkerPassIdentity(c, Fence);
    StripIdempotent(DropMarkers(DropMarkers(DropClosingFences(DropOpeningFences(text, true)), TaggedFence), Fence));
  }

  // ---- a fenced block is unwrapped ----

  /** A fence-free text followed by a line break and a fence has its first fence at the end. */
  lemma NoClosingInside(b: string)
    requires b != [] && !Contains(b, Fence)
    ensures !StartsWith(b + "\n" + Fence, "\n" + Fence)
  {
    var s := b + "\n" + Fence;
    if |b| >= 4 {
      NoFenceTail(b);
      assert !StartsWith(b[1..], Fence);
      assert s[1..4] == b[1..][..3];
      assert s[..4][1..] == s[1..4];
    } else {
      assert s[|b|] == '\n';
    }
  }

  lemma {:induction false} ClosingDropsFinalFence(b: string)
    requires !Contains(b, Fence)
    ensures DropClosingFences(b + "\n" + Fence) == b
    decreases |b|
  {
    var s := b + "\n" + Fence;
    if b == [] {
      assert s == "\n" + Fence;
      assert s[4..] == [];
    } else {
      NoClosingInside(b);
      NoFenceTail(b);
      assert s[1..] == b[1..] + "\n" + Fence;
      ClosingDropsFinalFence(b[1..]);
    }
  }

  lemma {:induction false} TaggedAbsent(b: string)
    requires !Contains(b, Fence)
    ensures !Contains(b + "\n" + Fence, TaggedFence)
    decreases |b|
  {
    var s := b + "\n" + Fence;
    if b == [] {
      assert !StartsWith(s, TaggedFence);
      assert s[1..] == Fence;
      assert !Contains(Fence, TaggedFence) by {
        assert Fence[1..][1..][1..] == [];
      }
    } else {
      NoFenceTail(b);
      if |b| >= 3 {
        assert s[..3] == b[..3];
      } else {
        assert s[|b|] == '\n';
      }
      assert s[1..] == b[1..] + "\n" + Fence;
      TaggedAbsent(b[1..]);
    }
  }

  lemma {:induction false} OpeningPassKeeps(s: string, lineStart: bool)
    requires !Contains(s, TaggedFence)
    ensures DropOpeningFences(s, lineStart) == s
    decreases |s|
  {
    if s != [] {
      OpeningPassKeeps(s[1..], s[0] == '\n');
    }
  }

  lemma OpeningFenceOfBlock(b: string)
    requires b != [] && !IsSpace(b[0])
    ensures OpeningFenceLength(TaggedFence + "\n" + b) == Some(12)
  {
    var s := TaggedFence + "\n" + b;
    var rest := s[|TaggedFence|..];
    assert rest == "\n" + b;
    assert SpaceRun(rest) == 1;
    assert rest[..1] == "\n";
  }

  /** The first pass removes the opening fence and nothing else. */
  lemma OpeningPassOfBlock(b: string)
    requires b != [] && !IsSpace(b[0]) && !Contains(b, Fence)
    ensures DropOpeningFences(TaggedFence + "\n" + b + "\n" + Fence, true) == b + "\n" + Fence
  {
    var t := b + "\n" + Fence;
    assert TaggedFence + "\n" + b + "\n" + Fence == TaggedFence + "\n" + t;
    OpeningFenceOfBlock(t);
    assert (TaggedFence + "\n" + t)[12..] == t;
    TaggedAbsent(b);
    OpeningPassKeeps(t, true);
  }

  /** A text whose first pass leaves a fence-free, trimmed text and a final fence cleans to that text. */
  lemma CleanAfterOpening(text: string, b: string)
    requires b != [] && !IsSpace(b[0]) && !IsSpace(b[|b| - 1])
    requires !Contains(b, Fence)
    requires DropOpeningFences(text, true) == b + "\n" + Fence
    ensures Clean(text) == b
  {
    ClosingDropsFinalFence(b);
    assert StartsWith(TaggedFence, Fence);
    MarkerPassIdentity(b, TaggedFence);
    MarkerPassIdentity(b, Fence);
    StripOfTrimmed(b);
  }

  /**
   * A reply wrapped as ```` ```markdown ```` and a line break, the text, a line break and
   * ```` ``` ```` comes out as the text, when the text has no fence and no white space at its ends.
   */
  lemma CleanUnwrapsFencedBlock(b: string)
    requires b != [] && !IsSpace(b[0]) && !IsSpace(b[|b| - 1])
    requires !Contains(b, Fence)
    ensures Clean(TaggedFence + "\n" + b + "\n" + Fence) == b
  {
    OpeningPassOfBlock(b);
    CleanAfterOpening(TaggedFence + "\n" + b + "\n" + Fence, b);
  }
}
