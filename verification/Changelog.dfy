/**
 The changelog conflict resolver (scripts/_resolve-changelog-conflict.py). Texts are as read in
 Python's text mode, where no carriage return is left.
 */
module Changelog {
  import opened Common

  const UNRELEASED := "## [Unreleased]"
  const ADDED := "### Added"

  // ---------------------------------------------------------------- lines

  /** The characters str.splitlines breaks at. */
  predicate IsBreak(c: char) {
    var n := c as int;
    10 <= n <= 12 || 0x1C <= n <= 0x1E || n == 0x85 || n == 0x2028 || n == 0x2029
  }

  /** The breaks by code point; a carriage return does not occur in a text read in text mode. */
  lemma BreaksAre(c: char)
    ensures IsBreak(c) <==> c as int in [0x0A, 0x0B, 0x0C, 0x1C, 0x1D, 0x1E, 0x85, 0x2028, 0x2029]
    ensures IsBreak(c) ==> IsSpace(c)
  {
  }

  /** str.isspace. */
  predicate IsSpace(c: char) {
    var n := c as int;
    || 9 <= n <= 13 || 0x1C <= n <= 0x20 || n == 0x85 || n == 0xA0 || n == 0x1680 || 0x2000 <= n <= 0x200A
    || n == 0x2028 || n == 0x2029 || n == 0x202F || n == 0x205F || n == 0x3000
  }

  predicate BreakFree(s: string) { forall i | 0 <= i < |s| :: !IsBreak(s[i]) }

  /** A line with or without its break. */
  predicate IsLine(s: string) { s != "" && BreakFree(s[..|s| - 1]) }

  predicate Ended(s: string) { IsLine(s) && IsBreak(s[|s| - 1]) }

  function LineLength(text: string): (n: nat)
    requires text != ""
    ensures 0 < n <= |text| && IsLine(text[..n]) && (n < |text| ==> Ended(text[..n]))
  {
    if IsBreak(text[0]) || |text| == 1 then 1
    else
      var n := 1 + LineLength(text[1..]);
      assert text[..n][..n - 1] == [text[0]] + text[1..][..n - 1][..n - 2];
      n
  }

  /** str.splitlines(keepends=True). */
  function Lines(text: string): (lines: seq<string>)
    ensures AreLines(lines)
  {
    if text == "" then [] else [text[..LineLength(text)]] + Lines(text[LineLength(text)..])
  }

  /** Lines of one text: only the last may lack its break. */
  predicate AreLines(lines: seq<string>) {
    && (forall i | 0 <= i < |lines| :: IsLine(lines[i]))
    && (forall i | 0 <= i < |lines| - 1 :: Ended(lines[i]))
  }

  /** The line without its break, as str.splitlines() yields it. */
  function Content(line: string): string {
    if line != "" && IsBreak(line[|line| - 1]) then line[..|line| - 1] else line
  }

  predicate Blank(line: string) { forall i | 0 <= i < |line| :: IsSpace(line[i]) }

  predicate StartsWith(s: string, prefix: string) { |prefix| <= |s| && s[..|prefix|] == prefix }

  predicate EndsWith(s: string, suffix: string) { |suffix| <= |s| && s[|s| - |suffix|..] == suffix }

  function Concat(pieces: seq<string>): string { if pieces == [] then "" else pieces[0] + Concat(pieces[1..]) }

  lemma {:induction false} LinesOfConcat(lines: seq<string>)
    requires AreLines(lines)
    ensures Lines(Concat(lines)) == lines
  {
    if lines != [] {
      var first, rest := lines[0], Concat(lines[1..]);
      LinesOfConcat(lines[1..]);
      FirstLine(first, rest);
      if |lines| == 1 { assert rest == ""; }
      assert (first + rest)[..|first|] == first && (first + rest)[|first|..] == rest;
    }
  }

  lemma {:induction false} FirstLine(first: string, rest: string)
    requires IsLine(first) && (Ended(first) || rest == "")
    ensures LineLength(first + rest) == |first|
  {
    var text := first + rest;
    assert text[0] == first[0];
    if |first| > 1 {
      assert first[..|first| - 1][0] == first[0];
      assert first[1..][..|first| - 2] == first[..|first| - 1][1..];
      FirstLine(first[1..], rest);
      assert text[1..] == first[1..] + rest;
    }
  }

  // ---------------------------------------------------------------- merging

  /** Order-preserving union. */
  function Merge(ours: seq<string>, theirs: seq<string>): seq<string>
    decreases |theirs|
  {
    if theirs == [] then ours
    else Merge(if theirs[0] in ours then ours else ours + [theirs[0]], theirs[1..])
  }

  method MergeAdded(ours: seq<string>, theirs: seq<string>) returns (merged: seq<string>)
    ensures merged == Merge(ours, theirs)
  {
    var seen := set b | b in ours;
    merged := ours;
    for i := 0 to |theirs|
      invariant forall b :: b in seen <==> b in merged
      invariant Merge(merged, theirs[i..]) == Merge(ours, theirs)
    {
      var t := theirs[i];
      assert theirs[i..][1..] == theirs[i + 1..];
      if t !in seen {
        merged := merged + [t];
        seen := seen + {t};
      }
    }
  }

  /** Ours stays in front, in order, duplicates and all; the elements are exactly the union. */
  lemma {:induction false} MergeIsUnion(ours: seq<string>, theirs: seq<string>)
    ensures ours <= Merge(ours, theirs)
    ensures forall b :: b in Merge(ours, theirs) <==> b in ours || b in theirs
    decreases |theirs|
  {
    if theirs != [] {
      MergeIsUnion(if theirs[0] in ours then ours else ours + [theirs[0]], theirs[1..]);
    }
  }

  lemma {:induction false} MergeAppend(ours: seq<string>, theirs: seq<string>, t: string)
    ensures Merge(ours, theirs + [t]) ==
              if t in Merge(ours, theirs) then Merge(ours, theirs) else Merge(ours, theirs) + [t]
    decreases |theirs|
  {
    if theirs == [] {
      assert ([] + [t])[1..] == [];
    } else {
      assert (theirs + [t])[1..] == theirs[1..] + [t];
      MergeAppend(if theirs[0] in ours then ours else ours + [theirs[0]], theirs[1..], t);
    }
  }

  lemma {:induction false} MergeIsAssociative(a: seq<string>, b: seq<string>, c: seq<string>)
    ensures Merge(a, Merge(b, c)) == Merge(Merge(a, b), c)
    decreases |c|
  {
    if c != [] {
      var n := |c| - 1;
      var t := c[n];
      MergeIsAssociative(a, b, c[..n]);
      assert c == c[..n] + [t];
      var bc := Merge(b, c[..n]);
      MergeAppend(b, c[..n], t);
      MergeAppend(Merge(a, b), c[..n], t);
      MergeAppend(a, bc, t);
      MergeIsUnion(a, bc);
    }
  }

  lemma {:induction false} MergeOfKnown(ours: seq<string>, theirs: seq<string>)
    requires forall t | t in theirs :: t in ours
    ensures Merge(ours, theirs) == ours
    decreases |theirs|
  {
    if theirs != [] { MergeOfKnown(ours, theirs[1..]); }
  }

  /** Merging the same bullets a second time adds nothing. */
  lemma MergeIsIdempotent(ours: seq<string>, theirs: seq<string>)
    ensures Merge(Merge(ours, theirs), theirs) == Merge(ours, theirs)
  {
    MergeIsUnion(ours, theirs);
    MergeOfKnown(Merge(ours, theirs), theirs);
  }

  predicate NewFrom(merged: seq<string>, n: nat) {
    forall i, j | n <= i < |merged| && 0 <= j < i :: merged[i] != merged[j]
  }

  lemma NewFromAppend(merged: seq<string>, n: nat, t: string)
    requires NewFrom(merged, n) && t !in merged
    ensures NewFrom(merged + [t], n)
  {
  }

  /** The bullets added are theirs that ours lacks, each once. */
  lemma {:induction false} MergeAddsEachOnce(ours: seq<string>, theirs: seq<string>)
    ensures NewFrom(Merge(ours, theirs), |ours|)
    decreases |theirs|
  {
    if theirs != [] {
      var n := |theirs| - 1;
      var merged := Merge(ours, theirs[..n]);
      MergeAddsEachOnce(ours, theirs[..n]);
      MergeAppend(ours, theirs[..n], theirs[n]);
      assert theirs == theirs[..n] + [theirs[n]];
      if theirs[n] !in merged { NewFromAppend(merged, |ours|, theirs[n]); }
    }
  }

  // ---------------------------------------------------------------- extracting

  function ExtractFrom(lines: seq<string>, inUnreleased: bool, inAdded: bool): seq<string> {
    if lines == [] then []
    else
      var line := Content(lines[0]);
      if StartsWith(line, UNRELEASED) then ExtractFrom(lines[1..], true, inAdded)
      else if inUnreleased && StartsWith(line, ADDED) then ExtractFrom(lines[1..], inUnreleased, true)
      else if inAdded && (StartsWith(line, "### ") || StartsWith(line, "## ")) then []
      else if inAdded && StartsWith(line, "- ") then [line] + ExtractFrom(lines[1..], inUnreleased, inAdded)
      else ExtractFrom(lines[1..], inUnreleased, inAdded)
  }

  /** The bullets of the first Added block. */
  function Extract(text: string): seq<string> { ExtractFrom(Lines(text), false, false) }

  /** What one iteration of the loop does with line i. */
  lemma ExtractStep(lines: seq<string>, i: nat, bullets: seq<string>, inUnreleased: bool, inAdded: bool)
    requires i < |lines|
    ensures var line, rest := Content(lines[i]), lines[i + 1..];
            bullets + ExtractFrom(lines[i..], inUnreleased, inAdded) ==
              if StartsWith(line, UNRELEASED) then bullets + ExtractFrom(rest, true, inAdded)
              else if inUnreleased && StartsWith(line, ADDED) then bullets + ExtractFrom(rest, inUnreleased, true)
              else if inAdded && (StartsWith(line, "### ") || StartsWith(line, "## ")) then bullets
              else if inAdded && StartsWith(line, "- ") then (bullets + [line]) + ExtractFrom(rest, inUnreleased, inAdded)
              else bullets + ExtractFrom(rest, inUnreleased, inAdded)
  {
    var line, rest := Content(lines[i]), lines[i + 1..];
    assert lines[i..][0] == lines[i] && lines[i..][1..] == rest;
    assert bullets + [] == bullets;
    ConcatAssociates(bullets, [line], ExtractFrom(rest, inUnreleased, inAdded));
  }

  method ExtractAddedBullets(text: string) returns (bullets: seq<string>)
    ensures bullets == Extract(text)
  {
    bullets := [];
    var inUnreleased, inAdded := false, false;
    var lines := Lines(text);
    var i := 0;
    assert lines[0..] == lines;
    while i < |lines|
      invariant 0 <= i <= |lines|
      invariant bullets + ExtractFrom(lines[i..], inUnreleased, inAdded) == Extract(text)
    {
      var line := Content(lines[i]);
      ExtractStep(lines, i, bullets, inUnreleased, inAdded);
      i := i + 1;
      if StartsWith(line, UNRELEASED) {
        inUnreleased := true;
        continue;
      }
      if inUnreleased && StartsWith(line, ADDED) {
        inAdded := true;
        continue;
      }
      if inAdded && (StartsWith(line, "### ") || StartsWith(line, "## ")) {
        break;
      }
      if inAdded && StartsWith(line, "- ") {
        bullets := bullets + [line];
      }
    }
  }

  /** One bullet as a line's content. */
  predicate Bullet(b: string) { StartsWith(b, "- ") && BreakFree(b) }

  predicate AllBullets(bs: seq<string>) { forall i | 0 <= i < |bs| :: Bullet(bs[i]) }

  lemma ContentIsBreakFree(line: string)
    requires IsLine(line)
    ensures BreakFree(Content(line))
  {
    if !IsBreak(line[|line| - 1]) {
      forall i | 0 <= i < |line| ensures !IsBreak(line[i]) { assert i < |line| - 1 ==> line[..|line| - 1][i] == line[i]; }
    }
  }

  lemma {:induction false} ExtractedAreBullets(lines: seq<string>, inUnreleased: bool, inAdded: bool)
    requires forall l | l in lines :: IsLine(l)
    ensures forall b | b in ExtractFrom(lines, inUnreleased, inAdded) :: Bullet(b)
  {
    if lines != [] {
      ContentIsBreakFree(lines[0]);
      ExtractedAreBullets(lines[1..], inUnreleased, inAdded);
      ExtractedAreBullets(lines[1..], true, inAdded);
      ExtractedAreBullets(lines[1..], inUnreleased, true);
    }
  }

  // ---------------------------------------------------------------- rebuilding

  function Bulleted(bullets: seq<string>): (lines: seq<string>)
    ensures |lines| == |bullets| && forall i | 0 <= i < |bullets| :: lines[i] == bullets[i] + "\n"
  {
    seq(|bullets|, i requires 0 <= i < |bullets| => bullets[i] + "\n")
  }

  predicate Heading(line: string) { StartsWith(line, "### ") || StartsWith(line, "## ") }

  /** What is left once the old block has been skipped. */
  function AfterBlock(lines: seq<string>): (rest: seq<string>)
    ensures |rest| <= |lines|
  {
    if lines == [] || Heading(lines[0]) then lines else AfterBlock(lines[1..])
  }

  /** The pieces written for `lines`, outside the [Unreleased] section. */
  function Rebuild(lines: seq<string>, merged: seq<string>): seq<string>
    decreases |lines|, 0
  {
    if lines == [] then []
    else [lines[0]] + if StartsWith(lines[0], UNRELEASED) then Section(lines[1..], merged) else Rebuild(lines[1..], merged)
  }

  /** The same inside the section, before its Added heading. */
  function Section(lines: seq<string>, merged: seq<string>): seq<string>
    decreases |lines|, 0
  {
    if lines == [] then []
    else
      [lines[0]] +
      if StartsWith(lines[0], ADDED) then Block(lines[1..], merged)
      else if StartsWith(lines[0], "## ") then Rebuild(lines[1..], merged)
      else Section(lines[1..], merged)
  }

  /** The blank line kept or supplied below the heading. */
  function Gap(lines: seq<string>): string { if lines != [] && Blank(lines[0]) then lines[0] else "\n" }

  /** The new block, in place of the old one. */
  function Block(lines: seq<string>, merged: seq<string>): seq<string>
    decreases |lines|, 1
  {
    var block := [Gap(lines)] + Bulleted(merged);
    block + Closing(block[|block| - 1]) + Rebuild(AfterBlock(AfterGap(lines)), merged)
  }

  /** The blank line before the next section. */
  function Closing(last: string): seq<string> { if EndsWith(last, "\n\n") then [] else ["\n"] }

  function AfterGap(lines: seq<string>): (rest: seq<string>)
    ensures |rest| <= |lines|
  {
    if lines != [] && Blank(lines[0]) then lines[1..] else lines
  }

  function Rebuilt(text: string, merged: seq<string>): string { Concat(Rebuild(Lines(text), merged)) }

  lemma {:induction false} ConcatAppend(a: seq<string>, b: seq<string>)
    ensures Concat(a + b) == Concat(a) + Concat(b)
  {
    if a == [] {
      assert [] + b == b;
    } else {
      ConcatAppend(a[1..], b);
      assert (a + b)[1..] == a[1..] + b;
      ConcatAssociates(a[0], Concat(a[1..]), Concat(b));
    }
  }

  /** Line i of `lines`, whole. */
  lemma Peel(lines: seq<string>, i: nat)
    requires i < |lines|
    ensures lines[i..] != [] && lines[i..][0] == lines[i] && lines[i..][1..] == lines[i + 1..]
  {
  }

  /** The old block skipped: the index of the next heading, or the end. */
  method SkipBlock(lines: seq<string>, start: nat) returns (i: nat)
    requires start <= |lines|
    ensures start <= i <= |lines| && lines[i..] == AfterBlock(lines[start..])
  {
    i := start;
    while i < |lines|
      invariant start <= i <= |lines| && AfterBlock(lines[i..]) == AfterBlock(lines[start..])
    {
      Peel(lines, i);
      if Heading(lines[i]) {
        break;
      }
      i := i + 1;
    }
  }

  method WriteGap(lines: seq<string>, start: nat, out: seq<string>) returns (i: nat, out': seq<string>)
    requires start <= |lines|
    ensures start <= i <= |lines| && lines[i..] == AfterGap(lines[start..]) && out' == out + [Gap(lines[start..])]
  {
    i, out' := start, out;
    if i < |lines| && Blank(lines[i]) {
      Peel(lines, i);
      out' := out' + [lines[i]];
      i := i + 1;
    } else {
      out' := out' + ["\n"];
    }
  }

  method WriteBullets(out: seq<string>, merged: seq<string>) returns (out': seq<string>)
    ensures out' == out + Bulleted(merged)
  {
    out' := out;
    for k := 0 to |merged|
      invariant out' == out + Bulleted(merged)[..k]
    {
      out' := out' + [merged[k] + "\n"];
    }
  }

  /** The new block written below the Added heading, the old one skipped. */
  method WriteBlock(lines: seq<string>, start: nat, out: seq<string>, merged: seq<string>)
    returns (i: nat, out': seq<string>)
    requires start <= |lines|
    ensures start <= i <= |lines|
    ensures out' + Rebuild(lines[i..], merged) == out + Block(lines[start..], merged)
  {
    ghost var rest := lines[start..];
    i, out' := WriteGap(lines, start, out);
    out' := WriteBullets(out', merged);
    ghost var block := [Gap(rest)] + Bulleted(merged);
    assert out' == out + block && out'[|out'| - 1] == block[|block| - 1];
    i := SkipBlock(lines, i);
    if !EndsWith(out'[|out'| - 1], "\n\n") {
      out' := out' + ["\n"];
    }
    assert out' == out + (block + Closing(block[|block| - 1]));
    ConcatAssociates(out, block + Closing(block[|block| - 1]), Rebuild(lines[i..], merged));
  }

  lemma RebuildStep(lines: seq<string>, i: nat, out: seq<string>, merged: seq<string>)
    requires i < |lines|
    ensures out + Rebuild(lines[i..], merged) == (out + [lines[i]])
              + if StartsWith(lines[i], UNRELEASED) then Section(lines[i + 1..], merged) else Rebuild(lines[i + 1..], merged)
  {
    Peel(lines, i);
    if StartsWith(lines[i], UNRELEASED) {
      ConcatAssociates(out, [lines[i]], Section(lines[i + 1..], merged));
    } else {
      ConcatAssociates(out, [lines[i]], Rebuild(lines[i + 1..], merged));
    }
  }

  lemma SectionStep(lines: seq<string>, i: nat, out: seq<string>, merged: seq<string>)
    requires i < |lines|
    ensures out + Section(lines[i..], merged) == (out + [lines[i]])
              + if StartsWith(lines[i], ADDED) then Block(lines[i + 1..], merged)
                else if StartsWith(lines[i], "## ") then Rebuild(lines[i + 1..], merged)
                else Section(lines[i + 1..], merged)
  {
    Peel(lines, i);
    if StartsWith(lines[i], ADDED) {
      ConcatAssociates(out, [lines[i]], Block(lines[i + 1..], merged));
    } else if StartsWith(lines[i], "## ") {
      ConcatAssociates(out, [lines[i]], Rebuild(lines[i + 1..], merged));
    } else {
      ConcatAssociates(out, [lines[i]], Section(lines[i + 1..], merged));
    }
  }

  /** The lines after the [Unreleased] heading, up to its Added block or its end. */
  method WriteSection(lines: seq<string>, start: nat, out: seq<string>, merged: seq<string>)
    returns (i: nat, out': seq<string>)
    requires start <= |lines|
    ensures start <= i <= |lines|
    ensures out' + Rebuild(lines[i..], merged) == out + Section(lines[start..], merged)
  {
    i, out' := start, out;
    while i < |lines|
      invariant start <= i <= |lines|
      invariant out' + Section(lines[i..], merged) == out + Section(lines[start..], merged)
    {
      var nxt := lines[i];
      SectionStep(lines, i, out', merged);
      out' := out' + [nxt];
      i := i + 1;
      if StartsWith(nxt, ADDED) {
        assert out' + Block(lines[i..], merged) == out + Section(lines[start..], merged);
        i, out' := WriteBlock(lines, i, out', merged);
        return;
      }
      if StartsWith(nxt, "## ") {
        return;
      }
    }
    assert lines[i..] == [];
  }

  method RebuildText(text: string, merged: seq<string>) returns (r: string)
    ensures r == Rebuilt(text, merged)
  {
    var lines := Lines(text);
    var out: seq<string> := [];
    var i := 0;
    assert lines[0..] == lines && [] + Rebuild(lines, merged) == Rebuild(lines, merged);
    while i < |lines|
      invariant 0 <= i <= |lines| && out + Rebuild(lines[i..], merged) == Rebuild(lines, merged)
    {
      var line := lines[i];
      RebuildStep(lines, i, out, merged);
      out := out + [line];
      i := i + 1;
      if StartsWith(line, UNRELEASED) {
        assert out + Section(lines[i..], merged) == Rebuild(lines, merged);
        i, out := WriteSection(lines, i, out, merged);
      }
    }
    assert lines[i..] == [] && out + [] == out;
    r := Concat(out);
  }

  // ---------------------------------------------------------------- one section, one block

  /**
   One [Unreleased] heading, at line u; in its section one Added heading, at line a, whose block
   ends at line e.
   */
  predicate Located(lines: seq<string>, u: int, a: int, e: int) {
    && 0 <= u < a < e <= |lines|
    && (forall i | 0 <= i < |lines| :: StartsWith(lines[i], UNRELEASED) <==> i == u)
    && (forall i | u < i < a :: !StartsWith(lines[i], ADDED) && !StartsWith(lines[i], "## "))
    && StartsWith(lines[a], ADDED)
    && (forall i | a < i < e :: !Heading(lines[i]))
    && (e < |lines| ==> Heading(lines[e]) && !StartsWith(lines[e], ADDED))
  }

  lemma {:induction false} RebuildPlain(lines: seq<string>, merged: seq<string>)
    requires forall i | 0 <= i < |lines| :: !StartsWith(lines[i], UNRELEASED)
    ensures Rebuild(lines, merged) == lines
  {
    if lines != [] { RebuildPlain(lines[1..], merged); }
  }

  lemma {:induction false} AfterBlockIs(lines: seq<string>, k: nat)
    requires k <= |lines| && (forall i | 0 <= i < k :: !Heading(lines[i])) && (k < |lines| ==> Heading(lines[k]))
    ensures AfterBlock(lines) == lines[k..]
  {
    if k > 0 {
      AfterBlockIs(lines[1..], k - 1);
      assert lines[1..][k - 1..] == lines[k..];
    }
  }

  /** The old block ends at the first line that starts with two or three hashes and a space, or at the end. */
  lemma BlockEndsAtHashes(lines: seq<string>, k: nat)
    requires k <= |lines| && forall i | 0 <= i < k :: !StartsWith(lines[i], "### ") && !StartsWith(lines[i], "## ")
    requires k < |lines| ==> StartsWith(lines[k], "### ") || StartsWith(lines[k], "## ")
    ensures AfterBlock(lines) == lines[k..]
  {
    AfterBlockIs(lines, k);
  }

  /** Inside the section the search for the Added heading stops at the next release. */
  lemma {:induction false} NoAddedBeforeRelease(x: seq<string>, release: string, y: seq<string>, merged: seq<string>)
    requires forall i | 0 <= i < |x| :: !StartsWith(x[i], "### Added") && !StartsWith(x[i], "## ")
    requires StartsWith(release, "## ") && !StartsWith(release, "### Added")
    requires forall i | 0 <= i < |y| :: !StartsWith(y[i], "## [Unreleased]")
    ensures Section(x + [release] + y, merged) == x + [release] + y
  {
    var all := x + [release] + y;
    RebuildPlain(y, merged);
    if x == [] {
      assert all[0] == release && all[1..] == y;
    } else {
      assert all[0] == x[0] && all[1..] == x[1..] + [release] + y;
      NoAddedBeforeRelease(x[1..], release, y, merged);
    }
  }

  lemma Front(x: seq<string>, heading: string, y: seq<string>)
    requires x != []
    ensures (x + [heading] + y)[0] == x[0] && (x + [heading] + y)[1..] == x[1..] + [heading] + y
  {
  }

  lemma RebuildOther(lines: seq<string>, merged: seq<string>)
    requires lines != [] && !StartsWith(lines[0], UNRELEASED)
    ensures Rebuild(lines, merged) == [lines[0]] + Rebuild(lines[1..], merged)
  {
  }

  lemma {:induction false} RebuildHead(x: seq<string>, heading: string, y: seq<string>, merged: seq<string>)
    requires (forall l | l in x :: !StartsWith(l, UNRELEASED)) && StartsWith(heading, UNRELEASED)
    ensures Rebuild(x + [heading] + y, merged) == x + [heading] + Section(y, merged)
  {
    var all := x + [heading] + y;
    if x == [] {
      assert all[0] == heading && all[1..] == y;
    } else {
      RebuildHead(x[1..], heading, y, merged);
      Front(x, heading, y);
      Front(x, heading, Section(y, merged));
      assert x[0] in x;
      RebuildOther(all, merged);
    }
  }

  lemma {:induction false} SectionHead(x: seq<string>, heading: string, y: seq<string>, merged: seq<string>)
    requires (forall l | l in x :: !StartsWith(l, ADDED) && !StartsWith(l, "## ")) && StartsWith(heading, ADDED)
    ensures Section(x + [heading] + y, merged) == x + [heading] + Block(y, merged)
  {
    var all := x + [heading] + y;
    if x == [] {
      assert all[0] == heading && all[1..] == y;
    } else {
      SectionHead(x[1..], heading, y, merged);
      Front(x, heading, y);
      Front(x, heading, Block(y, merged));
      assert x[0] in x;
      SectionOther(all, merged);
    }
  }

  lemma SectionOther(lines: seq<string>, merged: seq<string>)
    requires lines != [] && !StartsWith(lines[0], ADDED) && !StartsWith(lines[0], "## ")
    ensures Section(lines, merged) == [lines[0]] + Section(lines[1..], merged)
  {
  }

  lemma NoDoubleBreak(line: string)
    requires IsLine(line)
    ensures Closing(line) == ["\n"]
  {
    var n := |line|;
    assert n >= 2 ==> line[..n - 1][n - 2] == line[n - 2] == line[n - 2..][0];
  }

  /** A text starts with the first character of each of its prefixes. */
  lemma FirstChar(s: string, prefix: string)
    requires prefix != "" && StartsWith(s, prefix)
    ensures s != "" && s[0] == prefix[0]
  {
    assert s[..|prefix|][0] == s[0];
  }

  lemma NoPrefix(s: string, prefix: string)
    requires prefix != "" && (s == "" || s[0] != prefix[0])
    ensures !StartsWith(s, prefix)
  {
    if StartsWith(s, prefix) { FirstChar(s, prefix); }
  }

  /** A line that does not start with a hash is no heading. */
  lemma NoHash(line: string)
    requires line == "" || line[0] != '#'
    ensures !Heading(line) && !StartsWith(line, UNRELEASED) && !StartsWith(line, ADDED)
  {
    NoPrefix(line, "## ");
    NoPrefix(line, "### ");
    NoPrefix(line, UNRELEASED);
    NoPrefix(line, ADDED);
  }

  lemma BulletLine(b: string)
    requires Bullet(b)
    ensures Ended(b + "\n") && Content(b + "\n") == b && StartsWith(b + "\n", "- ")
  {
    var line := b + "\n";
    assert line[..|line| - 1] == b;
    assert line[..2] == b[..2];
  }

  lemma BlankIsNoHeading(line: string)
    requires Blank(line)
    ensures !Heading(line) && !StartsWith(line, "- ") && !StartsWith(line, UNRELEASED) && !StartsWith(line, ADDED)
  {
    NoHash(line);
    NoPrefix(line, "- ");
  }

  lemma RebuildToSection(lines: seq<string>, u: int, a: int, e: int, merged: seq<string>)
    requires Located(lines, u, a, e)
    ensures Rebuild(lines, merged) == lines[..u] + [lines[u]] + Section(lines[u + 1..], merged)
  {
    CutAt(lines, 0, u);
    assert lines[0..] == lines && lines[0..u] == lines[..u];
    BetweenHeadings(lines, u, a, e);
    RebuildHead(lines[..u], lines[u], lines[u + 1..], merged);
  }

  lemma BetweenHeadings(lines: seq<string>, u: int, a: int, e: int)
    requires Located(lines, u, a, e)
    ensures forall l | l in lines[u + 1..a] :: !StartsWith(l, ADDED) && !StartsWith(l, "## ") && !StartsWith(l, UNRELEASED)
    ensures forall l | l in lines[..u] :: !StartsWith(l, UNRELEASED)
  {
  }

  lemma SectionToBlock(lines: seq<string>, u: int, a: int, e: int, merged: seq<string>)
    requires Located(lines, u, a, e)
    ensures Section(lines[u + 1..], merged) == lines[u + 1..a] + [lines[a]] + Block(lines[a + 1..], merged)
  {
    CutAt(lines, u + 1, a);
    BetweenHeadings(lines, u, a, e);
    SectionHead(lines[u + 1..a], lines[a], lines[a + 1..], merged);
    SameSection(lines[u + 1..], lines[u + 1..a] + [lines[a]] + lines[a + 1..], merged);
  }

  lemma SameSection(a: seq<string>, b: seq<string>, merged: seq<string>)
    requires a == b
    ensures Section(a, merged) == Section(b, merged)
  {
  }

  lemma RebuildToBlock(lines: seq<string>, u: int, a: int, e: int, merged: seq<string>)
    requires Located(lines, u, a, e)
    ensures Rebuild(lines, merged) == lines[..a + 1] + Block(lines[a + 1..], merged)
  {
    RebuildToSection(lines, u, a, e, merged);
    SectionToBlock(lines, u, a, e, merged);
    Flatten(lines[..u], lines[u], lines[u + 1..a], lines[a], Block(lines[a + 1..], merged));
    Reassemble(lines, u, a);
  }

  lemma Reassemble(lines: seq<string>, u: nat, a: nat)
    requires u < a < |lines|
    ensures lines[..a + 1] == lines[..u] + [lines[u]] + lines[u + 1..a] + [lines[a]]
  {
  }

  /** The gap, the bullets and the closing blank line. */
  function NewBlock(gap: string, merged: seq<string>): seq<string> { [gap] + Bulleted(merged) + ["\n"] }

  /** What rebuilding writes: everything outside the block as it was, and the new block. */
  lemma RebuildReplacesBlock(lines: seq<string>, u: int, a: int, e: int, merged: seq<string>)
    requires AreLines(lines) && Located(lines, u, a, e) && AllBullets(merged)
    ensures Rebuild(lines, merged) ==
              lines[..a + 1] + NewBlock(Gap(lines[a + 1..]), merged) + lines[e..]
  {
    RebuildToBlock(lines, u, a, e, merged);
    BlockIs(lines, u, a, e, merged);
    ConcatAssociates(lines[..a + 1], NewBlock(Gap(lines[a + 1..]), merged), lines[e..]);
  }

  lemma CutAt(lines: seq<string>, i: nat, k: nat)
    requires i <= k < |lines|
    ensures lines[i..] == lines[i..k] + [lines[k]] + lines[k + 1..]
  {
  }

  lemma Flatten(x: seq<string>, h: string, y: seq<string>, d: string, block: seq<string>)
    ensures x + [h] + (y + [d] + block) == x + [h] + y + [d] + block
  {
  }

  lemma AfterOldBlock(lines: seq<string>, u: int, a: int, e: int)
    requires Located(lines, u, a, e)
    ensures AfterBlock(AfterGap(lines[a + 1..])) == lines[e..]
  {
    var rest := lines[a + 1..];
    OldBlockShape(lines, u, a, e);
    AfterBlockIs(rest, e - a - 1);
    if rest != [] && Blank(rest[0]) { BlankIsNoHeading(rest[0]); }
  }

  lemma OldBlockShape(lines: seq<string>, u: int, a: int, e: int)
    requires Located(lines, u, a, e)
    ensures var rest, k := lines[a + 1..], e - a - 1;
            (forall i | 0 <= i < k :: !Heading(rest[i])) && (k < |rest| ==> Heading(rest[k])) && rest[k..] == lines[e..]
  {
  }

  lemma NewBlockCloses(gap: string, merged: seq<string>)
    requires IsLine(gap) && AllBullets(merged)
    ensures var block := [gap] + Bulleted(merged); Closing(block[|block| - 1]) == ["\n"]
  {
    if merged == [] {
      NoDoubleBreak(gap);
    } else {
      BulletLine(merged[|merged| - 1]);
      NoDoubleBreak(merged[|merged| - 1] + "\n");
    }
  }

  lemma BlockIs(lines: seq<string>, u: int, a: int, e: int, merged: seq<string>)
    requires AreLines(lines) && Located(lines, u, a, e) && AllBullets(merged)
    ensures Block(lines[a + 1..], merged) == [Gap(lines[a + 1..])] + Bulleted(merged) + ["\n"] + lines[e..]
  {
    AfterOldBlock(lines, u, a, e);
    NewBlockCloses(Gap(lines[a + 1..]), merged);
    TailIsPlain(lines, u, a, e, merged);
  }

  lemma TailIsPlain(lines: seq<string>, u: int, a: int, e: int, merged: seq<string>)
    requires Located(lines, u, a, e)
    ensures Rebuild(lines[e..], merged) == lines[e..]
  {
    var tail := lines[e..];
    forall i | 0 <= i < |tail| ensures !StartsWith(tail[i], UNRELEASED) { assert tail[i] == lines[e + i]; }
    RebuildPlain(tail, merged);
  }

  lemma PrefixOfContent(line: string, prefix: string)
    requires BreakFree(prefix)
    ensures StartsWith(Content(line), prefix) <==> StartsWith(line, prefix)
  {
    if |prefix| < |line| {
      assert Content(line)[..|prefix|] == line[..|prefix|];
    }
  }

  lemma {:induction false} ExtractHead(x: seq<string>, heading: string, y: seq<string>)
    requires (forall l | l in x :: !StartsWith(l, UNRELEASED)) && StartsWith(heading, UNRELEASED)
    ensures ExtractFrom(x + [heading] + y, false, false) == ExtractFrom(y, true, false)
  {
    var all := x + [heading] + y;
    PrefixOfContent(all[0], UNRELEASED);
    if x == [] {
      assert all[0] == heading && all[1..] == y;
    } else {
      ExtractHead(x[1..], heading, y);
      assert all[0] == x[0] && all[1..] == x[1..] + [heading] + y;
    }
  }

  lemma {:induction false} ExtractSection(x: seq<string>, heading: string, y: seq<string>)
    requires forall l | l in x :: !StartsWith(l, ADDED) && !StartsWith(l, UNRELEASED)
    requires StartsWith(heading, ADDED) && !StartsWith(heading, UNRELEASED)
    ensures ExtractFrom(x + [heading] + y, true, false) == ExtractFrom(y, true, true)
  {
    var all := x + [heading] + y;
    PrefixOfContent(all[0], ADDED);
    PrefixOfContent(all[0], UNRELEASED);
    if x == [] {
      assert all[0] == heading && all[1..] == y;
    } else {
      ExtractSection(x[1..], heading, y);
      assert all[0] == x[0] && all[1..] == x[1..] + [heading] + y;
    }
  }

  lemma BulletIsNoHeading(b: string)
    requires Bullet(b)
    ensures !Heading(b) && !StartsWith(b, UNRELEASED) && !StartsWith(b, ADDED)
  {
    FirstChar(b, "- ");
    NoHash(b);
  }

  lemma ExtractBullet(b: string, y: seq<string>)
    requires Bullet(b)
    ensures ExtractFrom([b + "\n"] + y, true, true) == [b] + ExtractFrom(y, true, true)
  {
    BulletLine(b);
    BulletIsNoHeading(b);
    var all := [b + "\n"] + y;
    assert all[0] == b + "\n" && all[1..] == y;
  }

  lemma BulletedFront(bullets: seq<string>, y: seq<string>)
    requires bullets != []
    ensures Bulleted(bullets) + y == [bullets[0] + "\n"] + (Bulleted(bullets[1..]) + y)
  {
  }

  lemma Prepend(all: seq<string>, bullets: seq<string>, rest: seq<string>, more: seq<string>)
    requires bullets != [] && all == [bullets[0]] + rest && rest == bullets[1..] + more
    ensures all == bullets + more
  {
  }

  lemma {:induction false} ExtractBullets(bullets: seq<string>, y: seq<string>)
    requires AllBullets(bullets)
    ensures ExtractFrom(Bulleted(bullets) + y, true, true) == bullets + ExtractFrom(y, true, true)
  {
    var more := ExtractFrom(y, true, true);
    if bullets == [] {
      assert Bulleted(bullets) + y == y && bullets + more == more;
    } else {
      var rest := Bulleted(bullets[1..]) + y;
      ExtractBullets(bullets[1..], y);
      ExtractBullet(bullets[0], rest);
      BulletedFront(bullets, y);
      Prepend(ExtractFrom(Bulleted(bullets) + y, true, true), bullets, ExtractFrom(rest, true, true), more);
    }
  }

  lemma ExtractBlank(line: string, y: seq<string>)
    requires Blank(line)
    ensures ExtractFrom([line] + y, true, true) == ExtractFrom(y, true, true)
  {
    var all := [line] + y;
    assert Blank(Content(line));
    BlankIsNoHeading(Content(line));
    assert all[0] == line && all[1..] == y;
  }

  lemma ExtractEnd(y: seq<string>)
    requires y != [] ==> Heading(y[0]) && !StartsWith(y[0], ADDED) && !StartsWith(y[0], UNRELEASED)
    ensures ExtractFrom(y, true, true) == []
  {
    if y != [] {
      PrefixOfContent(y[0], ADDED);
      PrefixOfContent(y[0], UNRELEASED);
      PrefixOfContent(y[0], "### ");
      PrefixOfContent(y[0], "## ");
    }
  }

  // ---------------------------------------------------------------- extract after rebuild

  /** The text stops in the middle of a blank line right below the Added heading. */
  predicate EndsInOpenBlank(lines: seq<string>, a: int)
    requires 0 <= a < |lines|
  {
    a + 2 == |lines| && Blank(lines[a + 1]) && !Ended(lines[a + 1])
  }

  lemma CharAt(s: string, prefix: string, k: nat)
    requires k < |prefix| && StartsWith(s, prefix)
    ensures s[k] == prefix[k]
  {
    assert s[..|prefix|][k] == s[k];
  }

  lemma NoPrefixAt(s: string, prefix: string, k: nat)
    requires k < |prefix| && k < |s| && s[k] != prefix[k]
    ensures !StartsWith(s, prefix)
  {
    if StartsWith(s, prefix) { CharAt(s, prefix, k); }
  }

  lemma AddedIsNotUnreleased(line: string)
    requires StartsWith(line, ADDED)
    ensures !StartsWith(line, UNRELEASED)
  {
    CharAt(line, ADDED, 2);
    NoPrefixAt(line, UNRELEASED, 2);
  }

  lemma ExtractBelowHeading(lines: seq<string>, u: int, a: int, e: int, heading: string, y: seq<string>)
    requires Located(lines, u, a, e) && StartsWith(heading, ADDED)
    ensures ExtractFrom(lines[..a] + [heading] + y, false, false) == ExtractFrom(y, true, true)
  {
    AddedIsNotUnreleased(heading);
    var x, between := lines[..u], lines[u + 1..a];
    BetweenHeadings(lines, u, a, e);
    ExtractSection(between, heading, y);
    ExtractHead(x, lines[u], between + [heading] + y);
    assert lines[..a] + [heading] + y == x + [lines[u]] + (between + [heading] + y);
  }

  predicate BlockEnd(tail: seq<string>) {
    tail != [] ==> Heading(tail[0]) && !StartsWith(tail[0], ADDED) && !StartsWith(tail[0], UNRELEASED)
  }

  lemma ExtractNewBlock(merged: seq<string>, tail: seq<string>)
    requires AllBullets(merged) && BlockEnd(tail)
    ensures ExtractFrom(Bulleted(merged) + (["\n"] + tail), true, true) == merged
  {
    ExtractBullets(merged, ["\n"] + tail);
    ExtractBlank("\n", tail);
    ExtractEnd(tail);
    assert merged + [] == merged;
  }

  lemma LocatedEnd(lines: seq<string>, u: int, a: int, e: int)
    requires Located(lines, u, a, e)
    ensures BlockEnd(lines[e..])
  {
  }

  lemma NewBlockEnded(gap: string, merged: seq<string>, i: nat)
    requires Ended(gap) && AllBullets(merged) && i < |merged| + 2
    ensures Ended(NewBlock(gap, merged)[i])
  {
    if 0 < i <= |merged| {
      BulletLine(merged[i - 1]);
      assert NewBlock(gap, merged)[i] == Bulleted(merged)[i - 1];
    }
  }

  predicate AllEnded(lines: seq<string>) { forall i | 0 <= i < |lines| :: Ended(lines[i]) }

  lemma NewBlockLines(gap: string, merged: seq<string>)
    requires Ended(gap) && AllBullets(merged)
    ensures AllEnded(NewBlock(gap, merged))
  {
    forall i | 0 <= i < |merged| + 2 ensures Ended(NewBlock(gap, merged)[i]) { NewBlockEnded(gap, merged, i); }
  }

  lemma JoinLines(x: seq<string>, block: seq<string>, z: seq<string>)
    requires AllEnded(x) && AllEnded(block) && AreLines(z)
    ensures AreLines(x + block + z)
  {
  }

  lemma NewLinesAreLines(lines: seq<string>, a: nat, e: nat, gap: string, merged: seq<string>)
    requires AreLines(lines) && a < e <= |lines| && Ended(lines[a]) && Ended(gap)
    requires AllBullets(merged)
    ensures AreLines(lines[..a + 1] + NewBlock(gap, merged) + lines[e..])
  {
    NewBlockLines(gap, merged);
    JoinLines(lines[..a + 1], NewBlock(gap, merged), lines[e..]);
  }

  /** With the heading and the gap whole lines, the rebuilt text has the new lines as they were written. */
  lemma RebuiltLines(text: string, u: int, a: int, e: int, merged: seq<string>)
    requires Located(Lines(text), u, a, e) && AllBullets(merged)
    requires Ended(Lines(text)[a]) && Ended(Gap(Lines(text)[a + 1..]))
    ensures var lines := Lines(text);
            Lines(Rebuilt(text, merged)) == lines[..a + 1] + NewBlock(Gap(lines[a + 1..]), merged) + lines[e..]
  {
    var lines := Lines(text);
    RebuildReplacesBlock(lines, u, a, e, merged);
    NewLinesAreLines(lines, a, e, Gap(lines[a + 1..]), merged);
    LinesOfConcat(Rebuild(lines, merged));
  }

  lemma Regroup(lines: seq<string>, a: nat, gap: string, merged: seq<string>, tail: seq<string>)
    requires a < |lines|
    ensures lines[..a + 1] + NewBlock(gap, merged) + tail ==
              lines[..a] + [lines[a]] + ([gap] + (Bulleted(merged) + (["\n"] + tail)))
  {
  }

  lemma ExtractWhole(text: string, u: int, a: int, e: int, merged: seq<string>)
    requires Located(Lines(text), u, a, e) && AllBullets(merged)
    requires Ended(Lines(text)[a]) && Ended(Gap(Lines(text)[a + 1..]))
    ensures Extract(Rebuilt(text, merged)) == merged
  {
    var lines := Lines(text);
    RebuiltLines(text, u, a, e, merged);
    ExtractFromNew(lines, u, a, e, lines[a], Gap(lines[a + 1..]), merged);
    Regroup(lines, a, Gap(lines[a + 1..]), merged, lines[e..]);
  }

  lemma ExtractFromNew(lines: seq<string>, u: int, a: int, e: int, heading: string, gap: string, merged: seq<string>)
    requires Located(lines, u, a, e) && AllBullets(merged)
    requires StartsWith(heading, ADDED) && Blank(gap)
    ensures ExtractFrom(lines[..a] + [heading] + ([gap] + (Bulleted(merged) + (["\n"] + lines[e..]))), false, false) == merged
  {
    var y := Bulleted(merged) + (["\n"] + lines[e..]);
    ExtractBelowHeading(lines, u, a, e, heading, [gap] + y);
    ExtractBlank(gap, y);
    LocatedEnd(lines, u, a, e);
    ExtractNewBlock(merged, lines[e..]);
  }

  lemma ConcatOne(p: string)
    ensures Concat([p]) == p
  {
    assert [p][1..] == [];
  }

  lemma ConcatFuse(x: seq<string>, p: string, q: string, y: seq<string>)
    ensures Concat(x + [p] + ([q] + y)) == Concat(x + [p + q] + y)
  {
    ConcatAppend(x + [p], [q] + y);
    ConcatAppend(x, [p]);
    ConcatAppend([q], y);
    ConcatAppend(x + [p + q], y);
    ConcatAppend(x, [p + q]);
    ConcatOne(p);
    ConcatOne(q);
    ConcatOne(p + q);
    ConcatAssociates(Concat(x), p, q);
    ConcatAssociates(Concat(x) + p, q, Concat(y));
  }

  lemma OpenLine(line: string)
    requires IsLine(line) && !Ended(line)
    ensures BreakFree(line) && Ended(line + "\n")
  {
    ContentIsBreakFree(line);
    assert (line + "\n")[..|line|] == line;
  }

  /** The lines when the last one, kept open, is completed by the first written after it. */
  lemma FusedLines(x: seq<string>, open: string, first: string, y: seq<string>)
    requires AllEnded(x) && Ended(open + first) && AllEnded(y)
    ensures Lines(Concat(x + [open] + ([first] + y))) == x + [open + first] + y
  {
    ConcatFuse(x, open, first, y);
    JoinLines(x, [open + first], y);
    LinesOfConcat(x + [open + first] + y);
  }

  lemma BulletLinesEnded(merged: seq<string>)
    requires AllBullets(merged)
    ensures AllEnded(Bulleted(merged) + ["\n"])
  {
    NewBlockLines("\n", merged);
    assert NewBlock("\n", merged)[1..] == Bulleted(merged) + ["\n"];
  }

  lemma OpenHeadingLines(lines: seq<string>, u: int, a: int, e: int, merged: seq<string>)
    requires AreLines(lines) && Located(lines, u, a, e) && !Ended(lines[a])
    requires AllBullets(merged)
    ensures Lines(Concat(Rebuild(lines, merged))) == lines[..a] + [lines[a] + "\n"] + (Bulleted(merged) + ["\n"])
  {
    assert a == |lines| - 1 && lines[e..] == [] && lines[a + 1..] == [];
    RebuildReplacesBlock(lines, u, a, e, merged);
    Regroup(lines, a, "\n", merged, []);
    assert Bulleted(merged) + (["\n"] + []) == Bulleted(merged) + ["\n"];
    OpenLine(lines[a]);
    BulletLinesEnded(merged);
    FusedLines(lines[..a], lines[a], "\n", Bulleted(merged) + ["\n"]);
  }

  /** The heading is the last line and lacks its break: the blank line supplied completes it. */
  lemma ExtractOpenHeading(text: string, u: int, a: int, e: int, merged: seq<string>)
    requires Located(Lines(text), u, a, e) && AllBullets(merged)
    requires !Ended(Lines(text)[a])
    ensures Extract(Rebuilt(text, merged)) == merged
  {
    var lines := Lines(text);
    var heading := lines[a] + "\n";
    OpenHeadingLines(lines, u, a, e, merged);
    assert heading[..|ADDED|] == lines[a][..|ADDED|];
    ExtractBelowHeading(lines, u, a, e, heading, Bulleted(merged) + ["\n"]);
    ExtractNewBlock(merged, []);
    assert Bulleted(merged) + (["\n"] + []) == Bulleted(merged) + ["\n"];
  }

  lemma ExtractOther(line: string, y: seq<string>)
    requires |line| > 1 && IsSpace(line[0])
    ensures ExtractFrom([line] + y, true, true) == ExtractFrom(y, true, true)
  {
    var all := [line] + y;
    assert Content(line)[0] == line[0];
    NoHash(Content(line));
    NoPrefix(Content(line), "- ");
    assert all[0] == line && all[1..] == y;
  }

  lemma GluedNothing(lines: seq<string>, u: int, a: int, e: int, blank: string)
    requires Located(lines, u, a, e) && AllEnded(lines[..a + 1])
    requires blank != "" && BreakFree(blank) && IsSpace(blank[0]) && Ended(blank + "\n")
    ensures ExtractFrom(Lines(Concat(lines[..a + 1] + NewBlock(blank, []) + [])), false, false) == []
  {
    var whole := blank + "\n";
    assert lines[..a + 1] + NewBlock(blank, []) + [] == lines[..a + 1] + [blank] + (["\n"] + []);
    FusedLines(lines[..a + 1], blank, "\n", []);
    assert lines[..a + 1] + [whole] + [] == lines[..a] + [lines[a]] + ([whole] + []);
    ExtractBelowHeading(lines, u, a, e, lines[a], [whole] + []);
    ExtractOther(whole, []);
  }

  /** The text stops inside a blank line below the heading: the first bullet is glued to it and lost. */
  lemma ExtractGlued(text: string, u: int, a: int, e: int, merged: seq<string>)
    requires Located(Lines(text), u, a, e) && AllBullets(merged)
    requires EndsInOpenBlank(Lines(text), a)
    ensures Extract(Rebuilt(text, merged)) == if merged == [] then [] else merged[1..]
  {
    var lines := Lines(text);
    var blank := lines[a + 1];
    OpenBlankIsLast(lines, u, a, e);
    RebuildReplacesBlock(lines, u, a, e, merged);
    assert Rebuild(lines, merged) == lines[..a + 1] + NewBlock(blank, merged) + [];
    OpenLine(blank);
    if merged == [] {
      GluedNothing(lines, u, a, e, blank);
    } else {
      GluedBullet(lines, u, a, e, blank, merged);
    }
  }

  lemma OpenBlankIsLast(lines: seq<string>, u: int, a: int, e: int)
    requires AreLines(lines) && Located(lines, u, a, e) && EndsInOpenBlank(lines, a)
    ensures lines[e..] == [] && Gap(lines[a + 1..]) == lines[a + 1] && AllEnded(lines[..a + 1])
  {
    BlankIsNoHeading(lines[a + 1]);
  }

  lemma GluedLines(x: seq<string>, blank: string, merged: seq<string>)
    requires AllEnded(x) && BreakFree(blank) && merged != [] && AllBullets(merged)
    ensures Lines(Concat(x + NewBlock(blank, merged) + [])) ==
              x + [blank + (merged[0] + "\n")] + (Bulleted(merged[1..]) + ["\n"])
  {
    var first, y := merged[0] + "\n", Bulleted(merged[1..]) + ["\n"];
    NewBlockFront(x, blank, merged);
    BulletLine(merged[0]);
    GluedIsLine(blank, first);
    BulletLinesEnded(merged[1..]);
    FusedLines(x, blank, first, y);
  }

  lemma NewBlockFront(x: seq<string>, gap: string, merged: seq<string>)
    requires merged != []
    ensures x + NewBlock(gap, merged) + [] == x + [gap] + ([merged[0] + "\n"] + (Bulleted(merged[1..]) + ["\n"]))
  {
  }

  lemma GluedBullet(lines: seq<string>, u: int, a: int, e: int, blank: string, merged: seq<string>)
    requires Located(lines, u, a, e) && AllEnded(lines[..a + 1])
    requires blank != "" && BreakFree(blank) && IsSpace(blank[0])
    requires merged != [] && AllBullets(merged)
    ensures ExtractFrom(Lines(Concat(lines[..a + 1] + NewBlock(blank, merged) + [])), false, false) == merged[1..]
  {
    var glued, y := blank + (merged[0] + "\n"), Bulleted(merged[1..]) + ["\n"];
    GluedLines(lines[..a + 1], blank, merged);
    assert lines[..a + 1] + [glued] + y == lines[..a] + [lines[a]] + ([glued] + y);
    ExtractBelowHeading(lines, u, a, e, lines[a], [glued] + y);
    ExtractOther(glued, y);
    ExtractNewBlock(merged[1..], []);
    assert Bulleted(merged[1..]) + (["\n"] + []) == y;
  }

  lemma GluedIsLine(open: string, line: string)
    requires BreakFree(open) && Ended(line)
    ensures Ended(open + line)
  {
    var all := open + line;
    forall i | 0 <= i < |all| - 1 ensures !IsBreak(all[i]) {
      assert i >= |open| ==> all[i] == line[..|line| - 1][i - |open|];
    }
  }

  /**
   With one [Unreleased] heading and one Added heading in its section, extracting from the rebuilt
   text yields the merged bullets if and only if there are none or the text does not stop inside
   an unfinished blank line right below the Added heading.
   */
  lemma ExtractUndoesRebuildIff(text: string, u: int, a: int, e: int, merged: seq<string>)
    requires Located(Lines(text), u, a, e) && AllBullets(merged)
    ensures Extract(Rebuilt(text, merged)) == merged <==> merged == [] || !EndsInOpenBlank(Lines(text), a)
  {
    var lines := Lines(text);
    if EndsInOpenBlank(lines, a) {
      ExtractGlued(text, u, a, e, merged);
    } else if Ended(lines[a]) {
      GapIsWhole(lines, a);
      ExtractWhole(text, u, a, e, merged);
    } else {
      ExtractOpenHeading(text, u, a, e, merged);
    }
  }

  lemma GapIsWhole(lines: seq<string>, a: nat)
    requires AreLines(lines) && a < |lines| && !EndsInOpenBlank(lines, a)
    ensures Ended(Gap(lines[a + 1..]))
  {
    assert a + 1 < |lines| ==> lines[a + 1..][0] == lines[a + 1];
  }

  /** The text written, in three parts. */
  lemma RebuiltText3(text: string, u: int, a: int, e: int, merged: seq<string>)
    requires Located(Lines(text), u, a, e) && AllBullets(merged)
    ensures var lines := Lines(text);
            Rebuilt(text, merged) == Concat(lines[..a + 1]) + Concat(NewBlock(Gap(lines[a + 1..]), merged)) + Concat(lines[e..])
  {
    var lines := Lines(text);
    RebuildReplacesBlock(lines, u, a, e, merged);
    ConcatAppend(lines[..a + 1] + NewBlock(Gap(lines[a + 1..]), merged), lines[e..]);
    ConcatAppend(lines[..a + 1], NewBlock(Gap(lines[a + 1..]), merged));
  }

  /**
   A whole run of the resolver: everything outside the block is ours, character by character, and
   the result carries exactly the order-preserving union of both sides' bullets, ours first, if and
   only if there are none or ours does not stop inside a blank line right below the heading.
   */
  lemma ResolvedTextHasTheUnion(ours: string, theirs: string, u: int, a: int, e: int)
    requires Located(Lines(ours), u, a, e)
    ensures var lines, merged := Lines(ours), Merge(Extract(ours), Extract(theirs));
            && Rebuilt(ours, merged) == Concat(lines[..a + 1]) + Concat(NewBlock(Gap(lines[a + 1..]), merged)) + Concat(lines[e..])
            && (Extract(Rebuilt(ours, merged)) == merged <==> merged == [] || !EndsInOpenBlank(lines, a))
            && Extract(ours) <= merged
            && forall b :: b in merged <==> b in Extract(ours) || b in Extract(theirs)
  {
    var merged := Merge(Extract(ours), Extract(theirs));
    MergeIsUnion(Extract(ours), Extract(theirs));
    MergedAreBullets(ours, theirs);
    RebuiltText3(ours, u, a, e, merged);
    ExtractUndoesRebuildIff(ours, u, a, e, merged);
  }

  lemma MergedAreBullets(ours: string, theirs: string)
    ensures var merged := Merge(Extract(ours), Extract(theirs)); AllBullets(merged)
  {
    var merged := Merge(Extract(ours), Extract(theirs));
    MergeIsUnion(Extract(ours), Extract(theirs));
    LinesIn(Lines(ours));
    LinesIn(Lines(theirs));
    ExtractedAreBullets(Lines(ours), false, false);
    ExtractedAreBullets(Lines(theirs), false, false);
    forall i | 0 <= i < |merged| ensures Bullet(merged[i]) { assert merged[i] in merged; }
  }

  lemma LinesIn(lines: seq<string>)
    requires AreLines(lines)
    ensures forall l | l in lines :: IsLine(l)
  {
  }
}
