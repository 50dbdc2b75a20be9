/**
 What resolving a changelog conflict keeps: of the text when it is resolved again, and of the lines
 of the old Added block.
 */
module ChangelogAgain {
  import opened Common
  import opened Changelog

  // ---------------------------------------------------------------- resolving again

  /** main: ours with both sides' bullets. */
  function Resolved(ours: string, theirs: string): string { Rebuilt(ours, Merge(Extract(ours), Extract(theirs))) }

  lemma NewBlockHasNoHeading(gap: string, merged: seq<string>, i: nat)
    requires Blank(gap) && AllBullets(merged) && i < |merged| + 2
    ensures !Heading(NewBlock(gap, merged)[i]) && !StartsWith(NewBlock(gap, merged)[i], UNRELEASED)
  {
    if i == 0 {
      BlankIsNoHeading(gap);
    } else if i <= |merged| {
      var line := NewBlock(gap, merged)[i];
      assert line == Bulleted(merged)[i - 1] == merged[i - 1] + "\n";
      BulletLine(merged[i - 1]);
      FirstChar(line, "- ");
      NoHash(line);
    } else {
      BlankIsNoHeading("\n");
    }
  }

  lemma RelocatedBlock(lines: seq<string>, u: int, a: int, e: int, gap: string, merged: seq<string>, all: seq<string>)
    requires Located(lines, u, a, e) && Blank(gap) && AllBullets(merged)
    requires all == lines[..a + 1] + NewBlock(gap, merged) + lines[e..]
    ensures Located(all, u, a, a + 3 + |merged|)
  {
    var x, block, z := lines[..a + 1], NewBlock(gap, merged), lines[e..];
    var e' := a + 3 + |merged|;
    forall i | a < i < e' ensures !Heading(all[i]) && !StartsWith(all[i], UNRELEASED) {
      NewBlockHasNoHeading(gap, merged, i - a - 1);
      assert all[i] == block[i - a - 1];
    }
    forall i | e' <= i < |all| ensures all[i] == lines[i - e' + e] {}
    forall i | 0 <= i <= a ensures all[i] == lines[i] {}
    assert forall i | 0 <= i < |all| :: StartsWith(all[i], UNRELEASED) <==> i == u;
  }

  lemma KeptBlock(lines: seq<string>, u: int, a: int, e: int, gap: string, merged: seq<string>)
    requires AreLines(lines) && Located(lines, u, a, e) && AllBullets(merged)
    requires Gap(lines[a + 1..]) == gap && lines == lines[..a + 1] + NewBlock(gap, merged) + lines[e..]
    ensures Rebuild(lines, merged) == lines
  {
    RebuildReplacesBlock(lines, u, a, e, merged);
  }

  lemma NewLinesAreKept(lines: seq<string>, u: int, a: int, e: int, gap: string, merged: seq<string>, once: seq<string>)
    requires Located(lines, u, a, e) && Blank(gap) && AllBullets(merged)
    requires once == lines[..a + 1] + NewBlock(gap, merged) + lines[e..] && AreLines(once)
    ensures Rebuild(once, merged) == once
  {
    RelocatedBlock(lines, u, a, e, gap, merged, once);
    NewBlockParts(lines[..a + 1], gap, merged, lines[e..], once, a + 1);
    KeptBlock(once, u, a, a + 3 + |merged|, gap, merged);
  }

  lemma NewBlockParts(x: seq<string>, gap: string, merged: seq<string>, z: seq<string>, once: seq<string>, n: nat)
    requires Blank(gap) && once == x + NewBlock(gap, merged) + z && n == |x|
    ensures |once| >= n + 2 + |merged| && Gap(once[n..]) == gap
    ensures once == once[..n] + NewBlock(gap, merged) + once[n + 2 + |merged|..]
  {
    Slices(x, NewBlock(gap, merged), z);
  }

  lemma Slices(x: seq<string>, block: seq<string>, z: seq<string>)
    requires block != []
    ensures var all := x + block + z;
            all[..|x|] == x && all[|x| + |block|..] == z && all[|x|..] != [] && all[|x|..][0] == block[0]
  {
  }

  lemma RebuildIsStable(lines: seq<string>, u: int, a: int, e: int, merged: seq<string>)
    requires AreLines(lines) && Located(lines, u, a, e) && Ended(lines[a]) && Ended(Gap(lines[a + 1..]))
    requires AllBullets(merged)
    ensures AreLines(Rebuild(lines, merged)) && Rebuild(Rebuild(lines, merged), merged) == Rebuild(lines, merged)
  {
    RebuildReplacesBlock(lines, u, a, e, merged);
    NewLinesAreLines(lines, a, e, Gap(lines[a + 1..]), merged);
    NewLinesAreKept(lines, u, a, e, Gap(lines[a + 1..]), merged, Rebuild(lines, merged));
  }

  lemma RebuildAgain(text: string, u: int, a: int, e: int, merged: seq<string>)
    requires var lines := Lines(text); Located(lines, u, a, e) && Ended(lines[a]) && !EndsInOpenBlank(lines, a)
    requires AllBullets(merged)
    ensures Rebuilt(Rebuilt(text, merged), merged) == Rebuilt(text, merged)
  {
    GapIsWhole(Lines(text), a);
    RebuildIsStable(Lines(text), u, a, e, merged);
    LinesOfConcat(Rebuild(Lines(text), merged));
  }

  /** Rebuilding a text whose block is `tail`, down to its end. */
  lemma RebuildWhole(once: string, u: int, head: seq<string>, tail: seq<string>, merged: seq<string>)
    requires head != [] && Lines(once) == head + tail && Located(head + tail, u, |head| - 1, |head + tail|)
    requires AllBullets(merged)
    ensures Rebuilt(once, merged) == Concat(head) + Concat(NewBlock(Gap(tail), merged))
  {
    RebuiltText3(once, u, |head| - 1, |head + tail|, merged);
    Halves(head, tail);
    NothingBelow(Concat(head) + Concat(NewBlock(Gap(tail), merged)));
  }

  lemma TextIs(once: string, head: seq<string>, tail: seq<string>)
    requires Lines(once) == head + tail
    ensures once == Concat(head) + Concat(tail)
  {
    ConcatOfLines(once);
    ConcatAppend(head, tail);
  }

  lemma Halves(head: seq<string>, tail: seq<string>)
    ensures var all := head + tail; all[..|head|] == head && all[|head|..] == tail && all[|all|..] == []
  {
  }

  lemma NothingBelow(text: string)
    ensures text + Concat([]) == text
  {
  }

  /** The pieces below the heading, with its gap first. */
  lemma GapFirst(gap: string, merged: seq<string>)
    ensures Concat(NewBlock(gap, merged)) == gap + Concat(Bulleted(merged) + ["\n"])
    ensures Concat(NewBlock(gap, [])) == gap + "\n"
  {
    assert NewBlock(gap, merged)[1..] == Bulleted(merged) + ["\n"];
    assert NewBlock(gap, [])[1..] == ["\n"];
    ConcatOne("\n");
  }

  /** All lines below an ended heading at `a` belong to its block. */
  lemma LocatedAgain(lines: seq<string>, u: int, a: int, e: int, heading: string, tail: seq<string>, all: seq<string>)
    requires Located(lines, u, a, e) && StartsWith(heading, ADDED)
    requires forall i | 0 <= i < |tail| :: !Heading(tail[i]) && !StartsWith(tail[i], UNRELEASED)
    requires all == lines[..a] + [heading] + tail
    ensures Located(all, u, a, |all|)
  {
    AddedIsNotUnreleased(heading);
    assert forall i | 0 <= i < a :: all[i] == lines[i];
    assert forall i | a < i < |all| :: all[i] == tail[i - a - 1];
  }

  lemma BulletedHasNoHeading(merged: seq<string>)
    requires AllBullets(merged)
    ensures var tail := Bulleted(merged) + ["\n"];
            forall i | 0 <= i < |tail| :: !Heading(tail[i]) && !StartsWith(tail[i], UNRELEASED)
  {
    var tail := Bulleted(merged) + ["\n"];
    assert Blank("\n");
    forall i | 0 <= i < |tail| ensures !Heading(tail[i]) && !StartsWith(tail[i], UNRELEASED) {
      NewBlockHasNoHeading("\n", merged, i + 1);
      assert tail[i] == NewBlock("\n", merged)[i + 1];
    }
  }

  lemma GapOfBullets(merged: seq<string>)
    requires AllBullets(merged)
    ensures Gap(Bulleted(merged) + ["\n"]) == "\n"
  {
    if merged != [] { FirstChar(merged[0] + "\n", "- "); }
  }

  /** An unfinished heading: the second time a blank line is added. */
  lemma OpenHeadingGrows(text: string, u: int, a: int, e: int, merged: seq<string>)
    requires Located(Lines(text), u, a, e) && !Ended(Lines(text)[a]) && AllBullets(merged)
    ensures Rebuilt(Rebuilt(text, merged), merged) != Rebuilt(text, merged)
  {
    var lines, once := Lines(text), Rebuilt(text, merged);
    var head, tail := lines[..a] + [lines[a] + "\n"], Bulleted(merged) + ["\n"];
    OpenHeadingLines(lines, u, a, e, merged);
    BulletedHasNoHeading(merged);
    LongerPrefix(lines[a], ADDED, "\n");
    LocatedAgain(lines, u, a, e, lines[a] + "\n", tail, head + tail);
    RebuildWhole(once, u, head, tail, merged);
    TextIs(once, head, tail);
    GapOfBullets(merged);
    GapFirst("\n", merged);
  }

  lemma LongerPrefix(s: string, prefix: string, more: string)
    requires StartsWith(s, prefix)
    ensures StartsWith(s + more, prefix)
  {
    assert (s + more)[..|prefix|] == s[..|prefix|];
  }

  lemma {:induction false} ConcatOfLines(text: string)
    ensures Concat(Lines(text)) == text
    decreases |text|
  {
    if text != "" { ConcatOfLines(text[LineLength(text)..]); }
  }

  lemma SpacedIsNoHeading(line: string)
    requires line != "" && IsSpace(line[0])
    ensures !Heading(line) && !StartsWith(line, UNRELEASED)
  {
    NoHash(line);
  }

  lemma BelowOpenBlank(ours: string, u: int, a: int, e: int)
    requires Located(Lines(ours), u, a, e) && EndsInOpenBlank(Lines(ours), a)
    ensures var lines := Lines(ours);
            lines[e..] == [] && Gap(lines[a + 1..]) == lines[a + 1] && AllEnded(lines[..a + 1])
            && lines[a + 1] != "" && BreakFree(lines[a + 1]) && IsSpace(lines[a + 1][0]) && Ended(lines[a + 1] + "\n")
            && lines[..a + 1] == lines[..a] + [lines[a]]
  {
    OpenBlankIsLast(Lines(ours), u, a, e);
    OpenLine(Lines(ours)[a + 1]);
  }

  lemma OpenBlankLines(text: string, u: int, a: int, e: int)
    requires Located(Lines(text), u, a, e) && EndsInOpenBlank(Lines(text), a)
    ensures var lines := Lines(text); Lines(Rebuilt(text, [])) == lines[..a + 1] + [lines[a + 1] + "\n"]
  {
    var lines := Lines(text);
    var blank := lines[a + 1];
    BelowOpenBlank(text, u, a, e);
    RebuildReplacesBlock(lines, u, a, e, []);
    EmptyBlock(lines[..a + 1], blank);
    FusedLines(lines[..a + 1], blank, "\n", []);
    NothingMore(lines[..a + 1] + [blank + "\n"]);
  }

  lemma EmptyBlock(x: seq<string>, gap: string)
    ensures x + NewBlock(gap, []) + [] == x + [gap] + (["\n"] + [])
  {
    assert Bulleted([]) == [];
  }

  lemma NothingMore(x: seq<string>)
    ensures x + [] == x
  {
  }

  /** An unfinished blank line and no bullets: the second time a blank line is added. */
  lemma OpenBlankGrows(text: string, u: int, a: int, e: int)
    requires Located(Lines(text), u, a, e) && EndsInOpenBlank(Lines(text), a)
    ensures Rebuilt(Rebuilt(text, []), []) != Rebuilt(text, [])
  {
    var lines := Lines(text);
    var head, whole := lines[..a + 1], lines[a + 1] + "\n";
    OpenBlankLines(text, u, a, e);
    BelowOpenBlank(text, u, a, e);
    SpacedIsNoHeading(whole);
    LocatedAgain(lines, u, a, e, lines[a], [whole], head + [whole]);
    RebuildWhole(Rebuilt(text, []), u, head, [whole], []);
    TextIs(Rebuilt(text, []), head, [whole]);
    assert Blank(whole);
    GapFirst(whole, []);
    ConcatOne(whole);
  }

  /** An unfinished blank line and some bullets: the second time a blank line comes before the glued line. */
  lemma OpenBlankSplits(text: string, u: int, a: int, e: int, merged: seq<string>, again: seq<string>)
    requires Located(Lines(text), u, a, e) && EndsInOpenBlank(Lines(text), a) && merged != []
    requires AllBullets(merged) && AllBullets(again)
    ensures Rebuilt(Rebuilt(text, merged), again) != Rebuilt(text, merged)
  {
    var lines, once := Lines(text), Rebuilt(text, merged);
    var head, glued, rest := lines[..a + 1], lines[a + 1] + (merged[0] + "\n"), Bulleted(merged[1..]) + ["\n"];
    BelowOpenBlank(text, u, a, e);
    GluedLocated(text, u, a, e, merged);
    RebuildWhole(once, u, head, [glued] + rest, again);
    TextIs(once, head, [glued] + rest);
    GluedIsNotBlank(lines[a + 1], merged[0]);
    GapFirst("\n", again);
    DifferAt(Concat(head), Concat([glued] + rest), "\n" + Concat(Bulleted(again) + ["\n"])) by { StartsGlued(glued, rest); }
  }

  lemma StartsGlued(glued: string, rest: seq<string>)
    requires glued != ""
    ensures Concat([glued] + rest) != "" && Concat([glued] + rest)[0] == glued[0]
  {
  }

  lemma GluedLocated(text: string, u: int, a: int, e: int, merged: seq<string>)
    requires Located(Lines(text), u, a, e) && EndsInOpenBlank(Lines(text), a)
    requires merged != [] && AllBullets(merged)
    ensures var lines := Lines(text);
            var head, tail := lines[..a + 1], [lines[a + 1] + (merged[0] + "\n")] + (Bulleted(merged[1..]) + ["\n"]);
            Lines(Rebuilt(text, merged)) == head + tail && Located(head + tail, u, a, |head + tail|)
  {
    var lines := Lines(text);
    var blank := lines[a + 1];
    var glued, rest := blank + (merged[0] + "\n"), Bulleted(merged[1..]) + ["\n"];
    BelowOpenBlank(text, u, a, e);
    RebuildReplacesBlock(lines, u, a, e, merged);
    GluedLines(lines[..a + 1], blank, merged);
    ConcatAssociates(lines[..a + 1], [glued], rest);
    GluedBelow(glued, merged[1..]);
    LocatedAgain(lines, u, a, e, lines[a], [glued] + rest, lines[..a + 1] + ([glued] + rest));
  }

  lemma GluedBelow(glued: string, bullets: seq<string>)
    requires glued != "" && IsSpace(glued[0]) && AllBullets(bullets)
    ensures var tail := [glued] + (Bulleted(bullets) + ["\n"]);
            forall i | 0 <= i < |tail| :: !Heading(tail[i]) && !StartsWith(tail[i], UNRELEASED)
  {
    SpacedIsNoHeading(glued);
    BulletedHasNoHeading(bullets);
  }

  lemma GluedIsNotBlank(blank: string, b: string)
    requires Bullet(b)
    ensures !Blank(blank + (b + "\n"))
  {
    CharAt(b, "- ", 0);
    assert (blank + (b + "\n"))[|blank|] == '-';
  }

  lemma DifferAt(x: string, y: string, z: string)
    requires y != "" && z != "" && y[0] != z[0]
    ensures x + y != x + z
  {
    assert (x + y)[|x|] == y[0] && (x + z)[|x|] == z[0];
  }

  /**
   Resolving the result against the same other side again changes nothing if and only if the
   Added heading is a whole line and so is a blank line right below it.
   */
  lemma ResolvingIsIdempotentIff(ours: string, theirs: string, u: int, a: int, e: int)
    requires Located(Lines(ours), u, a, e)
    ensures Resolved(Resolved(ours, theirs), theirs) == Resolved(ours, theirs) <==>
            Ended(Lines(ours)[a]) && !EndsInOpenBlank(Lines(ours), a)
  {
    var merged := Merge(Extract(ours), Extract(theirs));
    MergedAreBullets(ours, theirs);
    if merged != [] && EndsInOpenBlank(Lines(ours), a) {
      MergedAreBullets(Resolved(ours, theirs), theirs);
      OpenBlankIsLast(Lines(ours), u, a, e);
      OpenBlankSplits(ours, u, a, e, merged, Merge(Extract(Resolved(ours, theirs)), Extract(theirs)));
    } else {
      ExtractUndoesRebuildIff(ours, u, a, e, merged);
      SameMerge(ours, theirs);
      RebuildingIsIdempotentIff(ours, u, a, e, merged);
    }
  }

  lemma SameMerge(ours: string, theirs: string)
    requires Extract(Resolved(ours, theirs)) == Merge(Extract(ours), Extract(theirs))
    ensures Resolved(Resolved(ours, theirs), theirs) == Rebuilt(Resolved(ours, theirs), Merge(Extract(ours), Extract(theirs)))
  {
    MergeIsIdempotent(Extract(ours), Extract(theirs));
  }

  lemma RebuildingIsIdempotentIff(text: string, u: int, a: int, e: int, merged: seq<string>)
    requires Located(Lines(text), u, a, e) && AllBullets(merged)
    requires merged == [] || !EndsInOpenBlank(Lines(text), a)
    ensures Rebuilt(Rebuilt(text, merged), merged) == Rebuilt(text, merged) <==>
            Ended(Lines(text)[a]) && !EndsInOpenBlank(Lines(text), a)
  {
    if !Ended(Lines(text)[a]) {
      OpenHeadingGrows(text, u, a, e, merged);
    } else if EndsInOpenBlank(Lines(text), a) {
      OpenBlankGrows(text, u, a, e);
    } else {
      RebuildAgain(text, u, a, e, merged);
    }
  }

  // ---------------------------------------------------------------- what the old block loses

  /** The contents of the lines that are not blank. */
  function Texts(lines: seq<string>): seq<string> {
    if lines == [] then [] else (if Blank(lines[0]) then [] else [Content(lines[0])]) + Texts(lines[1..])
  }

  lemma {:induction false} TextsOfConcat(a: seq<string>, b: seq<string>)
    ensures Texts(a + b) == Texts(a) + Texts(b)
  {
    if a == [] {
      assert a + b == b;
    } else {
      TextsOfConcat(a[1..], b);
      assert (a + b)[1..] == a[1..] + b;
      ConcatAssociates(if Blank(a[0]) then [] else [Content(a[0])], Texts(a[1..]), Texts(b));
    }
  }

  lemma {:induction false} TextsOfBulleted(bullets: seq<string>)
    requires AllBullets(bullets)
    ensures Texts(Bulleted(bullets)) == bullets
  {
    if bullets != [] {
      TextsOfBulleted(bullets[1..]);
      assert Bulleted(bullets)[1..] == Bulleted(bullets[1..]);
      GluedIsNotBlank("", bullets[0]);
      assert "" + (bullets[0] + "\n") == bullets[0] + "\n";
      assert Content(bullets[0] + "\n") == bullets[0];
    }
  }

  lemma TextsOfNewBlock(gap: string, merged: seq<string>)
    requires Blank(gap) && AllBullets(merged)
    ensures Texts(NewBlock(gap, merged)) == merged
  {
    TextsOfConcat([gap] + Bulleted(merged), ["\n"]);
    TextsOfConcat([gap], Bulleted(merged));
    TextsOfBulleted(merged);
    assert Blank("\n");
    assert [gap][1..] == [] && ["\n"][1..] == [];
  }

  /** Each line of the block is blank or a bullet: no prose, sub-bullet or continuation line. */
  predicate OnlyBullets(block: seq<string>) { forall i | 0 <= i < |block| :: Blank(block[i]) || StartsWith(block[i], "- ") }

  /** The old block's bullets; `y` begins where it ends. */
  lemma {:induction false} ExtractOldBlock(block: seq<string>, y: seq<string>)
    requires (forall i | 0 <= i < |block| :: IsLine(block[i]) && !Heading(block[i]) && !StartsWith(block[i], UNRELEASED)) && BlockEnd(y)
    ensures OnlyBullets(block) ==> ExtractFrom(block + y, true, true) == Texts(block)
    ensures !OnlyBullets(block) ==> exists t :: t in Texts(block) && !StartsWith(t, "- ")
  {
    if block == [] {
      assert block + y == y;
      ExtractEnd(y);
    } else {
      var line := block[0];
      ExtractOldBlock(block[1..], y);
      assert (block + y)[0] == line && (block + y)[1..] == block[1..] + y;
      LineKinds(line);
      if Blank(line) || StartsWith(line, "- ") {
        assert OnlyBullets(block[1..]) ==> OnlyBullets(block) by {
          assert forall i | 0 < i < |block| :: block[i] == block[1..][i - 1];
        }
      }
    }
  }

  lemma AddedIsHeading(line: string)
    ensures StartsWith(line, ADDED) ==> Heading(line)
  {
    assert ADDED[..4] == "### ";
    assert StartsWith(line, ADDED) ==> line[..4] == line[..|ADDED|][..4];
  }

  lemma LineKinds(line: string)
    requires IsLine(line) && !Heading(line) && !StartsWith(line, UNRELEASED)
    ensures !Heading(Content(line)) && !StartsWith(Content(line), UNRELEASED) && !StartsWith(Content(line), ADDED)
    ensures StartsWith(Content(line), "- ") <==> StartsWith(line, "- ")
    ensures Blank(line) ==> !StartsWith(line, "- ")
  {
    PrefixOfContent(line, "### ");
    PrefixOfContent(line, "## ");
    PrefixOfContent(line, UNRELEASED);
    PrefixOfContent(line, ADDED);
    PrefixOfContent(line, "- ");
    AddedIsHeading(line);
    if StartsWith(line, "- ") { CharAt(line, "- ", 0); }
  }

  lemma BlockLines(lines: seq<string>, u: int, a: int, e: int)
    requires AreLines(lines) && Located(lines, u, a, e)
    ensures var block := lines[a + 1..e];
            forall i | 0 <= i < |block| :: IsLine(block[i]) && !Heading(block[i]) && !StartsWith(block[i], UNRELEASED)
    ensures lines == lines[..a + 1] + lines[a + 1..e] + lines[e..]
  {
  }

  lemma AroundBlock(lines: seq<string>, a: nat, e: nat)
    requires a < e <= |lines|
    ensures lines[..a] + [lines[a]] + lines[a + 1..] == lines && lines[a + 1..e] + lines[e..] == lines[a + 1..]
  {
  }

  /** What Extract finds is what the block holds, when the block holds bullets only. */
  lemma ExtractIsBlock(text: string, u: int, a: int, e: int)
    requires Located(Lines(text), u, a, e)
    ensures var block := Lines(text)[a + 1..e];
            if OnlyBullets(block) then Extract(text) == Texts(block) else exists t :: t in Texts(block) && !StartsWith(t, "- ")
  {
    var lines := Lines(text);
    BlockLines(lines, u, a, e);
    LocatedEnd(lines, u, a, e);
    ExtractBelowHeading(lines, u, a, e, lines[a], lines[a + 1..]);
    AroundBlock(lines, a, e);
    ExtractOldBlock(lines[a + 1..e], lines[e..]);
  }

  /** Each text of `old_`, repetitions counted, is a text of `new_`. */
  ghost predicate NothingLost(old_: seq<string>, new_: seq<string>) { multiset(Texts(old_)) <= multiset(Texts(new_)) }

  lemma BagOfConcat(a: seq<string>, b: seq<string>, c: seq<string>)
    ensures multiset(Texts(a + b + c)) == multiset(Texts(a)) + multiset(Texts(b)) + multiset(Texts(c))
  {
    TextsOfConcat(a + b, c);
    TextsOfConcat(a, b);
  }

  lemma WholeBlockLost(lines: seq<string>, u: int, a: int, e: int, gap: string, merged: seq<string>)
    requires Located(lines, u, a, e) && AreLines(lines) && Blank(gap) && AllBullets(merged)
    ensures NothingLost(lines, lines[..a + 1] + NewBlock(gap, merged) + lines[e..]) <==>
            multiset(Texts(lines[a + 1..e])) <= multiset(merged)
  {
    BlockLines(lines, u, a, e);
    BagOfConcat(lines[..a + 1], lines[a + 1..e], lines[e..]);
    BagOfConcat(lines[..a + 1], NewBlock(gap, merged), lines[e..]);
    TextsOfNewBlock(gap, merged);
    BagCancels(multiset(Texts(lines[..a + 1])), multiset(Texts(lines[a + 1..e])), multiset(merged), multiset(Texts(lines[e..])));
  }

  lemma BagCancels(x: multiset<string>, y: multiset<string>, m: multiset<string>, z: multiset<string>)
    ensures x + y + z <= x + m + z <==> y <= m
  {
    forall t ensures (x + y + z)[t] == x[t] + y[t] + z[t] && (x + m + z)[t] == x[t] + m[t] + z[t] {}
    if x + y + z <= x + m + z {
      forall t ensures y[t] <= m[t] { assert (x + y + z)[t] <= (x + m + z)[t]; }
    }
  }

  /** Where the text stops at or right below the heading there is no block to lose. */
  lemma OpenTextLosesNothing(text: string, u: int, a: int, e: int, merged: seq<string>)
    requires Located(Lines(text), u, a, e) && AllBullets(merged)
    requires !Ended(Lines(text)[a]) || EndsInOpenBlank(Lines(text), a)
    ensures NothingLost(Lines(text), Lines(Rebuilt(text, merged))) && OnlyBullets(Lines(text)[a + 1..e])
  {
    if !Ended(Lines(text)[a]) {
      OpenHeadingLosesNothing(text, u, a, e, merged);
    } else {
      OpenBlankLosesNothing(text, u, a, e, merged);
    }
  }

  lemma OpenHeadingLosesNothing(text: string, u: int, a: int, e: int, merged: seq<string>)
    requires Located(Lines(text), u, a, e) && AllBullets(merged) && !Ended(Lines(text)[a])
    ensures NothingLost(Lines(text), Lines(Rebuilt(text, merged))) && OnlyBullets(Lines(text)[a + 1..e])
  {
    var lines := Lines(text);
    OpenHeadingLines(lines, u, a, e, merged);
    HeadingKept(lines[..a], lines[a], Bulleted(merged) + ["\n"]);
    LastLine(lines, a);
  }

  lemma LastLine(lines: seq<string>, a: nat)
    requires AreLines(lines) && a < |lines| && (!Ended(lines[a]) || a + 1 == |lines|)
    ensures lines == lines[..a] + [lines[a]] && |lines| == a + 1
  {
  }

  lemma OpenBlankLosesNothing(text: string, u: int, a: int, e: int, merged: seq<string>)
    requires Located(Lines(text), u, a, e) && AllBullets(merged) && EndsInOpenBlank(Lines(text), a)
    ensures NothingLost(Lines(text), Lines(Rebuilt(text, merged))) && OnlyBullets(Lines(text)[a + 1..e])
  {
    var lines := Lines(text);
    OnlyOpenBlank(lines, u, a, e);
    var tail := BelowHeading(text, u, a, e, merged);
    BlankDropped(lines[..a + 1], lines[a + 1], tail);
  }

  lemma OnlyOpenBlank(lines: seq<string>, u: int, a: int, e: int)
    requires AreLines(lines) && Located(lines, u, a, e) && EndsInOpenBlank(lines, a)
    ensures OnlyBullets(lines[a + 1..e]) && lines == lines[..a + 1] + [lines[a + 1]]
  {
    OpenBlankIsLast(lines, u, a, e);
    LastLine(lines, a + 1);
    assert lines[a + 1..e] == [lines[a + 1]];
  }

  lemma BelowHeading(text: string, u: int, a: int, e: int, merged: seq<string>) returns (tail: seq<string>)
    requires Located(Lines(text), u, a, e) && AllBullets(merged) && EndsInOpenBlank(Lines(text), a)
    ensures Lines(Rebuilt(text, merged)) == Lines(text)[..a + 1] + tail
  {
    if merged == [] {
      OpenBlankLines(text, u, a, e);
      tail := [Lines(text)[a + 1] + "\n"];
    } else {
      GluedLocated(text, u, a, e, merged);
      tail := [Lines(text)[a + 1] + (merged[0] + "\n")] + (Bulleted(merged[1..]) + ["\n"]);
    }
  }

  lemma BlankDropped(x: seq<string>, blank: string, y: seq<string>)
    requires Blank(blank)
    ensures NothingLost(x + [blank], x + y)
  {
    TextsOfConcat(x, y);
    TextsOfConcat(x, [blank]);
    assert [blank][1..] == [];
  }

  lemma HeadingKept(x: seq<string>, open: string, y: seq<string>)
    requires IsLine(open) && !Ended(open)
    ensures NothingLost(x + [open], x + [open + "\n"] + y)
  {
    TextsOfConcat(x, [open]);
    BagOfConcat(x, [open + "\n"], y);
    TextOfOne(open);
    TextOfOne(open + "\n");
    BreakIsBlank(open);
  }

  lemma TextOfOne(line: string)
    ensures Texts([line]) == if Blank(line) then [] else [Content(line)]
  {
    assert [line][1..] == [];
  }

  lemma BreakIsBlank(open: string)
    requires IsLine(open) && !Ended(open)
    ensures Content(open + "\n") == Content(open) && (Blank(open + "\n") <==> Blank(open))
  {
    assert forall i | 0 <= i < |open| :: (open + "\n")[i] == open[i];
  }

  /**
   Resolving keeps every non-blank line of ours, repetitions counted, if and only if our Added
   block holds nothing but bullets and blank lines: a sub-bullet, a continuation line or a line of
   prose in the block is dropped.
   */
  lemma NoLineIsLostIff(ours: string, theirs: string, u: int, a: int, e: int)
    requires Located(Lines(ours), u, a, e)
    ensures NothingLost(Lines(ours), Lines(Resolved(ours, theirs))) <==> OnlyBullets(Lines(ours)[a + 1..e])
  {
    var lines, merged := Lines(ours), Merge(Extract(ours), Extract(theirs));
    MergedAreBullets(ours, theirs);
    if !Ended(lines[a]) || EndsInOpenBlank(lines, a) {
      OpenTextLosesNothing(ours, u, a, e, merged);
    } else {
      GapIsWhole(lines, a);
      RebuiltLines(ours, u, a, e, merged);
      WholeBlockLost(lines, u, a, e, Gap(lines[a + 1..]), merged);
      BlockInMerge(ours, theirs, u, a, e);
    }
  }

  lemma BlockInMerge(ours: string, theirs: string, u: int, a: int, e: int)
    requires Located(Lines(ours), u, a, e)
    ensures multiset(Texts(Lines(ours)[a + 1..e])) <= multiset(Merge(Extract(ours), Extract(theirs))) <==> OnlyBullets(Lines(ours)[a + 1..e])
  {
    var block, merged := Lines(ours)[a + 1..e], Merge(Extract(ours), Extract(theirs));
    ExtractIsBlock(ours, u, a, e);
    MergeIsUnion(Extract(ours), Extract(theirs));
    MergedAreBullets(ours, theirs);
    if OnlyBullets(block) {
      PrefixBag(Texts(block), merged);
    } else {
      var t :| t in Texts(block) && !StartsWith(t, "- ");
      NoSuchBullet(Texts(block), t, merged);
    }
  }

  lemma PrefixBag(part: seq<string>, whole: seq<string>)
    requires part <= whole
    ensures multiset(part) <= multiset(whole)
  {
    assert whole == part + whole[|part|..];
  }

  lemma NoSuchBullet(texts: seq<string>, t: string, merged: seq<string>)
    requires t in texts && !StartsWith(t, "- ") && AllBullets(merged)
    ensures !(multiset(texts) <= multiset(merged))
  {
    assert t in multiset(texts) && t !in merged;
  }

  // ---------------------------------------------------------------- the headings, spelled out

  lemma Spelled()
    ensures StartsWith("## [Unreleased]\n", UNRELEASED) && StartsWith("### Added\n", ADDED)
    ensures !StartsWith("### Added\n", UNRELEASED)
    ensures Heading("### Fixed\n") && !StartsWith("### Fixed\n", ADDED) && !StartsWith("### Fixed\n", UNRELEASED)
    ensures Bullet("- a") && "- a" + "\n" == "- a\n"
  {
    assert "## [Unreleased]\n"[..15] == "## [Unreleased]";
    assert "### Added\n"[..9] == "### Added";
    assert "### Fixed\n"[..4] == "### ";
    NoPrefixAt("### Added\n", UNRELEASED, 2);
    NoPrefixAt("### Fixed\n", UNRELEASED, 2);
    NoPrefixAt("### Fixed\n", ADDED, 4);
    assert "- a"[..2] == "- ";
  }

  /** The bullets under "### Added" of "## [Unreleased]" are extracted, and those under other headings are not. */
  lemma ExtractExample()
    ensures ExtractFrom(["## [Unreleased]\n"] + (["### Added\n"] + (["- a\n"] + ["### Fixed\n", "- b\n"])), false, false) == ["- a"]
  {
    var tail := ["### Fixed\n", "- b\n"];
    Spelled();
    ExtractHead([], "## [Unreleased]\n", ["### Added\n"] + (["- a\n"] + tail));
    ExtractSection([], "### Added\n", ["- a\n"] + tail);
    ExtractBullet("- a", tail);
    ExtractEnd(tail);
    assert [] + ["## [Unreleased]\n"] + (["### Added\n"] + (["- a\n"] + tail)) == ["## [Unreleased]\n"] + (["### Added\n"] + (["- a\n"] + tail));
    assert [] + ["### Added\n"] + (["- a\n"] + tail) == ["### Added\n"] + (["- a\n"] + tail);
  }
}
