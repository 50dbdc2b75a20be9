/**
 Re-anchoring hwmon paths by chip name (internal/config/resolve_hwmon.go): rewriting the
 /hwmonN segment, picking the hwmonN directory of a chip, and what a renumbering of the
 directories does to a config.
 */
module HwmonPaths {
  import opened Common
  import opened GoStrings

  // ---------------------------------------------------------------- the path rewrite

  /** hwmon followed by at least one digit. */
  predicate IsHwmonDir(d: string) { |d| > 5 && d[..5] == "hwmon" && AllDigits(d[5..]) }

  /** The text before the first slash. */
  function Segment(s: string): string { if s == "" || s[0] == '/' then "" else [s[0]] + Segment(s[1..]) }

  lemma {:induction false} SegmentShape(s: string)
    ensures |Segment(s)| <= |s| && s[..|Segment(s)|] == Segment(s)
    ensures |Segment(s)| < |s| ==> s[|Segment(s)|] == '/'
    ensures '/' !in Segment(s)
  {
    if s != "" && s[0] != '/' { SegmentShape(s[1..]); }
  }

  /** hwmonIndexRe matches at the start of `s`: a slash, then a whole segment of the form hwmonN. */
  predicate Matches(s: string) { s != "" && s[0] == '/' && IsHwmonDir(Segment(s[1..])) }

  predicate HasHwmonSegment(s: string) { s != "" && (Matches(s) || HasHwmonSegment(s[1..])) }

  /** ReplaceAllString: leftmost matches, each including its terminating slash, never overlapping. */
  function Rewrite(s: string, dir: string): string
    decreases |s|
  {
    if s == "" then ""
    else if !Matches(s) then [s[0]] + Rewrite(s[1..], dir)
    else
      SegmentShape(s[1..]);
      var n := 1 + |Segment(s[1..])|;
      if n == |s| then "/" + dir else "/" + dir + "/" + Rewrite(s[n + 1..], dir)
  }

  function RewriteHwmonPath(path: string, dir: string): Option<string> {
    if HasHwmonSegment(path) then Some(Rewrite(path, dir)) else None
  }

  lemma {:induction false} SegmentOfRewrite(s: string, dir: string)
    ensures Segment(Rewrite(s, dir)) == Segment(s)
  {
    if s != "" && s[0] != '/' {
      SegmentOfRewrite(s[1..], dir);
      assert Rewrite(s, dir)[1..] == Rewrite(s[1..], dir);
    }
  }

  lemma {:induction false} SegmentOfDir(dir: string, rest: string)
    requires '/' !in dir && (rest == "" || rest[0] == '/')
    ensures Segment(dir + rest) == dir
  {
    if dir == "" {
      assert dir + rest == rest;
    } else {
      assert (dir + rest)[1..] == dir[1..] + rest;
      SegmentOfDir(dir[1..], rest);
    }
  }

  lemma DirHasNoSlash(dir: string)
    requires IsHwmonDir(dir)
    ensures '/' !in dir
  {
    assert dir == "hwmon" + dir[5..];
  }

  /** A rewritten match is a match of the same shape. */
  lemma MatchOfRewrite(a: string, rest: string)
    requires IsHwmonDir(a) && (rest == "" || rest[0] == '/')
    ensures Matches("/" + a + rest) && Segment(("/" + a + rest)[1..]) == a
  {
    DirHasNoSlash(a);
    SegmentOfDir(a, rest);
    assert ("/" + a + rest)[1..] == a + rest;
  }

  lemma RewriteMatch(s: string, dir: string, rest: string, b: string)
    requires IsHwmonDir(dir) && (rest == "" || rest[0] == '/') && s == "/" + dir + rest
    ensures Rewrite(s, b) == if rest == "" then "/" + b else "/" + b + "/" + Rewrite(rest[1..], b)
  {
    MatchOfRewrite(dir, rest);
    if rest != "" { assert s[|dir| + 2..] == rest[1..]; }
  }

  /** The last rewrite wins, for every string: no index survives a later renumbering. */
  lemma {:induction false} RewriteLastWins(s: string, a: string, b: string)
    requires IsHwmonDir(a)
    ensures Rewrite(Rewrite(s, a), b) == Rewrite(s, b)
    ensures HasHwmonSegment(Rewrite(s, a)) <==> HasHwmonSegment(s)
    decreases |s|
  {
    if s != "" {
      if Matches(s) {
        SegmentShape(s[1..]);
        var n := 1 + |Segment(s[1..])|;
        if n == |s| {
          MatchOfRewrite(a, "");
          assert "/" + a + "" == "/" + a;
          RewriteMatch("/" + a, a, "", b);
        } else {
          var rest := "/" + Rewrite(s[n + 1..], a);
          RewriteLastWins(s[n + 1..], a, b);
          assert Rewrite(s, a) == "/" + a + rest;
          MatchOfRewrite(a, rest);
          RewriteMatch(Rewrite(s, a), a, rest, b);
          assert rest[1..] == Rewrite(s[n + 1..], a);
        }
      } else {
        var out := [s[0]] + Rewrite(s[1..], a);
        assert out[1..] == Rewrite(s[1..], a);
        SegmentOfRewrite(s[1..], a);
        RewriteLastWins(s[1..], a, b);
      }
    }
  }

  /** The rewrite shows which directory was written in. */
  lemma {:induction false} RewriteInjective(s: string, a: string, b: string)
    requires IsHwmonDir(a) && IsHwmonDir(b) && HasHwmonSegment(s) && Rewrite(s, a) == Rewrite(s, b)
    ensures a == b
  {
    if Matches(s) {
      SegmentShape(s[1..]);
      var n := 1 + |Segment(s[1..])|;
      RewrittenSegment(a, if n == |s| then "" else "/" + Rewrite(s[n + 1..], a), Rewrite(s, a));
      RewrittenSegment(b, if n == |s| then "" else "/" + Rewrite(s[n + 1..], b), Rewrite(s, b));
    } else {
      assert Rewrite(s, a)[1..] == Rewrite(s[1..], a);
      assert Rewrite(s, b)[1..] == Rewrite(s[1..], b);
      RewriteInjective(s[1..], a, b);
    }
  }

  lemma RewrittenSegment(dir: string, rest: string, whole: string)
    requires IsHwmonDir(dir) && (rest == "" || rest[0] == '/') && whole == "/" + dir + rest
    ensures Segment(whole[1..]) == dir
  {
    MatchOfRewrite(dir, rest);
  }

  lemma {:induction false} RewriteNothing(s: string, dir: string)
    requires !HasHwmonSegment(s)
    ensures Rewrite(s, dir) == s
  {
    if s != "" { RewriteNothing(s[1..], dir); }
  }

  lemma {:induction false} SegmentStopsAtSlash(a: string, tail: string)
    requires tail != "" && tail[0] == '/'
    ensures Segment(a + tail) == Segment(a)
  {
    if a == "" {
      assert a + tail == tail;
    } else {
      assert (a + tail)[1..] == a[1..] + tail;
      SegmentStopsAtSlash(a[1..], tail);
    }
  }

  lemma MatchesInFront(pre: string, tail: string)
    requires pre != "" && tail != "" && tail[0] == '/'
    ensures (pre + tail)[0] == pre[0] && (pre + tail)[1..] == pre[1..] + tail
    ensures Matches(pre + tail) <==> Matches(pre)
  {
    assert (pre + tail)[1..] == pre[1..] + tail;
    SegmentStopsAtSlash(pre[1..], tail);
  }

  lemma {:induction false} RewriteBehind(pre: string, tail: string, dir: string)
    requires !HasHwmonSegment(pre) && tail != "" && tail[0] == '/'
    ensures Rewrite(pre + tail, dir) == pre + Rewrite(tail, dir)
  {
    if pre == "" {
      assert pre + tail == tail;
    } else {
      MatchesInFront(pre, tail);
      RewriteBehind(pre[1..], tail, dir);
      ConcatAssociates([pre[0]], pre[1..], Rewrite(tail, dir));
      assert pre == [pre[0]] + pre[1..];
    }
  }

  /** In a path with one hwmonN segment exactly that segment is replaced. */
  lemma RewriteReplacesTheSegment(pre: string, old_: string, rest: string, dir: string)
    requires IsHwmonDir(old_) && !HasHwmonSegment(pre) && !HasHwmonSegment(rest)
    ensures Rewrite(pre + ("/" + old_ + ("/" + rest)), dir) == pre + ("/" + dir + "/" + rest)
  {
    var tail := "/" + old_ + ("/" + rest);
    RewriteBehind(pre, tail, dir);
    RewriteMatch(tail, old_, "/" + rest, dir);
    assert ("/" + rest)[1..] == rest;
    RewriteNothing(rest, dir);
  }

  /** hwmonN directories by their names. */
  lemma HwmonDirIff(d: string)
    ensures IsHwmonDir(d) <==> exists n :: n != "" && AllDigits(n) && d == "hwmon" + n
  {
    if IsHwmonDir(d) { assert d == "hwmon" + d[5..] && d[5..] != ""; }
    if n :| n != "" && AllDigits(n) && d == "hwmon" + n { assert d[..5] == "hwmon" && d[5..] == n; }
  }

  /** Every hwmonN segment of the path that counts is `dir`. */
  predicate PointsInto(path: string, dir: string) { HasHwmonSegment(path) && Rewrite(path, dir) == path }

  // ---------------------------------------------------------------- which directory a chip has

  /** A top-level entry of /sys/class/hwmon; `name` is the content of its name file, if readable. */
  datatype Listing = Listing(dir: string, name: Option<string>)

  /**
   `device` resolves the device symlink of a hwmonN directory. Listings come in name order, if
   the root directory can be read at all.
   */
  datatype Tree = Tree(readable: bool, entries: seq<Listing>, device: string -> Option<string>)

  datatype LookupError = RootUnreadable | NoChip | Ambiguous | NotReady | BadDevice | Mismatch | Duplicate | NoSegment

  datatype Canonical = Canonical(path: string) | Absent | Unresolvable

  /** filepath.EvalSymlinks on a configured hwmon_device. */
  type Canon = string -> Canonical

  function ChipOf(e: Listing): string {
    if IsHwmonDir(e.dir) && e.name.Some? then TrimSpace(e.name.value) else ""
  }

  /** What a name file tells: the text between the white space around it, in a hwmonN directory only. */
  lemma ChipOfIff(d: string, content: string, chip: string)
    requires chip != ""
    ensures ChipOf(Listing(d, Some(content))) == chip <==>
            IsHwmonDir(d) && NoEdgeSpace(chip) && exists x, y :: AllSpace(x) && AllSpace(y) && content == x + chip + y
    ensures ChipOf(Listing(d, None)) == ""
  {
    if ChipOf(Listing(d, Some(content))) == chip { var x, y := TrimParts(content); }
    if x, y :| NoEdgeSpace(chip) && AllSpace(x) && AllSpace(y) && content == x + chip + y { TrimOf(x, chip, y); }
  }

  /** The candidates for a name are exactly the directories that have it. */
  lemma {:induction false} CandidatesExact(es: seq<Listing>, chip: string, d: string)
    ensures d in Candidates(es, chip) <==> exists e :: e in es && e.dir == d && ChipOf(e) == chip
  {
    if es != [] {
      assert es == es[..|es| - 1] + [es[|es| - 1]];
      CandidatesExact(es[..|es| - 1], chip, d);
    }
  }

  /** A chip is found under the name in its name file, whatever white space is around it. */
  lemma NamedChipIsCandidate(es: seq<Listing>, d: string, x: string, chip: string, y: string)
    requires IsHwmonDir(d) && chip != "" && NoEdgeSpace(chip) && AllSpace(x) && AllSpace(y)
    requires Listing(d, Some(x + chip + y)) in es
    ensures d in Candidates(es, chip)
  {
    ChipOfIff(d, x + chip + y, chip);
    CandidatesExact(es, chip, d);
  }

  function Candidates(es: seq<Listing>, chip: string): seq<string> {
    if es == [] then []
    else Candidates(es[..|es| - 1], chip) + if ChipOf(es[|es| - 1]) == chip then [es[|es| - 1].dir] else []
  }

  /** `m` lists, for each chip name, its directories in listing order. */
  ghost predicate Groups(m: map<string, seq<string>>, es: seq<Listing>) {
    forall chip :: (chip in m <==> chip != "" && Candidates(es, chip) != []) && (chip in m ==> m[chip] == Candidates(es, chip))
  }

  lemma CandidatesOfMore(es: seq<Listing>, i: nat, chip: string)
    requires i < |es|
    ensures Candidates(es[..i + 1], chip) ==
              if ChipOf(es[i]) == chip then Candidates(es[..i], chip) + [es[i].dir] else Candidates(es[..i], chip)
  {
    assert es[..i + 1][..i] == es[..i] && Candidates(es[..i], chip) + [] == Candidates(es[..i], chip);
  }

  lemma GroupsOfMore(m: map<string, seq<string>>, es: seq<Listing>, i: nat)
    requires i < |es| && Groups(m, es[..i])
    ensures var c := ChipOf(es[i]);
            Groups(if c == "" then m else m[c := (if c in m then m[c] else []) + [es[i].dir]], es[..i + 1])
  {
    var c := ChipOf(es[i]);
    var n := if c == "" then m else m[c := (if c in m then m[c] else []) + [es[i].dir]];
    forall chip
      ensures (chip in n <==> chip != "" && Candidates(es[..i + 1], chip) != []) && (chip in n ==> n[chip] == Candidates(es[..i + 1], chip))
    {
      CandidatesOfMore(es, i, chip);
    }
  }

  method BuildChipMap(tree: Tree) returns (r: Result<map<string, seq<string>>, LookupError>)
    ensures if tree.readable then r.Ok? else r == Err(RootUnreadable)
    ensures r.Ok? ==> forall chip :: chip != "" ==> (chip in r.value <==> Candidates(tree.entries, chip) != [])
    ensures r.Ok? ==> forall chip :: chip in r.value ==> chip != "" && r.value[chip] == Candidates(tree.entries, chip)
  {
    if !tree.readable {
      return Err(RootUnreadable);
    }
    var entries := tree.entries;
    var m: map<string, seq<string>> := map[];
    for i := 0 to |entries|
      invariant Groups(m, entries[..i])
    {
      GroupsOfMore(m, entries, i);
      var e := entries[i];
      if !IsHwmonDir(e.dir) || e.name.None? {
        continue;
      }
      var chip := TrimSpace(e.name.value);
      if chip == "" {
        continue;
      }
      m := m[chip := (if chip in m then m[chip] else []) + [e.dir]];
    }
    assert entries[..|entries|] == entries;
    return Ok(m);
  }

  function Hits(matches: seq<string>, want: string, device: string -> Option<string>): seq<string> {
    if matches == [] then []
    else
      var last := matches[|matches| - 1];
      Hits(matches[..|matches| - 1], want, device) + if device(last) == Some(want) then [last] else []
  }

  function Lookup(matches: seq<string>, device: string, tree: Tree, canon: Canon): Result<string, LookupError> {
    if matches == [] then Err(NoChip)
    else if device == "" then if |matches| == 1 then Ok(matches[0]) else Err(Ambiguous)
    else match canon(device)
      case Absent => Err(NotReady)
      case Unresolvable => Err(BadDevice)
      case Canonical(want) =>
        var hits := Hits(matches, want, tree.device);
        if |hits| == 1 then Ok(hits[0])
        else if |hits| > 1 then Err(Duplicate)
        else if |matches| == 1 && tree.device(matches[0]).None? then Ok(matches[0])
        else Err(Mismatch)
  }

  method LookupChip(chip: string, device: string, chips: map<string, seq<string>>, tree: Tree, canon: Canon)
    returns (r: Result<string, LookupError>)
    ensures r == Lookup(if chip in chips then chips[chip] else [], device, tree, canon)
  {
    var matches := if chip in chips then chips[chip] else [];
    if |matches| == 0 {
      return Err(NoChip);
    }
    if |matches| == 1 && device == "" {
      return Ok(matches[0]);
    }
    if device == "" {
      return Err(Ambiguous);
    }
    var c := canon(device);
    if c.Absent? {
      return Err(NotReady);
    }
    if c.Unresolvable? {
      return Err(BadDevice);
    }
    var hits, allUnreadable := [], true;
    for i := 0 to |matches|
      invariant hits == Hits(matches[..i], c.path, tree.device)
      invariant allUnreadable <==> forall j | 0 <= j < i :: tree.device(matches[j]).None?
    {
      assert matches[..i + 1][..i] == matches[..i];
      var got := tree.device(matches[i]);
      if got.None? {
        continue;
      }
      allUnreadable := false;
      if got.value == c.path {
        hits := hits + [matches[i]];
      }
    }
    assert matches[..|matches|] == matches;
    if |hits| == 0 {
      if |matches| == 1 && allUnreadable {
        return Ok(matches[0]);
      }
      return Err(Mismatch);
    }
    if |hits| == 1 {
      return Ok(hits[0]);
    }
    return Err(Duplicate);
  }

  lemma {:induction false} HitsExact(matches: seq<string>, want: string, device: string -> Option<string>, d: string)
    ensures d in Hits(matches, want, device) <==> d in matches && device(d) == Some(want)
  {
    if matches != [] {
      assert matches == matches[..|matches| - 1] + [matches[|matches| - 1]];
      HitsExact(matches[..|matches| - 1], want, device, d);
    }
  }

  ghost predicate Linked(matches: seq<string>, i: int, want: string, device: string -> Option<string>) {
    0 <= i < |matches| && device(matches[i]) == Some(want)
  }

  lemma {:induction false} HitsCount(matches: seq<string>, want: string, device: string -> Option<string>)
    ensures Hits(matches, want, device) == [] <==> forall i :: !Linked(matches, i, want, device)
    ensures |Hits(matches, want, device)| > 1 <==> exists i, j :: i < j && Linked(matches, i, want, device) && Linked(matches, j, want, device)
  {
    if matches != [] {
      var n := |matches| - 1;
      var init := matches[..n];
      HitsCount(init, want, device);
      assert forall i :: 0 <= i < n ==> init[i] == matches[i];
      assert forall i :: Linked(init, i, want, device) <==> Linked(matches, i, want, device) && i < n;
      if Linked(matches, n, want, device) && Hits(init, want, device) != [] {
        var i :| Linked(init, i, want, device);
        assert Linked(matches, i, want, device);
      }
    }
  }

  ghost predicate TwoLinked(matches: seq<string>, want: string, device: string -> Option<string>) {
    exists i, j :: i < j && Linked(matches, i, want, device) && Linked(matches, j, want, device)
  }

  /** No candidate has the device, and there is not just one whose link cannot be read. */
  ghost predicate NoneFits(matches: seq<string>, want: string, device: string -> Option<string>) {
    && (forall i :: !Linked(matches, i, want, device))
    && !(|matches| == 1 && device(matches[0]).None?)
  }

  /** Which error a lookup ends with, in each case exactly. */
  lemma LookupErrors(matches: seq<string>, device: string, tree: Tree, canon: Canon)
    ensures var r, asked := Lookup(matches, device, tree, canon), matches != [] && device != "";
            && (r == Err(NoChip) <==> matches == [])
            && (r == Err(Ambiguous) <==> |matches| > 1 && device == "")
            && (r == Err(NotReady) <==> asked && canon(device).Absent?)
            && (r == Err(BadDevice) <==> asked && canon(device).Unresolvable?)
            && (r == Err(Duplicate) <==> asked && canon(device).Canonical? && TwoLinked(matches, canon(device).path, tree.device))
            && (r == Err(Mismatch) <==> asked && canon(device).Canonical? && NoneFits(matches, canon(device).path, tree.device))
            && r != Err(RootUnreadable) && r != Err(NoSegment)
  {
    if canon(device).Canonical? { HitsCount(matches, canon(device).path, tree.device); }
  }

  /**
   A configured device is never bound to a chip whose own device link says otherwise, and a
   bare chip name never picks between two chips.
   */
  lemma {:induction false} LookupNeverGuesses(matches: seq<string>, device: string, tree: Tree, canon: Canon, d: string)
    requires Lookup(matches, device, tree, canon) == Ok(d)
    ensures d in matches
    ensures device == "" ==> matches == [d]
    ensures device != "" ==> canon(device).Canonical?
    ensures device != "" && tree.device(d).Some? ==> tree.device(d) == Some(canon(device).path)
    ensures device != "" && tree.device(d).None? ==> matches == [d]
  {
    if device != "" && canon(device).Canonical? { HitsExact(matches, canon(device).path, tree.device, d); }
  }

  // ---------------------------------------------------------------- resolving a config

  function DirOf(chip: string, device: string, tree: Tree, canon: Canon): Result<string, LookupError> {
    Lookup(Candidates(tree.entries, chip), device, tree, canon)
  }

  function ResolveSensor(s: Sensor, tree: Tree, canon: Canon): Result<Sensor, LookupError> {
    if s.kind != "hwmon" || s.chip == "" then Ok(s)
    else match DirOf(s.chip, s.device, tree, canon)
      case Err(e) => Err(e)
      case Ok(dir) => if HasHwmonSegment(s.path) then Ok(s.(path := Rewrite(s.path, dir))) else Err(NoSegment)
  }

  function ResolveFan(f: Fan, tree: Tree, canon: Canon): Result<Fan, LookupError> {
    if f.kind != "hwmon" || f.chip == "" then Ok(f)
    else match DirOf(f.chip, f.device, tree, canon)
      case Err(e) => Err(e)
      case Ok(dir) =>
        if !HasHwmonSegment(f.pwm) || (f.rpm != "" && !HasHwmonSegment(f.rpm)) then Err(NoSegment)
        else Ok(f.(pwm := Rewrite(f.pwm, dir), rpm := Rewrite(f.rpm, dir)))
  }

  /** The first entry that does not resolve decides the error; sensors come first. */
  function FirstError(ss: seq<Sensor>, fs: seq<Fan>, tree: Tree, canon: Canon): Option<LookupError> {
    if ss != [] then
      match ResolveSensor(ss[0], tree, canon)
      case Err(e) => Some(e)
      case Ok(_) => FirstError(ss[1..], fs, tree, canon)
    else if fs != [] then
      match ResolveFan(fs[0], tree, canon)
      case Err(e) => Some(e)
      case Ok(_) => FirstError(ss, fs[1..], tree, canon)
    else None
  }

  /** Sensor i fails with `e`, and those before it resolve. */
  ghost predicate SensorFailsFirst(ss: seq<Sensor>, i: int, tree: Tree, canon: Canon, e: LookupError) {
    && 0 <= i < |ss| && ResolveSensor(ss[i], tree, canon) == Err(e)
    && forall j | 0 <= j < i :: ResolveSensor(ss[j], tree, canon).Ok?
  }

  ghost predicate FanFailsFirst(fs: seq<Fan>, i: int, tree: Tree, canon: Canon, e: LookupError) {
    && 0 <= i < |fs| && ResolveFan(fs[i], tree, canon) == Err(e)
    && forall j | 0 <= j < i :: ResolveFan(fs[j], tree, canon).Ok?
  }

  /** The error is that of the first entry that fails, with the sensors before the fans. */
  lemma {:induction false} FirstErrorIsFirst(ss: seq<Sensor>, fs: seq<Fan>, tree: Tree, canon: Canon, e: LookupError)
    ensures FirstError(ss, fs, tree, canon) == Some(e) <==>
            || (exists i :: SensorFailsFirst(ss, i, tree, canon, e))
            || ((forall j | 0 <= j < |ss| :: ResolveSensor(ss[j], tree, canon).Ok?) && exists i :: FanFailsFirst(fs, i, tree, canon, e))
  {
    FirstErrorSplits(ss, fs, tree, canon);
    FirstSensorError(ss, tree, canon, e);
    FirstFanError(fs, tree, canon, e);
    NoErrorMeansAllResolve(ss, [], tree, canon);
  }

  lemma {:induction false} FirstSensorError(ss: seq<Sensor>, tree: Tree, canon: Canon, e: LookupError)
    ensures FirstError(ss, [], tree, canon) == Some(e) <==> exists i :: SensorFailsFirst(ss, i, tree, canon, e)
  {
    if ss != [] {
      var rest := ss[1..];
      FirstSensorError(rest, tree, canon, e);
      assert forall j :: 0 <= j < |rest| ==> rest[j] == ss[j + 1];
      if ResolveSensor(ss[0], tree, canon).Ok? {
        if i :| SensorFailsFirst(rest, i, tree, canon, e) {
          assert forall j :: 0 < j <= i ==> ss[j] == rest[j - 1];
          assert SensorFailsFirst(ss, i + 1, tree, canon, e);
        }
        if i :| SensorFailsFirst(ss, i, tree, canon, e) { assert SensorFailsFirst(rest, i - 1, tree, canon, e); }
      } else if ResolveSensor(ss[0], tree, canon) == Err(e) {
        assert SensorFailsFirst(ss, 0, tree, canon, e);
      }
    }
  }

  lemma {:induction false} FirstFanError(fs: seq<Fan>, tree: Tree, canon: Canon, e: LookupError)
    ensures FirstError([], fs, tree, canon) == Some(e) <==> exists i :: FanFailsFirst(fs, i, tree, canon, e)
  {
    if fs != [] {
      var rest := fs[1..];
      FirstFanError(rest, tree, canon, e);
      assert forall j :: 0 <= j < |rest| ==> rest[j] == fs[j + 1];
      if ResolveFan(fs[0], tree, canon).Ok? {
        if i :| FanFailsFirst(rest, i, tree, canon, e) {
          assert forall j :: 0 < j <= i ==> fs[j] == rest[j - 1];
          assert FanFailsFirst(fs, i + 1, tree, canon, e);
        }
        if i :| FanFailsFirst(fs, i, tree, canon, e) { assert FanFailsFirst(rest, i - 1, tree, canon, e); }
      } else if ResolveFan(fs[0], tree, canon) == Err(e) {
        assert FanFailsFirst(fs, 0, tree, canon, e);
      }
    }
  }

  /** A root that cannot be read is an error even when no entry names a chip. */
  function ResolveError(ss: seq<Sensor>, fs: seq<Fan>, tree: Tree, canon: Canon): Option<LookupError> {
    if tree.readable then FirstError(ss, fs, tree, canon) else Some(RootUnreadable)
  }

  /** Rewrites every resolvable entry in place; on an error the caller must discard the config. */
  method ResolveHwmonPaths(sensors: array<Sensor>, fans: array<Fan>, tree: Tree, canon: Canon)
    returns (err: Option<LookupError>)
    modifies sensors, fans
    ensures err == ResolveError(old(sensors[..]), old(fans[..]), tree, canon)
    ensures !tree.readable ==> sensors[..] == old(sensors[..]) && fans[..] == old(fans[..])
    ensures err.None? ==> forall i | 0 <= i < sensors.Length :: Ok(sensors[i]) == ResolveSensor(old(sensors[i]), tree, canon)
    ensures err.None? ==> forall i | 0 <= i < fans.Length :: Ok(fans[i]) == ResolveFan(old(fans[i]), tree, canon)
  {
    var built := BuildChipMap(tree);
    if built.Err? {
      return Some(built.error);
    }
    var chips := built.value;
    ghost var ss, fs := sensors[..], fans[..];
    FirstErrorSplits(ss, fs, tree, canon);
    err := ResolveSensorPaths(sensors, chips, tree, canon);
    if err.Some? {
      return;
    }
    err := ResolveFanPaths(fans, chips, tree, canon);
  }

  /** `chips` is what BuildChipMap computed for the tree. */
  ghost predicate ChipsOf(chips: map<string, seq<string>>, tree: Tree) {
    forall chip :: chip != "" ==> (if chip in chips then chips[chip] else []) == Candidates(tree.entries, chip)
  }

  lemma SensorStep(ss: seq<Sensor>, i: nat, tree: Tree, canon: Canon)
    requires i < |ss|
    ensures FirstError(ss[i..], [], tree, canon) ==
              match ResolveSensor(ss[i], tree, canon) case Err(e) => Some(e) case Ok(_) => FirstError(ss[i + 1..], [], tree, canon)
  {
    assert ss[i..][1..] == ss[i + 1..] && ss[i..][0] == ss[i];
  }

  lemma FanStep(fs: seq<Fan>, i: nat, tree: Tree, canon: Canon)
    requires i < |fs|
    ensures FirstError([], fs[i..], tree, canon) ==
              match ResolveFan(fs[i], tree, canon) case Err(e) => Some(e) case Ok(_) => FirstError([], fs[i + 1..], tree, canon)
  {
    assert fs[i..][1..] == fs[i + 1..] && fs[i..][0] == fs[i];
  }

  method ResolveSensorPaths(sensors: array<Sensor>, chips: map<string, seq<string>>, tree: Tree, canon: Canon)
    returns (err: Option<LookupError>)
    requires ChipsOf(chips, tree)
    modifies sensors
    ensures err == FirstError(old(sensors[..]), [], tree, canon)
    ensures err.None? ==> forall i | 0 <= i < sensors.Length :: Ok(sensors[i]) == ResolveSensor(old(sensors[i]), tree, canon)
  {
    ghost var ss := sensors[..];
    for i := 0 to sensors.Length
      invariant forall j | 0 <= j < i :: Ok(sensors[j]) == ResolveSensor(ss[j], tree, canon)
      invariant forall j | i <= j < sensors.Length :: sensors[j] == ss[j]
      invariant FirstError(ss, [], tree, canon) == FirstError(ss[i..], [], tree, canon)
    {
      SensorStep(ss, i, tree, canon);
      var s := sensors[i];
      if s.kind != "hwmon" || s.chip == "" {
        continue;
      }
      var dir := LookupChip(s.chip, s.device, chips, tree, canon);
      assert dir == DirOf(s.chip, s.device, tree, canon);
      if dir.Err? {
        return Some(dir.error);
      }
      var path := RewriteHwmonPath(s.path, dir.value);
      if path.None? {
        return Some(NoSegment);
      }
      sensors[i] := s.(path := path.value);
    }
    return None;
  }

  method ResolveFanPaths(fans: array<Fan>, chips: map<string, seq<string>>, tree: Tree, canon: Canon)
    returns (err: Option<LookupError>)
    requires ChipsOf(chips, tree)
    modifies fans
    ensures err == FirstError([], old(fans[..]), tree, canon)
    ensures err.None? ==> forall i | 0 <= i < fans.Length :: Ok(fans[i]) == ResolveFan(old(fans[i]), tree, canon)
  {
    ghost var fs := fans[..];
    for i := 0 to fans.Length
      invariant forall j | 0 <= j < i :: Ok(fans[j]) == ResolveFan(fs[j], tree, canon)
      invariant forall j | i <= j < fans.Length :: fans[j] == fs[j]
      invariant FirstError([], fs, tree, canon) == FirstError([], fs[i..], tree, canon)
    {
      FanStep(fs, i, tree, canon);
      var f := fans[i];
      if f.kind != "hwmon" || f.chip == "" {
        continue;
      }
      var dir := LookupChip(f.chip, f.device, chips, tree, canon);
      assert dir == DirOf(f.chip, f.device, tree, canon);
      if dir.Err? {
        return Some(dir.error);
      }
      var pwm := RewriteHwmonPath(f.pwm, dir.value);
      if pwm.None? {
        return Some(NoSegment);
      }
      fans[i] := f.(pwm := pwm.value);
      if f.rpm != "" {
        var rpm := RewriteHwmonPath(f.rpm, dir.value);
        if rpm.None? {
          return Some(NoSegment);
        }
        fans[i] := fans[i].(rpm := rpm.value);
      }
    }
    return None;
  }

  lemma {:induction false} FirstErrorSplits(ss: seq<Sensor>, fs: seq<Fan>, tree: Tree, canon: Canon)
    ensures FirstError(ss, fs, tree, canon) ==
            if FirstError(ss, [], tree, canon).Some? then FirstError(ss, [], tree, canon) else FirstError([], fs, tree, canon)
  {
    if ss != [] { FirstErrorSplits(ss[1..], fs, tree, canon); }
  }

  // ---------------------------------------------------------------- EnrichChipName

  /** The trimmed content of the name file beside a path, empty when it cannot be read. */
  type Names = Path -> string

  function EnrichSensor(s: Sensor, names: Names): Sensor {
    if s.kind == "hwmon" && s.chip == "" && s.path != "" then s.(chip := names(s.path)) else s
  }

  function EnrichFan(f: Fan, names: Names): Fan {
    if f.kind == "hwmon" && f.chip == "" && f.pwm != "" then f.(chip := names(f.pwm)) else f
  }

  function EnrichSensors(ss: seq<Sensor>, names: Names): seq<Sensor> {
    seq(|ss|, i requires 0 <= i < |ss| => EnrichSensor(ss[i], names))
  }

  function EnrichFans(fs: seq<Fan>, names: Names): seq<Fan> {
    seq(|fs|, i requires 0 <= i < |fs| => EnrichFan(fs[i], names))
  }

  /** Fills in missing chip names in place. */
  method EnrichChipName(sensors: array<Sensor>, fans: array<Fan>, names: Names)
    modifies sensors, fans
    ensures sensors[..] == EnrichSensors(old(sensors[..]), names)
    ensures fans[..] == EnrichFans(old(fans[..]), names)
  {
    ghost var ss, fs := sensors[..], fans[..];
    for i := 0 to sensors.Length
      invariant forall j | 0 <= j < i :: sensors[j] == EnrichSensor(ss[j], names)
      invariant forall j | i <= j < sensors.Length :: sensors[j] == ss[j]
      invariant fans[..] == fs
    {
      var s := sensors[i];
      if s.kind == "hwmon" && s.chip == "" && s.path != "" {
        sensors[i] := s.(chip := names(s.path));
      }
    }
    for i := 0 to fans.Length
      invariant forall j | 0 <= j < i :: fans[j] == EnrichFan(fs[j], names)
      invariant forall j | i <= j < fans.Length :: fans[j] == fs[j]
      invariant sensors[..] == EnrichSensors(ss, names)
    {
      var f := fans[i];
      if f.kind == "hwmon" && f.chip == "" && f.pwm != "" {
        fans[i] := f.(chip := names(f.pwm));
      }
    }
  }

  /** The fan's files lie in directory `d`. */
  predicate LiesIn(f: Fan, d: string) { PointsInto(f.pwm, d) && (f.rpm == "" || PointsInto(f.rpm, d)) }

  /** A fan with a chip name is left as it is exactly when the lookup gives the directory it lies in. */
  lemma ResolvesInPlaceIff(f: Fan, tree: Tree, canon: Canon, d: string)
    requires f.kind == "hwmon" && f.chip != "" && IsHwmonDir(d) && LiesIn(f, d)
    ensures ResolveFan(f, tree, canon) == Ok(f) <==> DirOf(f.chip, f.device, tree, canon) == Ok(d)
  {
    var dir := DirOf(f.chip, f.device, tree, canon);
    EmptyStaysEmpty(f.rpm, d);
    if dir.Ok? {
      DirOfIsHwmonDir(f.chip, f.device, tree, canon, dir.value);
      if Rewrite(f.pwm, dir.value) == f.pwm { RewriteInjective(f.pwm, dir.value, d); }
    }
  }

  /**
   What filling in does for a fan without a chip name that lies in `d`. If no name can be read there
   the resolver is silent, whatever has become of the fan's chip. If a name can be read, the fan
   stays where it is exactly when the lookup picks `d` for that name: so without a configured device
   it adopts whichever chip is in `d` now, as long as no other chip has the name; and with one it
   stays only if the device link of `d` agrees, or cannot be read and `d` is alone.
   */
  lemma {:induction false} FilledInNameStaysIff(f: Fan, names: Names, tree: Tree, canon: Canon, d: string)
    requires f.kind == "hwmon" && f.chip == "" && f.pwm != "" && IsHwmonDir(d) && LiesIn(f, d)
    ensures names(f.pwm) == "" ==> ResolveFan(EnrichFan(f, names), tree, canon) == Ok(f)
    ensures names(f.pwm) != "" ==>
              var g, found := EnrichFan(f, names), Candidates(tree.entries, names(f.pwm));
              && (ResolveFan(g, tree, canon) == Ok(g) <==> DirOf(names(f.pwm), f.device, tree, canon) == Ok(d))
              && (f.device == "" ==> (ResolveFan(g, tree, canon) == Ok(g) <==> found == [d]))
              && (f.device != "" && ResolveFan(g, tree, canon) == Ok(g) ==>
                    canon(f.device).Canonical? && (tree.device(d) == Some(canon(f.device).path) || (tree.device(d).None? && found == [d])))
  {
    if names(f.pwm) != "" {
      var g, found := EnrichFan(f, names), Candidates(tree.entries, names(f.pwm));
      ResolvesInPlaceIff(g, tree, canon, d);
      if Lookup(found, f.device, tree, canon) == Ok(d) { LookupNeverGuesses(found, f.device, tree, canon, d); }
      assert f.device == "" && |found| == 1 ==> found == [found[0]];
    }
  }

  /** The same for a sensor: silent without a readable name, and otherwise decided by the lookup for it. */
  lemma FilledInSensorStaysIff(s: Sensor, names: Names, tree: Tree, canon: Canon, d: string)
    requires s.kind == "hwmon" && s.chip == "" && s.path != "" && IsHwmonDir(d) && PointsInto(s.path, d)
    ensures names(s.path) == "" ==> ResolveSensor(EnrichSensor(s, names), tree, canon) == Ok(s)
    ensures names(s.path) != "" ==>
              && EnrichSensor(s, names) == s.(chip := names(s.path))
              && (ResolveSensor(EnrichSensor(s, names), tree, canon) == Ok(EnrichSensor(s, names)) <==>
                  DirOf(names(s.path), s.device, tree, canon) == Ok(d))
  {
    var dir := DirOf(names(s.path), s.device, tree, canon);
    if names(s.path) != "" && dir.Ok? {
      DirOfIsHwmonDir(names(s.path), s.device, tree, canon, dir.value);
      if Rewrite(s.path, dir.value) == s.path { RewriteInjective(s.path, dir.value, d); }
    }
  }

  // ---------------------------------------------------------------- renumbering

  type Renaming = string -> string

  function Renamed(es: seq<Listing>, pi: Renaming): seq<Listing> {
    seq(|es|, i requires 0 <= i < |es| => es[i].(dir := pi(es[i].dir)))
  }

  function MapDirs(ds: seq<string>, pi: Renaming): seq<string> {
    seq(|ds|, i requires 0 <= i < |ds| => pi(ds[i]))
  }

  /** `t2` holds the same chips as `t1` under other hwmonN names, listed in any order. */
  ghost predicate Renumbered(t1: Tree, t2: Tree, pi: Renaming) {
    && t2.readable == t1.readable
    && multiset(t2.entries) == multiset(Renamed(t1.entries, pi))
    && (forall e :: e in t1.entries ==> (IsHwmonDir(e.dir) <==> IsHwmonDir(pi(e.dir))))
    && (forall e :: e in t1.entries ==> t2.device(pi(e.dir)) == t1.device(e.dir))
  }

  lemma {:induction false} CandidatesOfConcat(a: seq<Listing>, b: seq<Listing>, chip: string)
    ensures Candidates(a + b, chip) == Candidates(a, chip) + Candidates(b, chip)
  {
    if b == [] {
      assert a + b == a;
    } else {
      assert (a + b)[..|a + b| - 1] == a + b[..|b| - 1];
      CandidatesOfConcat(a, b[..|b| - 1], chip);
    }
  }

  lemma WithoutAt<T>(b: seq<T>, k: nat)
    requires k < |b|
    ensures multiset(b[..k] + b[k + 1..]) == multiset(b) - multiset{b[k]}
  {
    assert b == b[..k] + [b[k]] + b[k + 1..];
  }

  lemma IndexOfMember<T>(b: seq<T>, e: T) returns (k: nat)
    requires e in multiset(b)
    ensures k < |b| && b[k] == e
  {
    k :| 0 <= k < |b| && b[k] == e;
  }

  /** The last element of a permutation, and the two lists without it. */
  lemma TakeOut<T>(a: seq<T>, b: seq<T>) returns (k: nat)
    requires a != [] && multiset(a) == multiset(b)
    ensures k < |b| && b[k] == a[|a| - 1] && multiset(a[..|a| - 1]) == multiset(b[..k] + b[k + 1..])
  {
    var n := |a| - 1;
    assert a[n] in a;
    k := IndexOfMember(b, a[n]);
    WithoutAt(b, k);
    WithoutAt(a, n);
    assert a[..n] + a[n + 1..] == a[..n];
  }

  lemma PermutationOfNone<T>(b: seq<T>)
    requires multiset(b) == multiset{}
    ensures b == []
  {
    assert |multiset(b)| == |b|;
  }

  lemma CandidatesAround(b: seq<Listing>, k: nat, chip: string)
    requires k < |b|
    ensures Candidates(b, chip) == Candidates(b[..k], chip) + Candidates([b[k]], chip) + Candidates(b[k + 1..], chip)
    ensures Candidates(b[..k] + b[k + 1..], chip) == Candidates(b[..k], chip) + Candidates(b[k + 1..], chip)
  {
    assert b == b[..k] + [b[k]] + b[k + 1..];
    CandidatesOfConcat(b[..k], b[k + 1..], chip);
    CandidatesOfConcat(b[..k] + [b[k]], b[k + 1..], chip);
    CandidatesOfConcat(b[..k], [b[k]], chip);
  }

  /** The listing order does not change which directories are candidates. */
  lemma {:induction false} CandidatesIgnoreOrder(a: seq<Listing>, b: seq<Listing>, chip: string)
    requires multiset(a) == multiset(b)
    ensures multiset(Candidates(a, chip)) == multiset(Candidates(b, chip))
    decreases |a|
  {
    if a == [] {
      PermutationOfNone(b);
    } else {
      var init, e := a[..|a| - 1], a[|a| - 1];
      var k := TakeOut(a, b);
      CandidatesIgnoreOrder(init, b[..k] + b[k + 1..], chip);
      assert a == init + [e];
      CandidatesOfConcat(init, [e], chip);
      CandidatesAround(b, k, chip);
    }
  }

  lemma RenamedInit(es: seq<Listing>, pi: Renaming)
    requires es != []
    ensures var n, r := |es| - 1, Renamed(es, pi); |r| == n + 1 && r[..n] == Renamed(es[..n], pi) && r[n] == es[n].(dir := pi(es[n].dir))
  {
  }

  lemma {:induction false} CandidatesOfRenamed(es: seq<Listing>, pi: Renaming, chip: string)
    requires forall e :: e in es ==> (IsHwmonDir(e.dir) <==> IsHwmonDir(pi(e.dir)))
    ensures Candidates(Renamed(es, pi), chip) == MapDirs(Candidates(es, chip), pi)
  {
    if es != [] {
      var n := |es| - 1;
      RenamedInit(es, pi);
      CandidatesOfRenamed(es[..n], pi, chip);
      assert es[n] in es;
      if ChipOf(es[n]) == chip { MapDirsOfMore(Candidates(es[..n], chip), es[n].dir, pi); }
    }
  }

  lemma MapDirsOfMore(ds: seq<string>, d: string, pi: Renaming)
    ensures MapDirs(ds + [d], pi) == MapDirs(ds, pi) + [pi(d)]
  {
  }

  lemma {:induction false} CandidatesAreListed(es: seq<Listing>, chip: string)
    ensures forall d :: d in Candidates(es, chip) ==> exists e :: e in es && e.dir == d && ChipOf(e) == chip
  {
    if es != [] {
      assert es == es[..|es| - 1] + [es[|es| - 1]];
      CandidatesAreListed(es[..|es| - 1], chip);
    }
  }

  lemma {:induction false} HitsOfConcat(a: seq<string>, b: seq<string>, want: string, device: string -> Option<string>)
    ensures Hits(a + b, want, device) == Hits(a, want, device) + Hits(b, want, device)
  {
    if b == [] {
      assert a + b == a;
    } else {
      assert (a + b)[..|a + b| - 1] == a + b[..|b| - 1];
      HitsOfConcat(a, b[..|b| - 1], want, device);
    }
  }

  lemma HitsAround(b: seq<string>, k: nat, want: string, device: string -> Option<string>)
    requires k < |b|
    ensures Hits(b, want, device) == Hits(b[..k], want, device) + Hits([b[k]], want, device) + Hits(b[k + 1..], want, device)
    ensures Hits(b[..k] + b[k + 1..], want, device) == Hits(b[..k], want, device) + Hits(b[k + 1..], want, device)
  {
    assert b == b[..k] + [b[k]] + b[k + 1..];
    HitsOfConcat(b[..k], b[k + 1..], want, device);
    HitsOfConcat(b[..k] + [b[k]], b[k + 1..], want, device);
    HitsOfConcat(b[..k], [b[k]], want, device);
  }

  lemma {:induction false} HitsIgnoreOrder(a: seq<string>, b: seq<string>, want: string, device: string -> Option<string>)
    requires multiset(a) == multiset(b)
    ensures multiset(Hits(a, want, device)) == multiset(Hits(b, want, device))
    decreases |a|
  {
    if a == [] {
      PermutationOfNone(b);
    } else {
      var init, e := a[..|a| - 1], a[|a| - 1];
      var k := TakeOut(a, b);
      HitsIgnoreOrder(init, b[..k] + b[k + 1..], want, device);
      assert a == init + [e];
      HitsOfConcat(init, [e], want, device);
      HitsAround(b, k, want, device);
    }
  }

  lemma {:induction false} HitsOfMapped(
    ds: seq<string>, pi: Renaming, want: string, d1: string -> Option<string>, d2: string -> Option<string>)
    requires forall d :: d in ds ==> d2(pi(d)) == d1(d)
    ensures Hits(MapDirs(ds, pi), want, d2) == MapDirs(Hits(ds, want, d1), pi)
  {
    if ds != [] {
      var init, d := ds[..|ds| - 1], ds[|ds| - 1];
      assert ds == init + [d];
      HitsOfMapped(init, pi, want, d1, d2);
      assert MapDirs(ds, pi)[..|init|] == MapDirs(init, pi);
    }
  }

  lemma SingletonBag(a: seq<string>, x: string)
    requires multiset(a) == multiset{x}
    ensures a == [x]
  {
    assert |multiset(a)| == |a|;
    assert a == [a[0]];
    assert a[0] in multiset(a);
  }

  /** `m2` lists the images of `m1`, in any order. */
  ghost predicate SameUpTo(m1: seq<string>, m2: seq<string>, pi: Renaming) {
    |m2| == |m1| && (|m1| == 1 ==> m2 == [pi(m1[0])])
  }

  lemma BagGivesSameUpTo(m1: seq<string>, m2: seq<string>, pi: Renaming)
    requires multiset(m2) == multiset(MapDirs(m1, pi))
    ensures SameUpTo(m1, m2, pi)
  {
    assert |multiset(m2)| == |m2| && |multiset(MapDirs(m1, pi))| == |m1|;
    if |m1| == 1 {
      assert MapDirs(m1, pi) == [pi(m1[0])];
      SingletonBag(m2, pi(m1[0]));
    }
  }

  lemma CandidatesFollow(chip: string, t1: Tree, t2: Tree, pi: Renaming)
    requires Renumbered(t1, t2, pi)
    ensures multiset(Candidates(t2.entries, chip)) == multiset(MapDirs(Candidates(t1.entries, chip), pi))
    ensures forall d :: d in Candidates(t1.entries, chip) ==> t2.device(pi(d)) == t1.device(d)
  {
    CandidatesIgnoreOrder(t2.entries, Renamed(t1.entries, pi), chip);
    CandidatesOfRenamed(t1.entries, pi, chip);
    CandidatesAreListed(t1.entries, chip);
  }

  lemma HitsFollow(m1: seq<string>, m2: seq<string>, want: string, t1: Tree, t2: Tree, pi: Renaming)
    requires multiset(m2) == multiset(MapDirs(m1, pi))
    requires forall d :: d in m1 ==> t2.device(pi(d)) == t1.device(d)
    ensures SameUpTo(Hits(m1, want, t1.device), Hits(m2, want, t2.device), pi)
  {
    HitsIgnoreOrder(m2, MapDirs(m1, pi), want, t2.device);
    HitsOfMapped(m1, pi, want, t1.device, t2.device);
    BagGivesSameUpTo(Hits(m1, want, t1.device), Hits(m2, want, t2.device), pi);
  }

  /** Looking up a chip commutes with the renumbering, errors included. */
  lemma {:induction false} LookupFollowsRenumbering(
    chip: string, device: string, t1: Tree, t2: Tree, pi: Renaming, canon: Canon)
    requires Renumbered(t1, t2, pi)
    ensures match DirOf(chip, device, t1, canon)
            case Ok(d) => DirOf(chip, device, t2, canon) == Ok(pi(d))
            case Err(e) => DirOf(chip, device, t2, canon) == Err(e)
  {
    var m1, m2 := Candidates(t1.entries, chip), Candidates(t2.entries, chip);
    CandidatesFollow(chip, t1, t2, pi);
    BagGivesSameUpTo(m1, m2, pi);
    if device != "" && canon(device).Canonical? { HitsFollow(m1, m2, canon(device).path, t1, t2, pi); }
  }

  lemma DirOfIsHwmonDir(chip: string, device: string, tree: Tree, canon: Canon, d: string)
    requires chip != "" && DirOf(chip, device, tree, canon) == Ok(d)
    ensures IsHwmonDir(d)
  {
    LookupNeverGuesses(Candidates(tree.entries, chip), device, tree, canon, d);
    CandidatesAreListed(tree.entries, chip);
  }

  /**
   A fan that resolves in one tree resolves in every renumbering of it, from the original or from
   the already resolved entry alike, and ends in the directory the same chip now has.
   */
  lemma {:induction false} FanSurvivesRenumbering(f: Fan, t1: Tree, t2: Tree, pi: Renaming, canon: Canon)
    requires Renumbered(t1, t2, pi) && ResolveFan(f, t1, canon).Ok?
    ensures ResolveFan(f, t2, canon).Ok?
    ensures ResolveFan(ResolveFan(f, t1, canon).value, t2, canon) == ResolveFan(f, t2, canon)
    ensures f.kind == "hwmon" && f.chip != "" ==>
              exists d :: DirOf(f.chip, f.device, t1, canon) == Ok(d)
                 && PointsInto(ResolveFan(f, t1, canon).value.pwm, d) && PointsInto(ResolveFan(f, t2, canon).value.pwm, pi(d))
                 && (f.rpm != "" ==> PointsInto(ResolveFan(f, t1, canon).value.rpm, d) && PointsInto(ResolveFan(f, t2, canon).value.rpm, pi(d)))
                 && (f.rpm == "" ==> ResolveFan(f, t1, canon).value.rpm == "")
  {
    if f.kind == "hwmon" && f.chip != "" {
      LookupFollowsRenumbering(f.chip, f.device, t1, t2, pi, canon);
      var d := DirOf(f.chip, f.device, t1, canon).value;
      DirOfIsHwmonDir(f.chip, f.device, t1, canon, d);
      DirOfIsHwmonDir(f.chip, f.device, t2, canon, pi(d));
      RewriteLastWins(f.pwm, d, pi(d));
      RewriteLastWins(f.pwm, d, d);
      RewriteLastWins(f.pwm, pi(d), pi(d));
      RewriteLastWins(f.rpm, d, pi(d));
      RewriteLastWins(f.rpm, d, d);
      RewriteLastWins(f.rpm, pi(d), pi(d));
      EmptyStaysEmpty(f.rpm, d);
    }
  }

  lemma EmptyStaysEmpty(s: string, dir: string)
    ensures Rewrite(s, dir) == "" <==> s == ""
  {
  }

  lemma {:induction false} SensorSurvivesRenumbering(s: Sensor, t1: Tree, t2: Tree, pi: Renaming, canon: Canon)
    requires Renumbered(t1, t2, pi) && ResolveSensor(s, t1, canon).Ok?
    ensures ResolveSensor(s, t2, canon).Ok?
    ensures ResolveSensor(ResolveSensor(s, t1, canon).value, t2, canon) == ResolveSensor(s, t2, canon)
    ensures s.kind == "hwmon" && s.chip != "" ==>
              exists d :: DirOf(s.chip, s.device, t1, canon) == Ok(d)
                 && PointsInto(ResolveSensor(s, t1, canon).value.path, d) && PointsInto(ResolveSensor(s, t2, canon).value.path, pi(d))
  {
    if s.kind == "hwmon" && s.chip != "" {
      LookupFollowsRenumbering(s.chip, s.device, t1, t2, pi, canon);
      var d := DirOf(s.chip, s.device, t1, canon).value;
      DirOfIsHwmonDir(s.chip, s.device, t1, canon, d);
      DirOfIsHwmonDir(s.chip, s.device, t2, canon, pi(d));
      RewriteLastWins(s.path, d, pi(d));
      RewriteLastWins(s.path, d, d);
      RewriteLastWins(s.path, pi(d), pi(d));
    }
  }

  function Value<T>(r: Result<T, LookupError>, default: T): T { match r case Ok(v) => v case Err(_) => default }

  function Sensors(ss: seq<Sensor>, t: Tree, canon: Canon): seq<Sensor> {
    seq(|ss|, i requires 0 <= i < |ss| => Value(ResolveSensor(ss[i], t, canon), ss[i]))
  }

  function Fans(fs: seq<Fan>, t: Tree, canon: Canon): seq<Fan> {
    seq(|fs|, i requires 0 <= i < |fs| => Value(ResolveFan(fs[i], t, canon), fs[i]))
  }

  lemma {:induction false} NoErrorMeansAllResolve(ss: seq<Sensor>, fs: seq<Fan>, t: Tree, canon: Canon)
    ensures FirstError(ss, fs, t, canon).None? <==>
            (forall i | 0 <= i < |ss| :: ResolveSensor(ss[i], t, canon).Ok?) && (forall i | 0 <= i < |fs| :: ResolveFan(fs[i], t, canon).Ok?)
    decreases |ss| + |fs|
  {
    if ss != [] {
      NoErrorMeansAllResolve(ss[1..], fs, t, canon);
      assert forall i | 0 < i < |ss| :: ss[i] == ss[1..][i - 1];
    } else if fs != [] {
      NoErrorMeansAllResolve(ss, fs[1..], t, canon);
      assert forall i | 0 < i < |fs| :: fs[i] == fs[1..][i - 1];
    }
  }

  /**
   A whole config: if it resolves once, it resolves in every renumbered tree, and resolving the
   resolved config there equals resolving the original there.
   */
  lemma {:induction false} ConfigSurvivesRenumbering(
    ss: seq<Sensor>, fs: seq<Fan>, t1: Tree, t2: Tree, pi: Renaming, canon: Canon)
    requires Renumbered(t1, t2, pi) && ResolveError(ss, fs, t1, canon).None?
    ensures ResolveError(ss, fs, t2, canon).None?
    ensures ResolveError(Sensors(ss, t1, canon), Fans(fs, t1, canon), t2, canon).None?
    ensures Sensors(Sensors(ss, t1, canon), t2, canon) == Sensors(ss, t2, canon)
    ensures Fans(Fans(fs, t1, canon), t2, canon) == Fans(fs, t2, canon)
  {
    NoErrorMeansAllResolve(ss, fs, t1, canon);
    NoErrorMeansAllResolve(ss, fs, t2, canon);
    NoErrorMeansAllResolve(Sensors(ss, t1, canon), Fans(fs, t1, canon), t2, canon);
    forall i | 0 <= i < |ss|
      ensures ResolveSensor(ss[i], t2, canon).Ok?
      ensures ResolveSensor(Sensors(ss, t1, canon)[i], t2, canon) == ResolveSensor(ss[i], t2, canon)
    {
      SensorSurvivesRenumbering(ss[i], t1, t2, pi, canon);
    }
    forall i | 0 <= i < |fs|
      ensures ResolveFan(fs[i], t2, canon).Ok?
      ensures ResolveFan(Fans(fs, t1, canon)[i], t2, canon) == ResolveFan(fs[i], t2, canon)
    {
      FanSurvivesRenumbering(fs[i], t1, t2, pi, canon);
    }
  }
}
