/**
 A directory that changes hands: hwmon numbers are renumbered so that the directory a fan's file
 paths name now holds another chip. Whether the next load is refused, re-anchors the fan or leaves
 it in the directory is decided by what is known before the renumbering.
 */
module TradedIndices {
  import opened Common
  import opened Rebind
  import opened Daemon
  import opened DaemonSafety
  import opened Reanchoring
  import H = HwmonPaths

  /** What a load does with a fan whose files lie in directory `d`. */
  datatype Fate = Refused(error: H.LookupError) | Stays | Moves(dir: string)

  /** From what the lookup finds, for the chip name the load goes by. */
  function FateBy(chip: string, device: string, d: string, tree: H.Tree, canon: H.Canon): Fate {
    if chip == "" then Stays
    else match H.DirOf(chip, device, tree, canon)
      case Err(e) => Refused(e)
      case Ok(x) => if x == d then Stays else Moves(x)
  }

  /** The fate of a fan is what Load makes of it. */
  lemma FateIsWhatLoads(f: Fan, d: string, names: H.Names, tree: H.Tree, canon: H.Canon)
    requires f.kind == "hwmon" && H.IsHwmonDir(d) && H.LiesIn(f, d)
    ensures match FateBy(H.EnrichFan(f, names).chip, f.device, d, tree, canon)
            case Refused(e) => LoadFan(f, names, tree, canon) == Err(e)
            case Stays => LoadFan(f, names, tree, canon) == Ok(H.EnrichFan(f, names))
            case Moves(x) =>
              && LoadFan(f, names, tree, canon).Ok? && LoadFan(f, names, tree, canon).value.pwm != f.pwm
              && H.PointsInto(LoadFan(f, names, tree, canon).value.pwm, x)
  {
    var g := H.EnrichFan(f, names);
    if g.chip != "" {
      H.ResolvesInPlaceIff(g, tree, canon, d);
      var dir := H.DirOf(g.chip, g.device, tree, canon);
      H.EmptyStaysEmpty(f.rpm, d);
      if dir.Ok? {
        H.DirOfIsHwmonDir(g.chip, g.device, tree, canon, dir.value);
        H.RewriteLastWins(f.pwm, dir.value, dir.value);
        if H.Rewrite(f.pwm, dir.value) == f.pwm { H.RewriteInjective(f.pwm, dir.value, d); }
      }
    }
  }

  // ---------------------------------------------------------------- names in a tree

  predicate DistinctDirs(es: seq<H.Listing>) { forall i, j | 0 <= i < j < |es| :: es[i].dir != es[j].dir }

  ghost predicate Listed(es: seq<H.Listing>, d: string) { exists e :: e in es && e.dir == d }

  /** The chip name in directory `d`, empty when there is none to be read. */
  function NameAt(es: seq<H.Listing>, d: string): string {
    if es == [] then "" else if es[0].dir == d then H.ChipOf(es[0]) else NameAt(es[1..], d)
  }

  lemma {:induction false} NameAtEntry(es: seq<H.Listing>, e: H.Listing)
    requires DistinctDirs(es) && e in es
    ensures NameAt(es, e.dir) == H.ChipOf(e)
  {
    if es[0] != e {
      var i :| 0 <= i < |es| && es[i] == e;
      assert es[0].dir != es[i].dir;
      assert es[1..][i - 1] == e;
      NameAtEntry(es[1..], e);
    }
  }

  lemma RenamedEntry(t1: H.Tree, t2: H.Tree, pi: H.Renaming, e: H.Listing)
    requires H.Renumbered(t1, t2, pi) && e in t1.entries
    ensures e.(dir := pi(e.dir)) in t2.entries && H.ChipOf(e.(dir := pi(e.dir))) == H.ChipOf(e)
  {
    var i :| 0 <= i < |t1.entries| && t1.entries[i] == e;
    var renamed := H.Renamed(t1.entries, pi);
    assert renamed[i] == e.(dir := pi(e.dir));
    assert renamed[i] in multiset(renamed);
  }

  /** The chip names move with the renumbering. */
  lemma NameMoves(t1: H.Tree, t2: H.Tree, pi: H.Renaming, d: string)
    requires H.Renumbered(t1, t2, pi) && DistinctDirs(t1.entries) && DistinctDirs(t2.entries) && Listed(t1.entries, d)
    ensures NameAt(t2.entries, pi(d)) == NameAt(t1.entries, d)
  {
    var e :| e in t1.entries && e.dir == d;
    RenamedEntry(t1, t2, pi, e);
    NameAtEntry(t1.entries, e);
    NameAtEntry(t2.entries, e.(dir := pi(d)));
  }

  lemma SameEntry(es: seq<H.Listing>, x: H.Listing, y: H.Listing)
    requires DistinctDirs(es) && x in es && y in es && x.dir == y.dir
    ensures x == y
  {
    var k :| 0 <= k < |es| && es[k] == x;
    var m :| 0 <= m < |es| && es[m] == y;
  }

  lemma OnceInBag(es: seq<H.Listing>, e: H.Listing)
    requires DistinctDirs(es) && e in es
    ensures multiset(es)[e] == 1
  {
    var i :| 0 <= i < |es| && es[i] == e;
    var rest := es[..i] + es[i + 1..];
    H.WithoutAt(es, i);
    forall k | 0 <= k < |rest| ensures rest[k] != e { assert rest[k] == es[if k < i then k else k + 1]; }
    assert e !in rest;
    assert e !in multiset(rest);
  }

  lemma TwiceInBag(es: seq<H.Listing>, i: nat, j: nat)
    requires i < j < |es| && es[i] == es[j]
    ensures multiset(es)[es[i]] >= 2
  {
    H.WithoutAt(es, j);
    assert (es[..j] + es[j + 1..])[i] == es[i];
    assert es[i] in multiset(es[..j] + es[j + 1..]);
  }

  /** Different directories stay different. */
  lemma RenamingIsInjective(t1: H.Tree, t2: H.Tree, pi: H.Renaming, a: H.Listing, b: H.Listing)
    requires H.Renumbered(t1, t2, pi) && DistinctDirs(t1.entries) && DistinctDirs(t2.entries)
    requires a in t1.entries && b in t1.entries && pi(a.dir) == pi(b.dir)
    ensures a == b
  {
    RenamedEntry(t1, t2, pi, a);
    RenamedEntry(t1, t2, pi, b);
    var x := a.(dir := pi(a.dir));
    SameEntry(t2.entries, x, b.(dir := pi(b.dir)));
    OnceInBag(t2.entries, x);
    OnceRenamed(t1.entries, pi, a, b, x);
  }

  lemma OnceRenamed(es: seq<H.Listing>, pi: H.Renaming, a: H.Listing, b: H.Listing, x: H.Listing)
    requires a in es && b in es && a.(dir := pi(a.dir)) == x == b.(dir := pi(b.dir))
    requires multiset(H.Renamed(es, pi))[x] == 1
    ensures a == b
  {
    var renamed := H.Renamed(es, pi);
    var i :| 0 <= i < |es| && es[i] == a;
    var j :| 0 <= j < |es| && es[j] == b;
    if i < j { TwiceInBag(renamed, i, j); }
    if j < i { TwiceInBag(renamed, j, i); }
  }

  // ---------------------------------------------------------------- the fate, before the renumbering

  /** The renumbering puts what was in `d2` into `d`; both trees list each directory once. */
  ghost predicate TakesOver(t1: H.Tree, t2: H.Tree, pi: H.Renaming, d2: string, d: string) {
    && H.Renumbered(t1, t2, pi) && DistinctDirs(t1.entries) && DistinctDirs(t2.entries)
    && Listed(t1.entries, d2) && pi(d2) == d
  }

  function MovedBy(fate: Fate, pi: H.Renaming): Fate {
    match fate
    case Moves(x) => Moves(pi(x))
    case _ => fate
  }

  /** The chip name a load goes by once `d` holds what was in `d2`: the fan's own, or the one found there. */
  function NameUsed(f: Fan, t1: H.Tree, d2: string): string { if f.chip == "" then NameAt(t1.entries, d2) else f.chip }

  /**
   The fate of a fan in `d` after the renumbering is the fate it would have had before it in `d2`,
   under the chip name the load goes by.
   */
  lemma FateAfterRenumbering(
    f: Fan, d2: string, d: string, names: H.Names, t1: H.Tree, t2: H.Tree, pi: H.Renaming, canon: H.Canon)
    requires TakesOver(t1, t2, pi, d2, d) && f.kind == "hwmon" && f.pwm != "" && names(f.pwm) == NameAt(t2.entries, d)
    ensures FateBy(H.EnrichFan(f, names).chip, f.device, d, t2, canon) ==
            MovedBy(FateBy(NameUsed(f, t1, d2), f.device, d2, t1, canon), pi)
  {
    var chip := NameUsed(f, t1, d2);
    NameMoves(t1, t2, pi, d2);
    if chip != "" {
      H.LookupFollowsRenumbering(chip, f.device, t1, t2, pi, canon);
      var dir := H.DirOf(chip, f.device, t1, canon);
      if dir.Ok? && pi(dir.value) == d {
        H.LookupNeverGuesses(H.Candidates(t1.entries, chip), f.device, t1, canon, dir.value);
        H.CandidatesAreListed(t1.entries, chip);
        var a :| a in t1.entries && a.dir == dir.value;
        var b :| b in t1.entries && b.dir == d2;
        RenamingIsInjective(t1, t2, pi, a, b);
      }
    }
  }

  /** The configured device is that of directory `d` and of no other. */
  ghost predicate OwnDevice(f: Fan, d: string, tree: H.Tree, canon: H.Canon) {
    && Listed(tree.entries, d) && f.device != "" && canon(f.device).Canonical?
    && forall e :: e in tree.entries ==> (tree.device(e.dir) == Some(canon(f.device).path) <==> e.dir == d)
  }

  lemma {:induction false} CandidatesOnce(es: seq<H.Listing>, chip: string, d: string)
    requires DistinctDirs(es)
    ensures multiset(H.Candidates(es, chip))[d] <= 1
    ensures d in H.Candidates(es, chip) <==> exists e :: e in es && e.dir == d && H.ChipOf(e) == chip
  {
    if es != [] {
      var init, last := es[..|es| - 1], es[|es| - 1];
      assert es == init + [last];
      CandidatesOnce(init, chip, d);
      if e :| e in init && e.dir == d {
        var i :| 0 <= i < |init| && init[i] == e;
        assert es[i].dir != last.dir;
      }
    }
  }

  lemma {:induction false} HitsOnly(ds: seq<string>, want: string, device: string -> Option<string>, d: string)
    requires forall x :: x in ds && device(x) == Some(want) ==> x == d
    requires multiset(ds)[d] <= 1 && device(d) == Some(want)
    ensures H.Hits(ds, want, device) == if d in ds then [d] else []
  {
    if ds != [] {
      var init, last := ds[..|ds| - 1], ds[|ds| - 1];
      assert ds == init + [last];
      HitsOnly(init, want, device, d);
    }
  }

  /** A lookup for a device that only `d` has: `d` if it has the name, else the one candidate without a readable link. */
  lemma OwnDeviceLookup(chip: string, f: Fan, d: string, tree: H.Tree, canon: H.Canon)
    requires DistinctDirs(tree.entries) && OwnDevice(f, d, tree, canon) && chip != ""
    ensures var found := H.Candidates(tree.entries, chip);
            H.DirOf(chip, f.device, tree, canon) ==
              if found == [] then Err(H.NoChip)
              else if NameAt(tree.entries, d) == chip then Ok(d)
              else if |found| == 1 && tree.device(found[0]).None? then Ok(found[0])
              else Err(H.Mismatch)
  {
    var found, want := H.Candidates(tree.entries, chip), canon(f.device).path;
    var e :| e in tree.entries && e.dir == d;
    NameAtEntry(tree.entries, e);
    CandidatesOnce(tree.entries, chip, d);
    H.CandidatesAreListed(tree.entries, chip);
    HitsOnly(found, want, tree.device, d);
    if g :| g in tree.entries && g.dir == d && H.ChipOf(g) == chip { NameAtEntry(tree.entries, g); }
  }

  lemma NameIsCandidate(es: seq<H.Listing>, d: string)
    requires DistinctDirs(es) && Listed(es, d) && NameAt(es, d) != ""
    ensures d in H.Candidates(es, NameAt(es, d))
  {
    var e :| e in es && e.dir == d;
    NameAtEntry(es, e);
    CandidatesOnce(es, NameAt(es, d), d);
  }

  /** Directory `d2` alone has its chip name. */
  predicate Alone(es: seq<H.Listing>, d2: string) { H.Candidates(es, NameAt(es, d2)) == [d2] }

  lemma AloneIff(es: seq<H.Listing>, d2: string)
    requires DistinctDirs(es) && Listed(es, d2) && NameAt(es, d2) != ""
    ensures Alone(es, d2) <==> |H.Candidates(es, NameAt(es, d2))| == 1
    ensures H.Candidates(es, NameAt(es, d2)) != []
  {
    NameIsCandidate(es, d2);
  }

  /**
   A fan in `d` with its own chip there and another chip taking `d` over. Its fate is decided by the
   tree before the renumbering:
   a fan that names its chip always moves;
   one that names neither chip nor device never moves, and stays exactly when no name can be read
   in `d` now or the name found there is unique;
   one that names its device but no chip stays exactly when no name can be read, or the name is
   another one, unique, and the device link of its directory cannot be read; it moves exactly when the
   other chip has the same name; and otherwise the load is refused.
   */
  lemma TakenOverFanIff(f: Fan, d: string, d2: string, t1: H.Tree, t2: H.Tree, pi: H.Renaming, canon: H.Canon, names: H.Names)
    requires TakesOver(t1, t2, pi, d2, d) && d2 != d && f.kind == "hwmon" && f.pwm != "" && names(f.pwm) == NameAt(t2.entries, d)
    ensures var fate := FateBy(H.EnrichFan(f, names).chip, f.device, d, t2, canon);
            var own, other := NameAt(t1.entries, d), NameAt(t1.entries, d2);
            && (f.chip != "" && H.DirOf(f.chip, f.device, t1, canon) == Ok(d) ==> fate == Moves(pi(d)))
            && (f.chip == "" && f.device == "" ==>
                  && !fate.Moves?
                  && (fate.Stays? <==> other == "" || Alone(t1.entries, d2)))
            && (f.chip == "" && OwnDevice(f, d, t1, canon) ==>
                  && (fate.Stays? <==> other == "" || (other != own && Alone(t1.entries, d2) && t1.device(d2).None?))
                  && (fate.Moves? <==> other != "" && other == own)
                  && (fate.Moves? ==> fate == Moves(pi(d))))
  {
    FateAfterRenumbering(f, d2, d, names, t1, t2, pi, canon);
    var other := NameAt(t1.entries, d2);
    if f.chip == "" && other != "" {
      AloneIff(t1.entries, d2);
      if OwnDevice(f, d, t1, canon) { OwnDeviceLookup(other, f, d, t1, canon); }
    }
  }

  // ---------------------------------------------------------------- the reload

  /**
   The reload after `d` has been taken over, for a controller bound to a fan's path in `d`. It goes
   on writing that path, whose directory now holds the other chip. If the fan's fate, as decided
   before the renumbering, is to be refused, or another entry's is, the live config stays as it was;
   otherwise the reload is taken in place, and the controller is stranded if and only if the fan moves.
   */
  lemma {:induction false} TakenOverReload(
    s: State, file: Config, n1: H.Names, n2: H.Names, t1: H.Tree, t2: H.Tree, pi: H.Renaming, canon: H.Canon,
    fs: Sysfs, enable: Path -> int, i: nat, f: Fan, d: string, d2: string)
    requires TakesOver(t1, t2, pi, d2, d) && n2(f.pwm) == NameAt(t2.entries, d)
    requires s.main == Loading && s.live.controls != []
    requires LoadOf(file, n1, t1, canon).Some? && Carries(s, LoadOf(file, n1, t1, canon).value)
    requires LoadOf(file, n2, t2, canon).Some? ==> AllThere(LoadOf(file, n2, t2, canon).value, fs)
    requires Live(s, i) && FanNamed(file.fans, s.controllers[i].fan) == Some(f) && s.controllers[i].path == f.pwm
    requires f.kind == "hwmon" && H.IsHwmonDir(d) && H.LiesIn(f, d)
    ensures var fate := FateBy(NameUsed(f, t1, d2), f.device, d2, t1, canon);
            var t := MainNext(s, Load(LoadOf(file, n2, t2, canon), Looking(fs), enable));
            && t.main == Listening && t.controllers == s.controllers
            && (fate.Refused? ==> t.live == s.live)
            && (LoadOf(file, n2, t2, canon).None? ==> t.live == s.live)
            && (LoadOf(file, n2, t2, canon).Some? ==> (Stranded(t, i) <==> fate.Moves?))
  {
    ReanchoredReloadStrandsIff(s, file, n1, n2, t1, t2, canon, fs, enable);
    FateIsWhatLoads(f, d, n2, t2, canon);
    FateAfterRenumbering(f, d2, d, n2, t1, t2, pi, canon);
    FanNamedIn(file.fans, s.controllers[i].fan);
    LoadFailsIff(file, n2, t2, canon);
    if LoadOf(file, n2, t2, canon).Some? { TargetOfLoaded(file.fans, s.controllers[i].fan, n2, t2, canon); }
  }
}
