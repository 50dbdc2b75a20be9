/**
 Two layers repair a renumbering: config.Load re-anchors by chip name, and the daemon moves its
 controllers when hwmon.ResolvePath finds a configured path gone. Together they lose track: a
 path that Load has re-anchored is there, so nothing moves.
 */
module Reanchoring {
  import opened Common
  import opened Rebind
  import opened Daemon
  import opened DaemonSafety
  import H = HwmonPaths

  /** The file once missing chip names have been filled in. */
  function Enriched(c: Config, names: H.Names): Config {
    c.(fans := H.EnrichFans(c.fans, names), sensors := H.EnrichSensors(c.sensors, names))
  }

  /** A file in which every hwmon entry names its chip, as Save leaves it where names can be read. */
  predicate FullyNamed(c: Config) {
    && (forall i | 0 <= i < |c.fans| :: c.fans[i].kind == "hwmon" ==> c.fans[i].chip != "")
    && (forall i | 0 <= i < |c.sensors| :: c.sensors[i].kind == "hwmon" ==> c.sensors[i].chip != "")
  }

  lemma NothingToFillIn(c: Config, names: H.Names)
    requires FullyNamed(c)
    ensures Enriched(c, names) == c
  {
    assert H.EnrichFans(c.fans, names) == c.fans;
    assert H.EnrichSensors(c.sensors, names) == c.sensors;
  }

  /** What Load makes of the entries, and whether it makes it. */
  function Anchored(c: Config, tree: H.Tree, canon: H.Canon): Config {
    c.(fans := H.Fans(c.fans, tree, canon), sensors := H.Sensors(c.sensors, tree, canon))
  }

  predicate Loads(c: Config, tree: H.Tree, canon: H.Canon) { H.ResolveError(c.sensors, c.fans, tree, canon).None? }

  /** config.Load, after parsing: fill in chip names, then re-anchor; None when it fails. */
  function LoadOf(file: Config, names: H.Names, tree: H.Tree, canon: H.Canon): Option<Config> {
    var named := Enriched(file, names);
    if Loads(named, tree, canon) then Some(Anchored(named, tree, canon)) else None
  }

  // ---------------------------------------------------------------- one fan

  /** What Load makes of one fan. */
  function LoadFan(f: Fan, names: H.Names, tree: H.Tree, canon: H.Canon): Result<Fan, H.LookupError> {
    H.ResolveFan(H.EnrichFan(f, names), tree, canon)
  }

  /** The directory Load writes into a fan's paths; None when it leaves them alone. */
  function DirIn(f: Fan, names: H.Names, tree: H.Tree, canon: H.Canon): Option<string> {
    var chip := H.EnrichFan(f, names).chip;
    if f.kind != "hwmon" || chip == "" then None
    else match H.DirOf(chip, f.device, tree, canon) case Ok(d) => Some(d) case Err(_) => None
  }

  /** Two loads write different directories, or one of them a directory the file does not have. */
  predicate DirectoriesDiffer(pwm: Path, d1: Option<string>, d2: Option<string>) {
    match (d1, d2)
    case (None, None) => false
    case (Some(x), Some(y)) => x != y
    case (Some(x), None) => !H.PointsInto(pwm, x)
    case (None, Some(y)) => !H.PointsInto(pwm, y)
  }

  lemma LoadFanPath(f: Fan, names: H.Names, tree: H.Tree, canon: H.Canon)
    requires LoadFan(f, names, tree, canon).Ok?
    ensures var d := DirIn(f, names, tree, canon);
            && LoadFan(f, names, tree, canon).value.pwm == (if d.None? then f.pwm else H.Rewrite(f.pwm, d.value))
            && (d.Some? ==> H.IsHwmonDir(d.value) && H.HasHwmonSegment(f.pwm))
  {
    var chip := H.EnrichFan(f, names).chip;
    if DirIn(f, names, tree, canon).Some? { H.DirOfIsHwmonDir(chip, f.device, tree, canon, DirIn(f, names, tree, canon).value); }
  }

  /** Two successful loads put a fan on different pwm paths exactly when their directories differ. */
  lemma PathChangesIff(
    f: Fan, n1: H.Names, t1: H.Tree, n2: H.Names, t2: H.Tree, canon: H.Canon)
    requires LoadFan(f, n1, t1, canon).Ok? && LoadFan(f, n2, t2, canon).Ok?
    ensures LoadFan(f, n2, t2, canon).value.pwm != LoadFan(f, n1, t1, canon).value.pwm <==>
            DirectoriesDiffer(f.pwm, DirIn(f, n1, t1, canon), DirIn(f, n2, t2, canon))
  {
    LoadFanPath(f, n1, t1, canon);
    LoadFanPath(f, n2, t2, canon);
    var d1, d2 := DirIn(f, n1, t1, canon), DirIn(f, n2, t2, canon);
    if d1.Some? && d2.Some? && H.Rewrite(f.pwm, d1.value) == H.Rewrite(f.pwm, d2.value) {
      H.RewriteInjective(f.pwm, d1.value, d2.value);
    }
  }

  /** Under a renumbering a fan that names its chip changes path exactly when its chip's directory does. */
  lemma AnchorMovesIff(f: Fan, n1: H.Names, t1: H.Tree, n2: H.Names, t2: H.Tree, pi: H.Renaming, canon: H.Canon)
    requires H.Renumbered(t1, t2, pi) && LoadFan(f, n1, t1, canon).Ok? && f.kind == "hwmon" && f.chip != ""
    ensures LoadFan(f, n2, t2, canon).Ok?
    ensures var d := H.DirOf(f.chip, f.device, t1, canon);
            && d.Ok? && DirIn(f, n1, t1, canon) == Some(d.value) && DirIn(f, n2, t2, canon) == Some(pi(d.value))
            && (LoadFan(f, n2, t2, canon).value.pwm != LoadFan(f, n1, t1, canon).value.pwm <==> pi(d.value) != d.value)
  {
    H.FanSurvivesRenumbering(f, t1, t2, pi, canon);
    H.LookupFollowsRenumbering(f.chip, f.device, t1, t2, pi, canon);
    PathChangesIff(f, n1, t1, n2, t2, canon);
  }

  // ---------------------------------------------------------------- a whole config

  function FanNamed(fans: seq<Fan>, name: string): Option<Fan> {
    if fans == [] then None else if fans[0].name == name then Some(fans[0]) else FanNamed(fans[1..], name)
  }

  ghost predicate AllLoad(fans: seq<Fan>, names: H.Names, tree: H.Tree, canon: H.Canon) {
    forall i | 0 <= i < |fans| :: LoadFan(fans[i], names, tree, canon).Ok?
  }

  lemma {:induction false} TargetOfLoaded(fans: seq<Fan>, name: string, names: H.Names, tree: H.Tree, canon: H.Canon)
    requires AllLoad(fans, names, tree, canon)
    ensures var out := H.Fans(H.EnrichFans(fans, names), tree, canon);
            match FanNamed(fans, name)
            case None => TargetOf(out, name).None?
            case Some(f) => LoadFan(f, names, tree, canon).Ok? && TargetOf(out, name) == Some(LoadFan(f, names, tree, canon).value.pwm)
  {
    if fans != [] {
      var out := H.Fans(H.EnrichFans(fans, names), tree, canon);
      assert LoadFan(fans[0], names, tree, canon).Ok? && out[0].name == fans[0].name;
      if fans[0].name != name {
        assert H.EnrichFans(fans, names)[1..] == H.EnrichFans(fans[1..], names);
        assert out[1..] == H.Fans(H.EnrichFans(fans[1..], names), tree, canon);
        TargetOfLoaded(fans[1..], name, names, tree, canon);
      }
    }
  }

  /** Load fails exactly when the root cannot be read or one of the entries fails. */
  lemma LoadFailsIff(file: Config, names: H.Names, tree: H.Tree, canon: H.Canon)
    ensures LoadOf(file, names, tree, canon).Some? <==>
            && tree.readable && AllLoad(file.fans, names, tree, canon)
            && forall i | 0 <= i < |file.sensors| :: H.ResolveSensor(H.EnrichSensor(file.sensors[i], names), tree, canon).Ok?
  {
    var named := Enriched(file, names);
    H.NoErrorMeansAllResolve(named.sensors, named.fans, tree, canon);
    assert forall i | 0 <= i < |file.fans| :: named.fans[i] == H.EnrichFan(file.fans[i], names);
    assert forall i | 0 <= i < |file.sensors| :: named.sensors[i] == H.EnrichSensor(file.sensors[i], names);
  }

  /** Controller `i` writes another path than the one the live config has for its fan. */
  ghost predicate Stranded(s: State, i: nat) {
    Live(s, i) && TargetOf(s.live.fans, s.controllers[i].fan) != Some(s.controllers[i].path)
  }

  /** The two loads disagree about the directory of the fan with this name. */
  predicate DirectoryChanges(
    fans: seq<Fan>, name: string, n1: H.Names, t1: H.Tree, n2: H.Names, t2: H.Tree, canon: H.Canon)
  {
    match FanNamed(fans, name)
    case None => false
    case Some(f) => DirectoriesDiffer(f.pwm, DirIn(f, n1, t1, canon), DirIn(f, n2, t2, canon))
  }

  lemma TargetChangesIff(
    fans: seq<Fan>, name: string, n1: H.Names, t1: H.Tree, n2: H.Names, t2: H.Tree, canon: H.Canon)
    requires AllLoad(fans, n1, t1, canon) && AllLoad(fans, n2, t2, canon)
    ensures TargetOf(H.Fans(H.EnrichFans(fans, n2), t2, canon), name) != TargetOf(H.Fans(H.EnrichFans(fans, n1), t1, canon), name) <==>
            DirectoryChanges(fans, name, n1, t1, n2, t2, canon)
  {
    TargetOfLoaded(fans, name, n1, t1, canon);
    TargetOfLoaded(fans, name, n2, t2, canon);
    if FanNamed(fans, name).Some? { PathChangesIff(FanNamed(fans, name).value, n1, t1, n2, t2, canon); }
  }

  // ---------------------------------------------------------------- a reload

  lemma StaysInPlace(s: State, now: Config, fs: Sysfs, enable: Path -> int)
    requires s.main == Loading && s.live.controls != [] && AllThere(now, fs)
    ensures var t := MainNext(s, Load(Some(now), Looking(fs), enable));
            t.main == Listening && t.live == now && t.controllers == s.controllers
  {
    NothingGone(now, fs);
  }

  /** What a load of the file under `n2` and `t2` makes of controllers that carry the load under `n1` and `t1`. */
  ghost predicate StrandedExactly(
    s: State, t: State, file: Config, n1: H.Names, t1: H.Tree, n2: H.Names, t2: H.Tree, canon: H.Canon)
  {
    && t.main == Listening && t.controllers == s.controllers
    && (LoadOf(file, n2, t2, canon).None? ==> t.live == s.live)
    && (LoadOf(file, n2, t2, canon).Some? ==>
          && t.live == LoadOf(file, n2, t2, canon).value
          && forall i: nat :: Live(s, i) ==>
               (Stranded(t, i) <==> DirectoryChanges(file.fans, s.controllers[i].fan, n1, t1, n2, t2, canon)))
  }

  /**
   A reload of a file from which the controllers were started, when what Load has re-anchored is
   there. If the load fails nothing changes. Otherwise the daemon sees no move and leaves the
   controllers running, and each of them is stranded if and only if the two loads put its fan into
   different directories.
   */
  lemma {:induction false} ReanchoredReloadStrandsIff(
    s: State, file: Config, n1: H.Names, n2: H.Names, t1: H.Tree, t2: H.Tree, canon: H.Canon, fs: Sysfs, enable: Path -> int)
    requires s.main == Loading && s.live.controls != []
    requires LoadOf(file, n1, t1, canon).Some? && Carries(s, LoadOf(file, n1, t1, canon).value)
    requires LoadOf(file, n2, t2, canon).Some? ==> AllThere(LoadOf(file, n2, t2, canon).value, fs)
    ensures StrandedExactly(s, MainNext(s, Load(LoadOf(file, n2, t2, canon), Looking(fs), enable)), file, n1, t1, n2, t2, canon)
  {
    var loaded := LoadOf(file, n2, t2, canon);
    if loaded.Some? {
      StaysInPlace(s, loaded.value, fs, enable);
      LoadFailsIff(file, n1, t1, canon);
      LoadFailsIff(file, n2, t2, canon);
      forall name ensures TargetOf(loaded.value.fans, name) != TargetOf(LoadOf(file, n1, t1, canon).value.fans, name) <==>
                          DirectoryChanges(file.fans, name, n1, t1, n2, t2, canon)
      {
        TargetChangesIff(file.fans, name, n1, t1, n2, t2, canon);
      }
    }
  }

  lemma Started(s: State, c: Config, started: nat, fs: Sysfs)
    requires Init(s, c, Looking(fs), started) && AllThere(c, fs)
    ensures s.live == c && Carries(s, c) && forall i :: 0 <= i < |s.controllers| ==> Live(s, i)
  {
    NothingGone(c, fs);
    SpawnedShape(c.fans, c.controls[..started], 0);
    assert forall i | 0 <= i < |s.controllers| :: s.controllers[i] in s.controllers;
  }

  lemma SameCarries(s: State, u: State, c: Config)
    requires u.controllers == s.controllers && Carries(s, c)
    ensures Carries(u, c) && forall i :: Live(s, i) ==> Live(u, i)
  {
    assert forall i :: Live(u, i) ==> Live(s, i);
  }

  /** A run: the daemon starts from the file, sysfs changes, and a reload of the file comes. */
  lemma {:induction false} ReloadAfterStartStrandsIff(
    s: State, file: Config, started: nat, n1: H.Names, n2: H.Names, t1: H.Tree, t2: H.Tree, canon: H.Canon,
    before: Sysfs, after: Sysfs, enable: Path -> int)
    requires LoadOf(file, n1, t1, canon).Some? && AllThere(LoadOf(file, n1, t1, canon).value, before)
    requires LoadOf(file, n2, t2, canon).Some? ==> AllThere(LoadOf(file, n2, t2, canon).value, after)
    requires Init(s, LoadOf(file, n1, t1, canon).value, Looking(before), started) && s.main == Listening && file.controls != []
    ensures Follows(s)
    ensures var loaded := LoadOf(file, n2, t2, canon);
            var t := AfterReload(s, loaded, Looking(after), enable);
            && Run(Anything(), s, ReloadOf(s, loaded, Looking(after), enable), t)
            && StrandedExactly(s, t, file, n1, t1, n2, t2, canon)
  {
    var was := LoadOf(file, n1, t1, canon).value;
    Started(s, was, started, before);
    ReloadRuns(s, LoadOf(file, n2, t2, canon), Looking(after), enable);
    var u := MainNext(OutsideNext(s, Trigger(s.req.world)), Receive);
    SameCarries(s, u, was);
    ReanchoredReloadStrandsIff(u, file, n1, n2, t1, t2, canon, after, enable);
    assert forall i: nat :: Live(s, i) <==> Live(u, i);
  }

  /**
   The renumbering of a file whose hwmon entries all name their chips: the load succeeds again, and
   a controller is stranded if and only if the renumbering gives its fan's chip another directory.
   */
  lemma {:induction false} RenumberAfterStartStrandsIff(
    s: State, file: Config, started: nat, n1: H.Names, n2: H.Names, t1: H.Tree, t2: H.Tree, pi: H.Renaming, canon: H.Canon,
    before: Sysfs, after: Sysfs, enable: Path -> int, i: nat, f: Fan)
    requires H.Renumbered(t1, t2, pi) && FullyNamed(file) && LoadOf(file, n1, t1, canon).Some?
    requires AllThere(LoadOf(file, n1, t1, canon).value, before)
    requires LoadOf(file, n2, t2, canon).Some? ==> AllThere(LoadOf(file, n2, t2, canon).value, after)
    requires Init(s, LoadOf(file, n1, t1, canon).value, Looking(before), started) && s.main == Listening && file.controls != []
    requires i < |s.controllers| && FanNamed(file.fans, s.controllers[i].fan) == Some(f)
    ensures LoadOf(file, n2, t2, canon).Some?
    ensures Stranded(AfterReload(s, LoadOf(file, n2, t2, canon), Looking(after), enable), i) <==>
            && f.kind == "hwmon" && H.DirOf(f.chip, f.device, t1, canon).Ok?
            && pi(H.DirOf(f.chip, f.device, t1, canon).value) != H.DirOf(f.chip, f.device, t1, canon).value
  {
    NamedFileLoadsAgain(file, n1, n2, t1, t2, pi, canon);
    ReloadAfterStartStrandsIff(s, file, started, n1, n2, t1, t2, canon, before, after, enable);
    Started(s, LoadOf(file, n1, t1, canon).value, started, before);
    FanNamedIn(file.fans, s.controllers[i].fan);
    LoadFailsIff(file, n1, t1, canon);
    if f.kind == "hwmon" { AnchorMovesIff(f, n1, t1, n2, t2, pi, canon); }
  }

  lemma {:induction false} FanNamedIn(fans: seq<Fan>, name: string)
    ensures FanNamed(fans, name).Some? ==> exists i :: 0 <= i < |fans| && fans[i] == FanNamed(fans, name).value
  {
    if fans != [] && fans[0].name != name {
      FanNamedIn(fans[1..], name);
      if i :| 0 <= i < |fans[1..]| && Some(fans[1..][i]) == FanNamed(fans, name) { assert fans[i + 1] == fans[1..][i]; }
    }
  }

  lemma NamedFileLoadsAgain(
    file: Config, n1: H.Names, n2: H.Names, t1: H.Tree, t2: H.Tree, pi: H.Renaming, canon: H.Canon)
    requires H.Renumbered(t1, t2, pi) && FullyNamed(file) && LoadOf(file, n1, t1, canon).Some?
    ensures LoadOf(file, n2, t2, canon).Some?
  {
    NothingToFillIn(file, n1);
    NothingToFillIn(file, n2);
    H.ConfigSurvivesRenumbering(file.sensors, file.fans, t1, t2, pi, canon);
  }
}
