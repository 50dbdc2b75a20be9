/**
 Watchdog coverage: which of the paths the controllers drive have an entry for the exit Restore.
 */
module DaemonCoverage {
  import opened Common
  import opened Rebind
  import opened Daemon
  import opened DaemonSafety
  import W = FanWatchdog

  // ---------------------------------------------------------------- watchdog coverage

  /**
   Every controller of the current cohort, done or not, drives a registered path: so the exit
   Restore covers whatever the last cohort wrote.
   */
  ghost predicate CohortCovered(s: State) {
    forall i | 0 <= i < |s.controllers| && s.controllers[i].cohort == s.cohort :: s.controllers[i].path in s.held
  }

  /** Fans have their own paths, the resolver looks once, and tachometers stay out of the registry. */
  ghost predicate CleanRenumber(held: multiset<Path>, tach: set<Path>, c: Config, r: Resolver) {
    && DistinctPwm(c.fans) && DistinctPwm(ResolveFans(c.fans, r))
    && TachsApart(tach, held, MovesOf(c, r))
    && Settled(r)
  }

  /**
   After a renumber reload a fan's current path is registered if and only if the fan moved, or
   its path was registered before: a fan that is new in the config is driven but never covered.
   */
  lemma {:induction false} RenumberCoversIff(
    held: multiset<Path>, tach: set<Path>, c: Config, r: Resolver, enable: Path -> int, i: nat)
    requires CleanRenumber(held, tach, c, r) && i < |c.fans|
    ensures ResolveFan(c.fans[i], r).pwm in W.Net(held, SwapOps(MovesOf(c, r), enable)) <==>
            ResolveFan(c.fans[i], r).pwm != c.fans[i].pwm || c.fans[i].pwm in held
  {
    var f := c.fans[i];
    var q := ResolveFan(f, r).pwm;
    SettledMovesApart(c, r);
    OneRound(tach, held, MovesOf(c, r), enable, q);
    HopsOfFans(c.fans, r, c.sensors);
    HopsOfFanMoves(c.fans, r, q);
    assert f in c.fans;
    if q == f.pwm {
      forall g | g in c.fans && g.pwm == q ensures g == f { OnlyFanAt(c.fans, i, g); }
      forall g | g in c.fans && ResolveFan(g, r).pwm == q ensures g == f { OnlyFanResolvedAt(c.fans, r, i, g); }
      assert q !in Targets(Hops(MovesOf(c, r)));
      assert q !in multiset(Targets(Hops(MovesOf(c, r))));
    } else {
      assert MovesTo(c.fans, r, q);
      assert q in multiset(Targets(Hops(MovesOf(c, r))));
    }
  }

  lemma OnlyFanAt(fans: seq<Fan>, i: nat, g: Fan)
    requires DistinctPwm(fans) && i < |fans| && g in fans && g.pwm == fans[i].pwm
    ensures g == fans[i]
  {
    var j :| 0 <= j < |fans| && fans[j] == g;
  }

  lemma OnlyFanResolvedAt(fans: seq<Fan>, r: Resolver, i: nat, g: Fan)
    requires DistinctPwm(ResolveFans(fans, r)) && i < |fans| && g in fans
    requires ResolveFan(g, r).pwm == ResolveFan(fans[i], r).pwm
    ensures g == fans[i]
  {
    var j :| 0 <= j < |fans| && fans[j] == g;
    assert ResolveFans(fans, r)[i].pwm == ResolveFans(fans, r)[j].pwm;
  }

  /** A load hands the registry what coverage needs. */
  ghost predicate RegistersAtLoad(tach: set<Path>, s: State, c: Config, r: Resolver) {
    match BranchOf(s.live, c, r)
    case FirstBoot => forall i | 0 <= i < |c.fans| :: c.fans[i].kind != "ipmi"
    case Renumber => CleanRenumber(s.held, tach, c, r) &&
      forall i | 0 <= i < |c.fans| :: ResolveFan(c.fans[i], r).pwm != c.fans[i].pwm || c.fans[i].pwm in s.held
    case InPlace => true
  }

  ghost predicate LoaderRegisters(tach: set<Path>, s: State, l: Label) {
    match l
    case OfMain(Load(Some(c), r, _)) => RegistersAtLoad(tach, s, c, r)
    case _ => true
  }

  ghost predicate AllHeld(c: Config, held: multiset<Path>) {
    forall k | 0 <= k < |c.fans| :: c.fans[k].pwm in held
  }

  ghost predicate CoverInv(s: State) {
    && (forall i | 0 <= i < |s.controllers| :: s.controllers[i].cohort <= s.cohort)
    && CohortCovered(s)
    && (s.main.Draining? ==> AllHeld(s.main.next, s.main.held))
  }

  lemma {:induction false} TargetIsSomeFan(fans: seq<Fan>, name: string)
    ensures TargetOf(fans, name).Some? ==> exists k :: 0 <= k < |fans| && fans[k].pwm == TargetOf(fans, name).value
  {
    if fans != [] && fans[0].name != name {
      TargetIsSomeFan(fans[1..], name);
      if k :| 0 <= k < |fans[1..]| && Some(fans[1..][k].pwm) == TargetOf(fans[1..], name) { assert fans[k + 1] == fans[1..][k]; }
    }
  }

  lemma {:induction false} SpawnedHeld(c: Config, cohort: nat, held: multiset<Path>)
    requires AllHeld(c, held)
    ensures forall k :: k in Spawned(c.fans, c.controls, cohort) ==> k.path in held
  {
    SpawnedShape(c.fans, c.controls, cohort);
    forall k | k in Spawned(c.fans, c.controls, cohort) ensures k.path in held { TargetIsSomeFan(c.fans, k.fan); }
  }

  lemma {:induction false} RegisteredAll(fans: seq<Fan>)
    requires forall i | 0 <= i < |fans| :: fans[i].kind != "ipmi"
    ensures RegisteredPaths(fans) == seq(|fans|, i requires 0 <= i < |fans| => fans[i].pwm)
  {
    if fans != [] {
      RegisteredAll(fans[1..]);
      assert fans[0].kind != "ipmi";
    }
  }

  lemma AllRegistered(c: Config, held: multiset<Path>, before: multiset<Path>)
    requires held == before + multiset(RegisteredPaths(c.fans))
    requires RegisteredPaths(c.fans) == seq(|c.fans|, i requires 0 <= i < |c.fans| => c.fans[i].pwm)
    ensures AllHeld(c, held)
  {
    assert forall k | 0 <= k < |c.fans| :: RegisteredPaths(c.fans)[k] == c.fans[k].pwm;
    assert forall p :: p in RegisteredPaths(c.fans) ==> p in multiset(RegisteredPaths(c.fans));
  }

  lemma CoverSpawn(s: State, t: State, c: Config)
    requires CoverInv(s) && t.controllers == s.controllers + Spawned(c.fans, c.controls, t.cohort)
    requires (t.cohort == s.cohort && s.held <= t.held) || t.cohort == s.cohort + 1
    requires AllHeld(c, t.held) && !t.main.Draining?
    ensures CoverInv(t)
  {
    SpawnedShape(c.fans, c.controls, t.cohort);
    SpawnedHeld(c, t.cohort, t.held);
    var n := |s.controllers|;
    assert forall i | 0 <= i < n :: t.controllers[i] == s.controllers[i];
    assert forall i | n <= i < |t.controllers| :: t.controllers[i] in Spawned(c.fans, c.controls, t.cohort);
    assert forall p :: p in s.held && s.held <= t.held ==> p in t.held;
  }

  lemma CoverFirstBoot(s: State, c: Config, r: Resolver, enable: Path -> int)
    requires CoverInv(s) && s.main == Listening && BranchOf(s.live, c, r) == FirstBoot
    requires forall i | 0 <= i < |c.fans| :: c.fans[i].kind != "ipmi"
    ensures CoverInv(LoadWith(s, c, r, enable))
  {
    var cfg := Resolve(c, r);
    var t := LoadWith(s, c, r, enable);
    RegisteredAll(cfg.fans);
    AllRegistered(cfg, t.held, s.held);
    CoverSpawn(s, t, cfg);
  }

  lemma CoverRenumber(tach: set<Path>, s: State, c: Config, r: Resolver, enable: Path -> int)
    requires CleanRenumber(s.held, tach, c, r)
    requires forall i | 0 <= i < |c.fans| :: ResolveFan(c.fans[i], r).pwm != c.fans[i].pwm || c.fans[i].pwm in s.held
    ensures AllHeld(Resolve(c, r), W.Net(s.held, SwapOps(MovesOf(c, r), enable)))
  {
    forall k | 0 <= k < |c.fans| ensures Resolve(c, r).fans[k].pwm in W.Net(s.held, SwapOps(MovesOf(c, r), enable)) {
      RenumberCoversIff(s.held, tach, c, r, enable, k);
    }
  }

  lemma CoverQuiet(s: State, t: State)
    requires CoverInv(s) && Quiet(s, t)
    ensures CoverInv(t)
  {
  }

  lemma CoverLoad(tach: set<Path>, s: State, c: Config, r: Resolver, enable: Path -> int)
    requires CoverInv(s) && s.main == Listening && RegistersAtLoad(tach, s, c, r)
    ensures CoverInv(LoadWith(s, c, r, enable))
  {
    match BranchOf(s.live, c, r)
    case FirstBoot => CoverFirstBoot(s, c, r, enable);
    case Renumber => CoverRenumber(tach, s, c, r, enable);
    case InPlace =>
  }

  lemma CoverMain(tach: set<Path>, s: State, m: MainStep)
    requires CoverInv(s) && MainEnabled(s, m) && LoaderRegisters(tach, s, OfMain(m)) && (m.Load? || m.DrainDone?)
    ensures CoverInv(MainNext(s, m))
  {
    if m.DrainDone? {
      if !s.cancelled { CoverSpawn(s, Respawn(s), s.main.next); }
    } else if m.loaded.Some? {
      CoverQuiet(s, Loaded(s));
      CoverLoad(tach, Loaded(s), m.loaded.value, m.resolver, m.enable);
    }
  }

  lemma CoverStep(tach: set<Path>, s: State, l: Label)
    requires CoverInv(s) && Enabled(s, l) && LoaderRegisters(tach, s, l)
    ensures CoverInv(Step(s, l))
  {
    if Spawns(l) {
      CoverMain(tach, s, l.main);
    } else {
      QuietStep(s, l);
      CoverQuiet(s, Step(s, l));
    }
  }

  lemma InitCover(s: State, file: Config, r: Resolver, started: nat)
    requires Init(s, file, r, started) && CohortCovered(s)
    ensures CoverInv(s)
  {
    var cfg := Resolve(file, r);
    SpawnedShape(cfg.fans, cfg.controls[..started], 0);
    assert forall i | 0 <= i < |s.controllers| :: s.controllers[i] in s.controllers;
  }

  /** In every reachable state, the exit Restore's included, every path of the current cohort is registered. */
  lemma {:induction false} CohortStaysCovered(
    tach: set<Path>, s: State, file: Config, r: Resolver, started: nat, ls: seq<Label>, t: State)
    requires Init(s, file, r, started) && CohortCovered(s)
    requires Run((u, l) => LoaderRegisters(tach, u, l), s, ls, t)
    ensures CohortCovered(t)
  {
    InitCover(s, file, r, started);
    var ok: Assumption := (u, l) => LoaderRegisters(tach, u, l);
    forall u, l | CoverInv(u) && Enabled(u, l) && ok(u, l) ensures CoverInv(Step(u, l)) { CoverStep(tach, u, l); }
    Invariance(u => CoverInv(u), ok, s, ls, t);
  }

  /**
   Startup registers the paths of the file and resolves afterwards. Its controllers are covered
   if and only if every controlled fan, once resolved, sits on a path the file already named.
   */
  lemma {:induction false} StartupCoveredIff(s: State, file: Config, r: Resolver)
    requires Init(s, file, r, |file.controls|) && AllResolve(Resolve(file, r))
    ensures CohortCovered(s) <==>
            forall i | 0 <= i < |file.controls| ::
              TargetOf(ResolveFans(file.fans, r), file.controls[i].fan).value in RegisteredPaths(file.fans)
  {
    var fans := ResolveFans(file.fans, r);
    assert file.controls[..|file.controls|] == file.controls;
    SpawnedShape(fans, file.controls, 0);
    assert forall p :: p in s.held <==> p in RegisteredPaths(file.fans);
    if CohortCovered(s) {
      forall i | 0 <= i < |file.controls| ensures TargetOf(fans, file.controls[i].fan).value in RegisteredPaths(file.fans) {
        SpawnedComplete(fans, file.controls, 0, i);
        var k := IndexOfSpawned(s, 0, Controller(file.controls[i].fan, TargetOf(fans, file.controls[i].fan).value, 0, Running));
        assert s.controllers[k].path in s.held;
      }
    } else {
      var i :| 0 <= i < |s.controllers| && s.controllers[i].path !in s.held;
      assert s.controllers[i] in s.controllers;
      var k :| k in file.controls && k.fan == s.controllers[i].fan;
      var j :| 0 <= j < |file.controls| && file.controls[j] == k;
    }
  }
}
