/**
 What every run of the daemon keeps of its controllers: one writer per pwm path, and controllers
 that follow a renumber. Each holds under a stated assumption on what the loader and the web
 handlers store; beside it stands the exact condition, and a run in which the daemon leaves it.
 */
module DaemonSafety {
  import opened Common
  import opened Rebind
  import opened Daemon
  import W = FanWatchdog

  // ---------------------------------------------------------------- what a reload does

  /** Some controlled fan of the loaded config has its pwm file elsewhere now. */
  ghost predicate ControlledFanElsewhere(c: Config, r: Resolver) {
    exists f, k :: f in c.fans && k in c.controls && k.fan == f.name && ResolveFan(f, r).pwm != f.pwm
  }

  /**
   The order of the reload switch, from the live config, the loaded one and the resolved paths. A
   daemon without controls that loads some boots, whatever has moved: every fan is registered and the
   controllers start at once. Otherwise it drains exactly when a controlled fan is elsewhere, and
   carries the entries of the moves over. Otherwise only the live config changes.
   */
  lemma LoadSwitch(s: State, c: Config, r: Resolver, enable: Path -> int)
    requires s.main == Loading
    ensures var t, fans := MainNext(s, Load(Some(c), r, enable)), ResolveFans(c.fans, r);
            && t.live == c.(fans := fans, sensors := ResolveSensors(c.sensors, r))
            && (s.live.controls == [] && c.controls != [] ==>
                  && t.main == Listening && t.cohortCancelled == s.cohortCancelled
                  && t.held == s.held + multiset(RegisteredPaths(fans))
                  && t.controllers == s.controllers + Spawned(fans, c.controls, s.cohort))
            && (!(s.live.controls == [] && c.controls != []) ==>
                  && (t.main.Draining? <==> ControlledFanElsewhere(c, r))
                  && t.controllers == s.controllers && t.held == s.held
                  && (if t.main.Draining?
                      then t.main.next == t.live && t.cohortCancelled && t.main.held == W.Net(s.held, SwapOps(MovesOf(c, r), enable))
                      else t.main == Listening && t.cohortCancelled == s.cohortCancelled))
  {
    RespawnExactlyWhenControlledFanMoves(c, r);
  }

  lemma LoadChangesNoMore(s: State, c: Config, r: Resolver, enable: Path -> int)
    requires s.main == Loading
    ensures var t := MainNext(s, Load(Some(c), r, enable));
            && t.req == s.req.(read := s.req.world) && t.token == s.token && t.cohort == s.cohort && t.cancelled == s.cancelled
            && t.web == s.web && t.helpers == s.helpers && t.errs == s.errs && t.probe == s.probe && t.joined == s.joined && t.log == s.log
  {
  }

  /** A load that fails changes nothing but what has been read. */
  lemma FailedLoad(s: State, r: Resolver, enable: Path -> int)
    requires s.main == Loading
    ensures MainNext(s, Load(None, r, enable)) == s.(main := Listening, req := s.req.(read := s.req.world))
  {
  }

  /** A control is bound to the first fan with its name. */
  lemma {:induction false} TargetOfIsFirst(fans: seq<Fan>, name: string, p: Path)
    ensures TargetOf(fans, name) == Some(p) <==>
            exists i :: 0 <= i < |fans| && fans[i].name == name && fans[i].pwm == p && forall j | 0 <= j < i :: fans[j].name != name
  {
    if fans != [] && fans[0].name != name {
      var rest := fans[1..];
      TargetOfIsFirst(rest, name, p);
      assert forall j :: 0 <= j < |rest| ==> rest[j] == fans[j + 1];
      if i :| 0 <= i < |rest| && rest[i].name == name && rest[i].pwm == p && forall j | 0 <= j < i :: rest[j].name != name {
        assert forall j :: 0 < j <= i ==> fans[j] == rest[j - 1];
        assert fans[i + 1].pwm == p;
      }
      if i :| 0 <= i < |fans| && fans[i].name == name && fans[i].pwm == p && forall j | 0 <= j < i :: fans[j].name != name {
        assert rest[i - 1].pwm == p;
      }
    }
  }

  /** How many of the controls resolve. */
  function Resolving(fans: seq<Fan>, controls: seq<Control>): nat {
    if controls == [] then 0
    else Resolving(fans, controls[..|controls| - 1]) + if TargetOf(fans, controls[|controls| - 1].fan).Some? then 1 else 0
  }

  /** One controller for each control that resolves, in the order of the controls. */
  lemma {:induction false} SpawnedInOrder(fans: seq<Fan>, controls: seq<Control>, cohort: nat)
    ensures |Spawned(fans, controls, cohort)| == Resolving(fans, controls)
    ensures forall i | 0 <= i < |controls| && TargetOf(fans, controls[i].fan).Some? ::
              && Resolving(fans, controls[..i]) < Resolving(fans, controls)
              && Spawned(fans, controls, cohort)[Resolving(fans, controls[..i])] ==
                 Controller(controls[i].fan, TargetOf(fans, controls[i].fan).value, cohort, Running)
  {
    if controls != [] {
      var n := |controls| - 1;
      SpawnedInOrder(fans, controls[..n], cohort);
      forall i | 0 <= i < n ensures controls[..n][..i] == controls[..i] && controls[..n][i] == controls[i] {}
    }
  }

  /** The registry takes every fan's path but those of IPMI fans, each as often as it occurs. */
  lemma {:induction false} RegisteredPathsExact(fans: seq<Fan>, p: Path)
    ensures p in RegisteredPaths(fans) <==> exists f :: f in fans && f.kind != "ipmi" && f.pwm == p
    ensures (forall f :: f in fans ==> f.kind != "ipmi") ==> |RegisteredPaths(fans)| == |fans|
  {
    if fans != [] {
      assert fans == [fans[0]] + fans[1..];
      RegisteredPathsExact(fans[1..], p);
    }
  }

  /** A resolver for which only files of device `key` have moved. */
  ghost predicate OnlyDevice(r: Resolver, key: string) { forall p: Path, d: string :: r(p, d).Some? ==> d == key }

  /**
   A device event matters exactly when the device's arrival could move something: the live config
   names the device if and only if some resolver that moves only its files reports a move.
   */
  lemma {:induction false} DeviceMattersIff(c: Config, key: string)
    ensures HasDevice(c, key) <==> exists r :: OnlyDevice(r, key) && MovesOf(c, r) != []
  {
    if HasDevice(c, key) {
      var r: Resolver := (p, d) => if d == key then Some(p + "'") else None;
      DeviceMoves(c, key, r);
    }
    if r :| OnlyDevice(r, key) && MovesOf(c, r) != [] { MoveNamesDevice(c, key, r, MovesOf(c, r)[0]); }
  }

  lemma DeviceMoves(c: Config, key: string, r: Resolver)
    requires HasDevice(c, key) && forall p, d :: r(p, d) == if d == key then Some(p + "'") else None
    ensures OnlyDevice(r, key) && MovesOf(c, r) != []
  {
    if i :| 0 <= i < |c.fans| && c.fans[i].kind == "hwmon" && c.fans[i].device != "" && c.fans[i].device == key {
      var f := c.fans[i];
      assert |ResolveFan(f, r).pwm| == |f.pwm| + 1;
      FanMovesExact(c.fans, r, FanMoveOf(f, r));
      assert FanMoveOf(f, r) in FanMoves(c.fans, r);
    } else {
      var i :| 0 <= i < |c.sensors| && c.sensors[i].kind == "hwmon" && c.sensors[i].device != "" && c.sensors[i].device == key;
      var s := c.sensors[i];
      var m := Move(SensorMove, s.name, s.path, s.path + "'", "", "");
      SensorMovesExact(c.sensors, r, m);
      assert m in SensorMoves(c.sensors, r);
    }
  }

  lemma MoveNamesDevice(c: Config, key: string, r: Resolver, m: Move)
    requires OnlyDevice(r, key) && m in MovesOf(c, r)
    ensures HasDevice(c, key)
  {
    if m in FanMoves(c.fans, r) {
      FanMovesExact(c.fans, r, m);
      var f :| f in c.fans && ResolveFan(f, r) != f;
      var i :| 0 <= i < |c.fans| && c.fans[i] == f;
    } else {
      SensorMovesExact(c.sensors, r, m);
      var s :| s in c.sensors && s.kind == "hwmon" && s.device != "" && r(s.path, s.device).Some?;
      var i :| 0 <= i < |c.sensors| && c.sensors[i] == s;
    }
  }

  // ---------------------------------------------------------------- which steps there are

  /**
   Nobody outside main waits for it: whatever main does, a running controller may write or fail, the
   web server may fail, handlers may store any config, the world may change, reloads may be asked for,
   the parent may cancel, and goroutines that nothing waits for may write.
   */
  lemma OthersActAnyTime(s: State, i: nat, c: Config, p: Path, key: string)
    ensures i < |s.controllers| && s.controllers[i].phase == Running ==>
              Enabled(s, OfController(i, Write)) && Enabled(s, OfController(i, Fail))
    ensures s.web == Running ==> Enabled(s, OfWeb(WebFail))
    ensures Enabled(s, OfWeb(WebStore(c))) && Enabled(s, OfWriter(OutsiderWrite(p))) && Enabled(s, OfWriter(EnvelopeWrite(p)))
    ensures Enabled(s, OfOutside(ParentCancel)) && Enabled(s, OfOutside(Changed)) && Enabled(s, OfOutside(Request))
    ensures Enabled(s, OfOutside(DeviceAdded(key))) && forall v: nat :: v <= s.req.world ==> Enabled(s, OfOutside(Trigger(v)))
    ensures s.helpers > 0 ==> Enabled(s, OfWriter(HelperWrite(p))) && Enabled(s, OfWriter(HelperExit))
    ensures s.probe != [] ==> Enabled(s, OfWriter(ProbeNext))
  {
  }

  /** What the select loop may do next: any signal, a cancelled context, an error, a token; a load may yield anything. */
  lemma MainActsIff(s: State, loaded: Option<Config>, r: Resolver, enable: Path -> int)
    ensures s.main == Listening <==> Enabled(s, OfMain(Sighup(loaded)))
    ensures s.main == Listening <==> Enabled(s, OfMain(Terminate))
    ensures s.main == Listening && s.cancelled <==> Enabled(s, OfMain(NoticeCancel))
    ensures s.main == Listening && s.errs > 0 <==> Enabled(s, OfMain(TakeError))
    ensures s.main == Listening && s.token <==> Enabled(s, OfMain(Receive))
    ensures s.main == Loading <==> Enabled(s, OfMain(Load(loaded, r, enable)))
  {
  }

  /**
   Who ends when: a controller without an error only once it has been told to, the web server only
   once main stops it, both with an error only while errCh has room; and main goes on only when
   everybody it waits for has returned.
   */
  lemma EndsOnlyWhenTold(s: State, i: nat)
    requires i < |s.controllers|
    ensures Enabled(s, OfController(i, Exit)) <==>
            s.controllers[i].phase == Running && (s.cancelled || s.cohortCancelled || s.controllers[i].cohort != s.cohort)
    ensures Enabled(s, OfController(i, Send)) <==> s.controllers[i].phase == Failing && s.errs < s.cap
    ensures Enabled(s, OfWeb(WebStop)) <==> s.web == Running && s.main == Stopping
    ensures Enabled(s, OfWeb(WebSend)) <==> s.web == Failing && s.errs < s.cap
    ensures Enabled(s, OfMain(DrainDone)) || Enabled(s, OfMain(StopDone)) ==>
              s.controllers[i].cohort == s.cohort ==> s.controllers[i].phase == Done
    ensures Enabled(s, OfMain(StopDone)) ==> s.web == Done && s.helpers == 0
    ensures Enabled(s, OfMain(Unwound)) <==> s.main == Unwinding && s.probe == []
  {
  }

  /** A signal to stop, a noticed cancellation and a received error end the service. */
  predicate Stops(l: Label) { l == OfMain(Terminate) || l == OfMain(NoticeCancel) || l == OfMain(TakeError) }

  ghost predicate Ending(s: State) { s.cancelled && (s.main == Stopping || s.main == Unwinding || s.main == Restored) }

  lemma EndingStep(s: State, l: Label)
    requires Enabled(s, l) && (Ending(s) || Stops(l))
    ensures Ending(Step(s, l))
  {
  }

  /** Once one of them has happened the daemon never listens, reloads or drains for a renumber again, in any run. */
  lemma {:induction false} StopsForGood(s: State, ls: seq<Label>, t: State, j: nat)
    requires Run(Anything(), s, ls, t) && j < |ls| && Stops(ls[j])
    ensures Ending(t)
    decreases |ls|
  {
    if j == 0 {
      EndingStep(s, ls[0]);
      StaysEnding(Step(s, ls[0]), ls[1..], t);
    } else {
      StopsForGood(Step(s, ls[0]), ls[1..], t, j - 1);
    }
  }

  lemma StaysEnding(s: State, ls: seq<Label>, t: State)
    requires Ending(s) && Run(Anything(), s, ls, t)
    ensures Ending(t)
  {
    forall u, l | Ending(u) && Enabled(u, l) ensures Ending(Step(u, l)) { EndingStep(u, l); }
    Invariance(u => Ending(u), Anything(), s, ls, t);
  }

  function Count(ls: seq<Label>, p: Label -> bool): nat {
    if ls == [] then 0 else Count(ls[1..], p) + if p(ls[0]) then 1 else 0
  }

  /** A send to restartCh that can fill its slot. */
  predicate Sends(l: Label) { l.OfOutside? && (l.event.Trigger? || l.event.DeviceAdded?) }

  predicate Receives(l: Label) { l == OfMain(Receive) }

  lemma TokenStep(s: State, l: Label)
    requires Enabled(s, l)
    ensures (if Receives(l) then 1 else 0) + (if Step(s, l).token then 1 else 0) <=
            (if Sends(l) then 1 else 0) + (if s.token then 1 else 0)
  {
  }

  /** Each reload uses up a send: in no run are there more reloads than sends. */
  lemma {:induction false} ReloadsAreAskedFor(s: State, ls: seq<Label>, t: State)
    requires Run(Anything(), s, ls, t)
    ensures Count(ls, Receives) + (if t.token then 1 else 0) <= Count(ls, Sends) + (if s.token then 1 else 0)
    decreases |ls|
  {
    if ls != [] {
      TokenStep(s, ls[0]);
      ReloadsAreAskedFor(Step(s, ls[0]), ls[1..], t);
    }
  }

  /** A controller or the web server puts its error on errCh. */
  predicate Reports(l: Label) { (l.OfController? && l.work == Send) || l == OfWeb(WebSend) }

  predicate Takes(l: Label) { l == OfMain(TakeError) }

  /** What a load reads changes. */
  predicate Changes(l: Label) { l.OfOutside? && (l.event.Changed? || l.event.Request? || l.event.DeviceAdded?) }

  lemma CountsStep(s: State, l: Label)
    requires Enabled(s, l)
    ensures Step(s, l).errs + (if Takes(l) then 1 else 0) == s.errs + if Reports(l) then 1 else 0
    ensures Step(s, l).req.world == s.req.world + if Changes(l) then 1 else 0
  {
    if l.OfMain? { CountsMain(s, l.main); }
  }

  lemma CountsMain(s: State, m: MainStep)
    requires MainEnabled(s, m)
    ensures MainNext(s, m).errs + (if m == TakeError then 1 else 0) == s.errs && MainNext(s, m).req.world == s.req.world
  {
  }

  /** Errors on errCh are those reported less those taken, and versions count the changes. */
  lemma {:induction false} CountsAreKept(s: State, ls: seq<Label>, t: State)
    requires Run(Anything(), s, ls, t)
    ensures t.errs + Count(ls, Takes) == s.errs + Count(ls, Reports)
    ensures t.req.world == s.req.world + Count(ls, Changes)
    decreases |ls|
  {
    if ls != [] {
      CountsStep(s, ls[0]);
      CountsAreKept(Step(s, ls[0]), ls[1..], t);
    }
  }

  /** A request raises the version and owes a send for it, and only that send pays it off. */
  lemma RequestsOweASend(s: State, l: Label, v: nat)
    requires Enabled(s, l)
    ensures l == OfOutside(Request) ==> Step(s, l).req.requested == Step(s, l).req.world && Step(s, l).req.world in Step(s, l).req.pending
    ensures v in s.req.pending && v !in Step(s, l).req.pending ==>
              l == OfOutside(Trigger(v)) || (l.OfOutside? && l.event.DeviceAdded? && v == s.req.world + 1)
  {
    if l.OfMain? && l.main.Load? { RequestRead(s, l.main); }
  }

  /** An added device leads to a send exactly when the live config could follow it, and always changes the world. */
  lemma DeviceEventSends(s: State, key: string)
    ensures var t := OutsideNext(s, DeviceAdded(key));
            && t.req.world == s.req.world + 1
            && (if exists r :: OnlyDevice(r, key) && MovesOf(s.live, r) != []
                then t.token && t.req.requested == t.req.world && t.req.asked >= t.req.world
                else t.token == s.token && t.req.requested == s.req.requested && t.req.asked == s.req.asked)
  {
    DeviceMattersIff(s.live, key);
  }

  /** The send for version v has happened, and a reload that reads at least v is done or to come. */
  ghost predicate Served(s: State, v: nat) { s.token || s.main == Loading || s.req.read >= v }

  lemma ServedStep(s: State, l: Label, v: nat)
    requires Enabled(s, l) && v <= s.req.world && s.req.read <= s.req.world && (Served(s, v) || l == OfOutside(Trigger(v)))
    ensures Served(Step(s, l), v) && v <= Step(s, l).req.world && Step(s, l).req.read <= Step(s, l).req.world
  {
    if l.OfMain? { ServedMain(s, l.main, v); }
  }

  lemma ServedMain(s: State, m: MainStep, v: nat)
    requires MainEnabled(s, m) && v <= s.req.world && s.req.read <= s.req.world && Served(s, v)
    ensures Served(MainNext(s, m), v) && v <= MainNext(s, m).req.world && MainNext(s, m).req.read <= MainNext(s, m).req.world
  {
    if m.Load? { RequestRead(s, m); }
  }

  lemma RequestRead(s: State, m: MainStep)
    requires MainEnabled(s, m) && m.Load?
    ensures MainNext(s, m).req == ReadNow(s.req)
  {
  }

  /**
   Every send is served, stated on the steps of a run: after a send for version v, whether it filled
   the slot or was dropped, a reload has read v or a later version, or is about to.
   */
  lemma {:induction false} EverySendIsServed(s: State, ls: seq<Label>, t: State, j: nat, v: nat)
    requires Run(Anything(), s, ls, t) && s.req.read <= s.req.world && j < |ls| && ls[j] == OfOutside(Trigger(v))
    ensures Served(t, v)
    decreases |ls|
  {
    if j > 0 {
      ReadIsPast(s, ls[0]);
      EverySendIsServed(Step(s, ls[0]), ls[1..], t, j - 1, v);
    } else {
      ServedStep(s, ls[0], v);
      forall u, l | (Served(u, v) && v <= u.req.world && u.req.read <= u.req.world) && Enabled(u, l)
        ensures Served(Step(u, l), v) && v <= Step(u, l).req.world && Step(u, l).req.read <= Step(u, l).req.world
      {
        ServedStep(u, l, v);
      }
      Invariance(u => Served(u, v) && v <= u.req.world && u.req.read <= u.req.world, Anything(), Step(s, ls[0]), ls[1..], t);
    }
  }

  lemma ReadIsPast(s: State, l: Label)
    requires Enabled(s, l) && s.req.read <= s.req.world
    ensures Step(s, l).req.read <= Step(s, l).req.world
  {
    if l.OfMain? && l.main.Load? { RequestRead(s, l.main); }
  }

  // ---------------------------------------------------------------- one writer per path

  ghost predicate Live(s: State, i: int) { 0 <= i < |s.controllers| && s.controllers[i].phase != Done }

  ghost predicate SingleWriter(s: State) {
    forall i, j | 0 <= i < j < |s.controllers| && Live(s, i) && Live(s, j) :: s.controllers[i].path != s.controllers[j].path
  }

  ghost predicate DistinctTargets(c: Config, cohort: nat) {
    var cs := Spawned(c.fans, c.controls, cohort);
    forall i, j | 0 <= i < j < |cs| :: cs[i].path != cs[j].path
  }

  predicate SameEmptiness(a: Config, b: Config) { a.controls == [] <==> b.controls == [] }

  /** Only the first-boot branch changes whether Controls is empty; controlled fans are distinct. */
  ghost predicate KeepsEmptiness(s: State, l: Label) {
    match l
    case OfMain(Sighup(loaded)) => loaded.Some? ==> SameEmptiness(loaded.value, s.live)
    case OfMain(Load(loaded, r, _)) =>
      loaded.Some? ==>
        && (forall n: nat :: DistinctTargets(Resolve(loaded.value, r), n))
        && (BranchOf(s.live, loaded.value, r) == InPlace ==> SameEmptiness(loaded.value, s.live))
    case OfWeb(WebStore(cfg)) => SameEmptiness(cfg, s.live)
    case _ => true
  }

  ghost predicate WriterInv(s: State) {
    && OneCohort(s)
    && SingleWriter(s)
    && (Serving(s.main) && s.live.controls == [] ==> AllDone(s))
    && (s.main.Draining? ==> s.live.controls != [] && forall n: nat :: DistinctTargets(s.main.next, n))
  }

  lemma WriterFirstBoot(s: State, c: Config, r: Resolver, enable: Path -> int)
    requires WriterInv(s) && s.main == Listening && BranchOf(s.live, c, r) == FirstBoot
    requires DistinctTargets(Resolve(c, r), s.cohort)
    ensures SingleWriter(LoadWith(s, c, r, enable))
  {
    var cfg := Resolve(c, r);
    SpawnedShape(cfg.fans, cfg.controls, s.cohort);
    assert AllDone(s);
  }

  lemma WriterLoad(s: State, c: Config, r: Resolver, enable: Path -> int)
    requires WriterInv(s) && s.main == Listening
    requires forall n: nat :: DistinctTargets(Resolve(c, r), n)
    requires BranchOf(s.live, c, r) == InPlace ==> SameEmptiness(c, s.live)
    ensures WriterInv(LoadWith(s, c, r, enable))
  {
    OneCohortLoad(s, c, r, enable);
    if BranchOf(s.live, c, r) == FirstBoot {
      assert DistinctTargets(Resolve(c, r), s.cohort);
      WriterFirstBoot(s, c, r, enable);
    }
  }

  lemma WriterRespawn(s: State)
    requires WriterInv(s) && s.main.Draining? && CohortDone(s)
    ensures WriterInv(Respawn(s))
  {
    SpawnedShape(s.main.next.fans, s.main.next.controls, s.cohort + 1);
    assert DistinctTargets(s.main.next, s.cohort + 1);
    assert AllDone(s);
  }

  lemma WriterQuiet(s: State, t: State)
    requires WriterInv(s) && Quiet(s, t) && SameEmptiness(t.live, s.live)
    ensures WriterInv(t)
  {
    assert forall i :: Live(t, i) ==> Live(s, i) && t.controllers[i].path == s.controllers[i].path;
  }

  /** The state in which main goes on after the file has been read. */
  function Loaded(s: State): State { s.(main := Listening, req := ReadNow(s.req)) }

  lemma WriterMain(s: State, m: MainStep)
    requires WriterInv(s) && MainEnabled(s, m) && KeepsEmptiness(s, OfMain(m)) && (m.Load? || m.DrainDone?)
    ensures WriterInv(MainNext(s, m))
  {
    if m.DrainDone? {
      if !s.cancelled { WriterRespawn(s); }
    } else {
      WriterQuiet(s, Loaded(s));
      if m.loaded.Some? { WriterLoad(Loaded(s), m.loaded.value, m.resolver, m.enable); }
    }
  }

  lemma StoredEmptiness(s: State, l: Label)
    requires Enabled(s, l) && KeepsEmptiness(s, l) && !Spawns(l)
    ensures SameEmptiness(Step(s, l).live, s.live)
  {
    if !StoresLive(l) { QuietStep(s, l); }
  }

  lemma WriterStep(s: State, l: Label)
    requires WriterInv(s) && Enabled(s, l) && KeepsEmptiness(s, l)
    ensures WriterInv(Step(s, l))
  {
    if Spawns(l) {
      WriterMain(s, l.main);
    } else {
      QuietStep(s, l);
      StoredEmptiness(s, l);
      WriterQuiet(s, Step(s, l));
    }
  }

  lemma InitWriter(s: State, file: Config, r: Resolver, started: nat)
    requires Init(s, file, r, started) && SingleWriter(s)
    ensures WriterInv(s)
  {
    InitShutdown(s, file, r, started);
    var cfg := Resolve(file, r);
    SpawnedShape(cfg.fans, cfg.controls[..started], 0);
  }

  /** No reachable state has two live controllers on one pwm path. */
  lemma {:induction false} OneWriterPerPath(s: State, file: Config, r: Resolver, started: nat, ls: seq<Label>, t: State)
    requires Init(s, file, r, started) && SingleWriter(s)
    requires Run((u, l) => KeepsEmptiness(u, l), s, ls, t)
    ensures SingleWriter(t) && OneCohort(t)
  {
    InitWriter(s, file, r, started);
    var ok: Assumption := (u, l) => KeepsEmptiness(u, l);
    forall u, l | WriterInv(u) && Enabled(u, l) && ok(u, l) ensures WriterInv(Step(u, l)) { WriterStep(u, l); }
    Invariance(u => WriterInv(u), ok, s, ls, t);
  }

  ghost predicate DistinctPaths(cs: seq<Controller>) {
    forall i, j | 0 <= i < j < |cs| && cs[i].phase != Done && cs[j].phase != Done :: cs[i].path != cs[j].path
  }

  ghost predicate SharePath(a: seq<Controller>, b: seq<Controller>) {
    exists i, j :: 0 <= i < |a| && 0 <= j < |b| && a[i].phase != Done && b[j].phase != Done && a[i].path == b[j].path
  }

  lemma DistinctPathsConcat(a: seq<Controller>, b: seq<Controller>)
    ensures DistinctPaths(a + b) <==> DistinctPaths(a) && DistinctPaths(b) && !SharePath(a, b)
  {
    var c := a + b;
    assert forall i | 0 <= i < |a| :: c[i] == a[i];
    assert forall j | 0 <= j < |b| :: c[|a| + j] == b[j];
    if DistinctPaths(c) {
      forall i, j | 0 <= i < j < |b| && b[i].phase != Done && b[j].phase != Done ensures b[i].path != b[j].path {
        assert c[|a| + i].path != c[|a| + j].path;
      }
      forall i, j | 0 <= i < |a| && 0 <= j < |b| && a[i].phase != Done && b[j].phase != Done ensures a[i].path != b[j].path {
        assert c[i].path != c[|a| + j].path;
      }
    } else {
      var i, j :| 0 <= i < j < |c| && c[i].phase != Done && c[j].phase != Done && c[i].path == c[j].path;
      if j < |a| {
        assert !DistinctPaths(a);
      } else if i < |a| {
        assert b[j - |a|] == c[j];
      } else {
        assert b[i - |a|].path == b[j - |a|].path;
      }
    }
  }

  /** No two controls resolve to the same path. */
  predicate ControlsApart(fans: seq<Fan>, controls: seq<Control>) {
    forall i, j | 0 <= i < j < |controls| ::
      TargetOf(fans, controls[i].fan).None? || TargetOf(fans, controls[i].fan) != TargetOf(fans, controls[j].fan)
  }

  lemma {:induction false} DistinctTargetsIff(fans: seq<Fan>, controls: seq<Control>, cohort: nat)
    ensures DistinctPaths(Spawned(fans, controls, cohort)) <==> ControlsApart(fans, controls)
  {
    if controls != [] {
      var n := |controls| - 1;
      var init, last := controls[..n], controls[n];
      var before := Spawned(fans, init, cohort);
      DistinctTargetsIff(fans, init, cohort);
      ControlsApartLast(fans, controls);
      match TargetOf(fans, last.fan)
      case None => assert before + [] == before;
      case Some(p) =>
        DistinctPathsConcat(before, [Controller(last.fan, p, cohort, Running)]);
        SharesIff(before, fans, init, cohort, Controller(last.fan, p, cohort, Running));
    }
  }

  lemma ControlsApartLast(fans: seq<Fan>, controls: seq<Control>)
    requires controls != []
    ensures var init, last := controls[..|controls| - 1], controls[|controls| - 1];
            && (ControlsApart(fans, controls) ==> ControlsApart(fans, init))
            && (ControlsApart(fans, init) ==>
                  (ControlsApart(fans, controls) <==>
                   TargetOf(fans, last.fan).None? || forall k :: k in init ==> TargetOf(fans, k.fan) != TargetOf(fans, last.fan)))
  {
    var n := |controls| - 1;
    var init, last := controls[..n], controls[n];
    assert forall i | 0 <= i < n :: init[i] == controls[i] && init[i] in init;
    forall k | k in init && TargetOf(fans, last.fan).Some? && ControlsApart(fans, controls)
      ensures TargetOf(fans, k.fan) != TargetOf(fans, last.fan)
    {
      var i :| 0 <= i < n && init[i] == k;
      assert TargetOf(fans, controls[i].fan).None? || TargetOf(fans, controls[i].fan) != TargetOf(fans, controls[n].fan);
    }
  }

  /** A new controller shares a path with the spawned ones exactly when some control resolves to it. */
  lemma SharesIff(cs: seq<Controller>, fans: seq<Fan>, controls: seq<Control>, cohort: nat, c: Controller)
    requires cs == Spawned(fans, controls, cohort) && c.phase != Done
    ensures SharePath(cs, [c]) <==> exists k :: k in controls && TargetOf(fans, k.fan) == Some(c.path)
  {
    SpawnedShape(fans, controls, cohort);
    if SharePath(cs, [c]) {
      var i, j :| 0 <= i < |cs| && 0 <= j < |[c]| && cs[i].phase != Done && [c][j].phase != Done && cs[i].path == [c][j].path;
      assert cs[i] in cs;
    }
    if k :| k in controls && TargetOf(fans, k.fan) == Some(c.path) {
      var i :| 0 <= i < |controls| && controls[i] == k;
      SpawnedComplete(fans, controls, cohort, i);
      var j :| 0 <= j < |cs| && cs[j] == Controller(k.fan, c.path, cohort, Running);
      assert [c][0] == c;
    }
  }

  /** Some live controller drives the path a control of the config resolves to. */
  ghost predicate DrivesTarget(s: State, fans: seq<Fan>, controls: seq<Control>) {
    exists i, k :: Live(s, i) && k in controls && TargetOf(fans, k.fan) == Some(s.controllers[i].path)
  }

  lemma SharesTargetIff(s: State, fans: seq<Fan>, controls: seq<Control>, cohort: nat)
    ensures SharePath(s.controllers, Spawned(fans, controls, cohort)) <==> DrivesTarget(s, fans, controls)
  {
    var a, b := s.controllers, Spawned(fans, controls, cohort);
    SpawnedShape(fans, controls, cohort);
    if SharePath(a, b) {
      var i, j :| 0 <= i < |a| && 0 <= j < |b| && a[i].phase != Done && b[j].phase != Done && a[i].path == b[j].path;
      assert Live(s, i) && b[j] in b;
    }
    if i, k :| Live(s, i) && k in controls && TargetOf(fans, k.fan) == Some(s.controllers[i].path) {
      var n :| 0 <= n < |controls| && controls[n] == k;
      SpawnedComplete(fans, controls, cohort, n);
      var j :| 0 <= j < |b| && b[j] == Controller(k.fan, a[i].path, cohort, Running);
      assert a[i].phase != Done && b[j].phase != Done;
    }
  }

  /**
   Exactly when a first-boot reload keeps the single writer, in terms of the resolved config: no two
   of its controls resolve to one path, and no controller that is still live drives one of them.
   */
  lemma {:induction false} FirstBootKeepsSingleWriterIff(s: State, c: Config, r: Resolver, enable: Path -> int)
    requires s.main == Loading && SingleWriter(s)
    requires BranchOf(s.live, c, r) == FirstBoot
    ensures SingleWriter(MainNext(s, Load(Some(c), r, enable))) <==>
            ControlsApart(ResolveFans(c.fans, r), c.controls) && !DrivesTarget(s, ResolveFans(c.fans, r), c.controls)
  {
    var fans := ResolveFans(c.fans, r);
    var cs := Spawned(fans, c.controls, s.cohort);
    var t := MainNext(s, Load(Some(c), r, enable));
    assert t.controllers == s.controllers + cs;
    DistinctPathsConcat(s.controllers, cs);
    DistinctTargetsIff(fans, c.controls, s.cohort);
    SharesTargetIff(s, fans, c.controls, s.cohort);
    assert SingleWriter(t) <==> DistinctPaths(t.controllers);
    assert SingleWriter(s) <==> DistinctPaths(s.controllers);
  }

  function Never(): Resolver { (p, d) => None }

  /** A config with no controls, as the file looks after a wizard reset. */
  const Emptied: Config := Config([], [], [])

  lemma {:induction false} NothingMoves(c: Config)
    ensures MovesOf(c, Never()) == [] && Resolve(c, Never()) == c
  {
    assert forall f: Fan :: ResolveFan(f, Never()) == f;
    assert ResolveFans(c.fans, Never()) == c.fans;
    assert ResolveSensors(c.sensors, Never()) == c.sensors;
    NoFanMoves(c.fans, Never());
    NoSensorMoves(c.sensors, Never());
  }

  lemma {:induction false} NoFanMoves(fs: seq<Fan>, r: Resolver)
    requires forall f :: f in fs ==> ResolveFan(f, r) == f
    ensures FanMoves(fs, r) == []
  {
    if fs != [] { NoFanMoves(fs[..|fs| - 1], r); }
  }

  lemma {:induction false} NoSensorMoves(ss: seq<Sensor>, r: Resolver)
    requires forall s :: s in ss && s.kind == "hwmon" && s.device != "" ==> r(s.path, s.device).None?
    ensures SensorMoves(ss, r) == []
  {
    if ss != [] { NoSensorMoves(ss[..|ss| - 1], r); }
  }

  /** A requester sends, and main takes the token, reads the file and goes on with it. */
  function ReloadOf(s: State, loaded: Option<Config>, r: Resolver, enable: Path -> int): seq<Label> {
    [OfOutside(Trigger(s.req.world))] + ([OfMain(Receive)] + ([OfMain(Load(loaded, r, enable))] + []))
  }

  ghost function AfterReload(s: State, loaded: Option<Config>, r: Resolver, enable: Path -> int): State
    requires s.main == Listening
  {
    var u := OutsideNext(s, Trigger(s.req.world));
    MainNext(MainNext(u, Receive), Load(loaded, r, enable))
  }

  lemma FirstBootReload(s: State, c: Config, r: Resolver, enable: Path -> int)
    requires s.main == Listening && BranchOf(s.live, c, r) == FirstBoot
    ensures var t := AfterReload(s, Some(c), r, enable);
            && t.main == Listening && t.live == Resolve(c, r) && t.cohort == s.cohort
            && t.errs == s.errs && t.cap == s.cap && t.web == s.web
            && t.controllers == s.controllers + Spawned(Resolve(c, r).fans, c.controls, s.cohort)
  {
  }

  lemma ReloadRuns(s: State, loaded: Option<Config>, r: Resolver, enable: Path -> int)
    requires s.main == Listening
    ensures Run(Anything(), s, ReloadOf(s, loaded, r, enable), AfterReload(s, loaded, r, enable))
  {
    var u := OutsideNext(s, Trigger(s.req.world));
    var v := MainNext(u, Receive);
    var load := Load(loaded, r, enable);
    RunNone(MainNext(v, load));
    RunCons(v, OfMain(load), [], MainNext(v, load));
    RunCons(u, OfMain(Receive), [OfMain(load)] + [], MainNext(v, load));
    RunCons(s, OfOutside(Trigger(s.req.world)), [OfMain(Receive)] + ([OfMain(load)] + []), MainNext(v, load));
  }

  lemma StartedAll(s: State, file: Config, r: Resolver, started: nat)
    requires Init(s, file, r, started) && s.main == Listening
    ensures s.controllers == Spawned(s.live.fans, s.live.controls, 0) && s.cohort == 0
  {
    assert s.live.controls[..|s.live.controls|] == s.live.controls;
  }

  /** A first-boot reload in which nothing moves. */
  lemma SameReload(s: State, c: Config, enable: Path -> int)
    requires s.main == Listening && s.live.controls == [] && c.controls != []
    ensures var t := AfterReload(s, Some(c), Never(), enable);
            t.live == c && t.cohort == s.cohort && t.controllers == s.controllers + Spawned(c.fans, c.controls, s.cohort)
  {
    NothingMoves(c);
    FirstBootReload(s, c, Never(), enable);
  }

  /**
   SIGHUP with an emptied config, then a reload with the old one: the second set of controllers
   joins the first, and every controlled path has two writers. So from every start with controls.
   */
  lemma {:induction false} SighupThenReloadDoubleDrives(s: State, file: Config, r: Resolver, started: nat, enable: Path -> int)
    requires Init(s, file, r, started) && s.main == Listening && s.controllers != []
    ensures var sighup := OfMain(Sighup(Some(Emptied)));
            var u := Step(s, sighup);
            exists t :: Run(Anything(), s, [sighup] + ReloadOf(u, Some(s.live), Never(), enable), t)
               && t.live == s.live && OneCohort(t) && !SingleWriter(t)
  {
    var c := s.live;
    var sighup := OfMain(Sighup(Some(Emptied)));
    var u := Step(s, sighup);
    var t := AfterReload(u, Some(c), Never(), enable);
    StartedAll(s, file, r, started);
    SameReload(u, c, enable);
    DoubleSpawn(s, t, c);
    ReloadRuns(u, Some(c), Never(), enable);
    RunCons(s, sighup, ReloadOf(u, Some(c), Never(), enable), t);
  }

  lemma DoubleSpawn(s: State, t: State, c: Config)
    requires s.controllers == Spawned(c.fans, c.controls, s.cohort) && s.controllers != []
    requires t.controllers == s.controllers + s.controllers && t.cohort == s.cohort
    ensures OneCohort(t) && !SingleWriter(t)
  {
    SpawnedShape(c.fans, c.controls, s.cohort);
    var n := |s.controllers|;
    assert t.controllers[n] == s.controllers[0] && s.controllers[0] in s.controllers;
    assert Live(t, 0) && Live(t, n);
    assert forall i | 0 <= i < |t.controllers| :: t.controllers[i] in s.controllers;
  }

  /** Stores of configs with controls, and loads of such configs that move no controlled fan. */
  ghost predicate KeepsControls(s: State, l: Label) {
    match l
    case OfMain(Sighup(loaded)) => loaded.Some? ==> loaded.value.controls != []
    case OfMain(Load(loaded, r, _)) => loaded.Some? ==> loaded.value.controls != [] && BranchOf(s.live, loaded.value, r) != Renumber
    case OfWeb(WebStore(cfg)) => cfg.controls != []
    case _ => true
  }

  ghost predicate NeverBooted(s: State) { s.controllers == [] && s.live.controls != [] && !s.main.Draining? }

  lemma NeverBootedStep(s: State, l: Label)
    requires NeverBooted(s) && Enabled(s, l)
    ensures NeverBooted(Step(s, l)) <==> KeepsControls(s, l)
  {
    if !Spawns(l) { QuietStep(s, l); }
  }

  /** From `v` some controller can start, without another such store or load. */
  ghost predicate CanStart(v: State) { exists ls, t :: Run(KeepsControls, v, ls, t) && t.controllers != [] }

  lemma NeverStarts(v: State, ls: seq<Label>, t: State)
    requires NeverBooted(v) && Run(KeepsControls, v, ls, t)
    ensures NeverBooted(t)
  {
    forall u, l | NeverBooted(u) && Enabled(u, l) && KeepsControls(u, l) ensures NeverBooted(Step(u, l)) { NeverBootedStep(u, l); }
    Invariance(u => NeverBooted(u), KeepsControls, v, ls, t);
  }

  /** Some config whose control resolves. */
  const OneFan: Config := Config([Fan("fan", "hwmon", "pwm1", "", "", "")], [], [Control("fan", "curve")])

  lemma OneStepStarts(v: State, l: Label)
    requires Enabled(v, l) && KeepsControls(v, l) && Step(v, l).controllers != []
    ensures CanStart(v)
  {
    assert Run(KeepsControls, Step(v, l), [], Step(v, l));
    RunFirst(KeepsControls, v, l, [], Step(v, l));
  }

  lemma StepThenStarts(v: State, l: Label)
    requires Enabled(v, l) && KeepsControls(v, l) && CanStart(Step(v, l))
    ensures CanStart(v)
  {
    var ls, t :| Run(KeepsControls, Step(v, l), ls, t) && t.controllers != [];
    RunFirst(KeepsControls, v, l, ls, t);
  }

  lemma LoadingCanStart(v: State)
    requires v.live.controls == [] && v.main == Loading
    ensures CanStart(v)
  {
    NothingMoves(OneFan);
    assert Spawned(OneFan.fans, OneFan.controls[..0], v.cohort) == [];
    assert TargetOf(OneFan.fans, "fan") == Some("pwm1");
    OneStepStarts(v, OfMain(Load(Some(OneFan), Never(), p => 0)));
  }

  /** With the controls emptied, the next load boots. */
  lemma EmptiedCanStart(v: State)
    requires v.live.controls == [] && Serving(v.main)
    ensures CanStart(v)
  {
    if v.main == Loading {
      LoadingCanStart(v);
    } else {
      var ask := OfOutside(Trigger(v.req.world));
      LoadingCanStart(Step(Step(v, ask), OfMain(Receive)));
      StepThenStarts(Step(v, ask), OfMain(Receive));
      StepThenStarts(v, ask);
    }
  }

  lemma MovedControlHasTarget(c: Config, r: Resolver) returns (i: nat)
    requires ControlledFanMoved(MovesOf(c, r), c.controls)
    ensures i < |c.controls| && TargetOf(ResolveFans(c.fans, r), c.controls[i].fan).Some?
  {
    RespawnExactlyWhenControlledFanMoves(c, r);
    var f, k :| f in c.fans && k in c.controls && k.fan == f.name && ResolveFan(f, r).pwm != f.pwm;
    i :| 0 <= i < |c.controls| && c.controls[i] == k;
    NamedFanHasTarget(c.fans, r, f);
  }

  /** After a move of a controlled fan, the end of the drain boots. */
  lemma MovedCanStart(v: State, c: Config, r: Resolver)
    requires v.main.Draining? && v.main.next == Resolve(c, r) && v.controllers == [] && !v.cancelled
    requires ControlledFanMoved(MovesOf(c, r), c.controls)
    ensures CanStart(v)
  {
    var i := MovedControlHasTarget(c, r);
    SpawnedComplete(ResolveFans(c.fans, r), c.controls, v.cohort + 1, i);
    assert Respawn(v).controllers != [];
    OneStepStarts(v, OfMain(DrainDone));
  }

  lemma {:induction false} NamedFanHasTarget(fans: seq<Fan>, r: Resolver, f: Fan)
    requires f in fans
    ensures TargetOf(ResolveFans(fans, r), f.name).Some?
  {
    if fans[0] != f {
      assert ResolveFans(fans, r)[1..] == ResolveFans(fans[1..], r);
      NamedFanHasTarget(fans[1..], r, f);
    }
  }

  lemma BrokenCanStart(u: State, l: Label)
    requires NeverBooted(u) && Serving(u.main) && !u.cancelled && Enabled(u, l) && !KeepsControls(u, l)
    ensures CanStart(Step(u, l))
  {
    if l.OfMain? && l.main.Load? && l.main.loaded.value.controls != [] {
      MovedCanStart(Step(u, l), l.main.loaded.value, l.main.resolver);
    } else {
      EmptiedCanStart(Step(u, l));
    }
  }

  /**
   A web handler that stores a config with controls into a daemon started without any takes the
   first-boot branch away. No controller starts as long as only configs with controls are stored and
   no controlled fan moves; and exactly the first step that breaks this, a store of a config without
   controls or a load in which a controlled fan moves, makes a start possible again.
   */
  lemma {:induction false} PutPreemptsFirstBoot(
    s: State, file: Config, r: Resolver, started: nat, c: Config, ls: seq<Label>, t: State)
    requires Init(s, file, r, started) && file.controls == [] && c.controls != []
    requires Run(KeepsControls, WebNext(s, WebStore(c)), ls, t)
    ensures t.controllers == []
    ensures Serving(t.main) && !t.cancelled ==> forall l :: Enabled(t, l) ==> (CanStart(Step(t, l)) <==> !KeepsControls(t, l))
  {
    assert Resolve(file, r).controls == [];
    NeverStarts(WebNext(s, WebStore(c)), ls, t);
    if Serving(t.main) && !t.cancelled {
      forall l | Enabled(t, l) ensures CanStart(Step(t, l)) <==> !KeepsControls(t, l) { StartIff(t, l); }
    }
  }

  lemma StartIff(u: State, l: Label)
    requires NeverBooted(u) && Serving(u.main) && !u.cancelled && Enabled(u, l)
    ensures CanStart(Step(u, l)) <==> !KeepsControls(u, l)
  {
    NeverBootedStep(u, l);
    if !KeepsControls(u, l) {
      BrokenCanStart(u, l);
    } else if CanStart(Step(u, l)) {
      var ls, t :| Run(KeepsControls, Step(u, l), ls, t) && t.controllers != [];
      NeverStarts(Step(u, l), ls, t);
    }
  }

  // ---------------------------------------------------------------- following a renumber

  /** Every live controller drives the path its fan has in the live config. */
  ghost predicate Follows(s: State) { Carries(s, s.live) }

  ghost predicate Carries(s: State, c: Config) {
    forall i | Live(s, i) :: TargetOf(c.fans, s.controllers[i].fan) == Some(s.controllers[i].path)
  }

  ghost predicate StillControlled(s: State, c: Config) {
    forall i | Live(s, i) :: exists k :: k in c.controls && k.fan == s.controllers[i].fan
  }

  lemma {:induction false} UnmovedTarget(fans: seq<Fan>, r: Resolver, name: string)
    requires forall f :: f in fans && f.name == name ==> ResolveFan(f, r).pwm == f.pwm
    ensures TargetOf(ResolveFans(fans, r), name) == TargetOf(fans, name)
  {
    if fans != [] {
      assert fans[0] in fans;
      assert ResolveFans(fans, r)[1..] == ResolveFans(fans[1..], r);
      assert forall f :: f in fans[1..] ==> f in fans;
      if fans[0].name != name { UnmovedTarget(fans[1..], r, name); }
    }
  }

  /** When nothing controlled moves, controlled fans keep the path the file gives them. */
  lemma {:induction false} InPlaceTargets(s: State, c: Config, r: Resolver)
    requires !ControlledFanMoved(MovesOf(c, r), c.controls) && StillControlled(s, c)
    ensures Carries(s, Resolve(c, r)) <==> Carries(s, c)
  {
    RespawnExactlyWhenControlledFanMoves(c, r);
    forall i | Live(s, i)
      ensures TargetOf(Resolve(c, r).fans, s.controllers[i].fan) == TargetOf(c.fans, s.controllers[i].fan)
    {
      UnmovedTarget(c.fans, r, s.controllers[i].fan);
    }
  }

  /**
   Exactly when a reload that leaves the controllers running also leaves them on the right path:
   the loaded config, before it is resolved, still carries the paths the cohort is bound to.
   */
  lemma {:induction false} InPlaceReloadFollowsIff(s: State, c: Config, r: Resolver, enable: Path -> int)
    requires s.main == Loading && BranchOf(s.live, c, r) == InPlace && StillControlled(s, c)
    ensures Follows(MainNext(s, Load(Some(c), r, enable))) <==> Carries(s, c)
  {
    var t := MainNext(s, Load(Some(c), r, enable));
    InPlaceTargets(s, c, r);
    assert forall i :: Live(s, i) <==> Live(t, i);
    assert t.controllers == s.controllers;
    assert Carries(t, t.live) <==> Carries(s, Resolve(c, r));
  }

  /** Every control of `next` finds the same path in `c`. */
  ghost predicate SameTargets(next: Config, c: Config) {
    forall k :: k in next.controls ==> TargetOf(c.fans, k.fan) == TargetOf(next.fans, k.fan)
  }

  /**
   What is stored beside or without a respawn carries the paths the live controllers are bound
   to; what a handler stores during a drain carries those of the config main goes on with.
   */
  ghost predicate StoresCarry(s: State, l: Label) {
    match l
    case OfMain(Sighup(loaded)) => loaded.Some? ==> Carries(s, loaded.value)
    case OfMain(Load(loaded, r, _)) =>
      loaded.Some? && BranchOf(s.live, loaded.value, r) == InPlace ==> Carries(s, loaded.value) && StillControlled(s, loaded.value)
    case OfWeb(WebStore(cfg)) => (Serving(s.main) ==> Carries(s, cfg)) && (s.main.Draining? ==> SameTargets(s.main.next, cfg))
    case _ => true
  }

  ghost predicate FollowInv(s: State) {
    && WriterInv(s)
    && (Serving(s.main) ==> Follows(s))
    && (s.main.Draining? ==> SameTargets(s.main.next, s.live))
  }

  lemma FollowFirstBoot(s: State, c: Config, r: Resolver, enable: Path -> int)
    requires WriterInv(s) && s.main == Listening && BranchOf(s.live, c, r) == FirstBoot
    ensures Follows(LoadWith(s, c, r, enable))
  {
    var cfg := Resolve(c, r);
    var t := LoadWith(s, c, r, enable);
    SpawnedShape(cfg.fans, cfg.controls, s.cohort);
    assert AllDone(s);
    assert forall i | |s.controllers| <= i < |t.controllers| :: t.controllers[i] in Spawned(cfg.fans, cfg.controls, s.cohort);
  }

  lemma FollowLoad(s: State, m: MainStep)
    requires FollowInv(s) && s.main == Loading && m.Load? && m.loaded.Some?
    requires KeepsEmptiness(s, OfMain(m)) && StoresCarry(s, OfMain(m))
    ensures FollowInv(MainNext(s, m))
  {
    var c, r := m.loaded.value, m.resolver;
    WriterMain(s, m);
    match BranchOf(s.live, c, r) {
      case FirstBoot =>
        WriterQuiet(s, Loaded(s));
        FollowFirstBoot(Loaded(s), c, r, m.enable);
      case Renumber =>
      case InPlace => InPlaceReloadFollowsIff(s, c, r, m.enable);
    }
  }

  lemma FollowRespawn(s: State)
    requires FollowInv(s) && s.main.Draining? && CohortDone(s)
    ensures Follows(Respawn(s))
  {
    var next := s.main.next;
    SpawnedShape(next.fans, next.controls, s.cohort + 1);
    var t := Respawn(s);
    assert AllDone(s);
    forall i | Live(t, i) ensures TargetOf(t.live.fans, t.controllers[i].fan) == Some(t.controllers[i].path) {
      assert i >= |s.controllers| && t.controllers[i] in Spawned(next.fans, next.controls, s.cohort + 1);
    }
  }

  lemma FollowMain(s: State, m: MainStep)
    requires FollowInv(s) && MainEnabled(s, m) && (m.Load? || m.DrainDone?)
    requires KeepsEmptiness(s, OfMain(m)) && StoresCarry(s, OfMain(m))
    ensures FollowInv(MainNext(s, m))
  {
    if m.DrainDone? {
      WriterMain(s, m);
      if !s.cancelled { FollowRespawn(s); }
    } else if m.loaded.Some? {
      FollowLoad(s, m);
    } else {
      WriterMain(s, m);
      assert forall i :: Live(MainNext(s, m), i) <==> Live(s, i);
    }
  }

  lemma CarriesQuiet(s: State, t: State, c: Config)
    requires Quiet(s, t) && Carries(s, c)
    ensures Carries(t, c)
  {
    assert forall i :: Live(t, i) ==> Live(s, i) && t.controllers[i] == s.controllers[i].(phase := t.controllers[i].phase);
  }

  lemma FollowQuiet(s: State, l: Label)
    requires FollowInv(s) && Enabled(s, l) && KeepsEmptiness(s, l) && StoresCarry(s, l) && !Spawns(l)
    ensures FollowInv(Step(s, l))
  {
    WriterStep(s, l);
    QuietStep(s, l);
    var t := Step(s, l);
    if Serving(t.main) {
      StoredCarries(s, l);
      CarriesQuiet(s, t, t.live);
    }
  }

  lemma StoredCarries(s: State, l: Label)
    requires FollowInv(s) && Enabled(s, l) && StoresCarry(s, l) && !Spawns(l) && Serving(s.main)
    ensures Carries(s, Step(s, l).live)
  {
    if !StoresLive(l) { QuietStep(s, l); }
  }

  lemma FollowStep(s: State, l: Label)
    requires FollowInv(s) && Enabled(s, l) && KeepsEmptiness(s, l) && StoresCarry(s, l)
    ensures FollowInv(Step(s, l))
  {
    if Spawns(l) { FollowMain(s, l.main); } else { FollowQuiet(s, l); }
  }

  /** With such stores, whenever the daemon serves its select loop every live controller follows. */
  lemma {:induction false} ControllersFollow(s: State, file: Config, r: Resolver, started: nat, ls: seq<Label>, t: State)
    requires Init(s, file, r, started) && SingleWriter(s)
    requires Run((u, l) => KeepsEmptiness(u, l) && StoresCarry(u, l), s, ls, t)
    ensures Serving(t.main) ==> Follows(t)
  {
    InitWriter(s, file, r, started);
    var cfg := Resolve(file, r);
    SpawnedShape(cfg.fans, cfg.controls[..started], 0);
    var ok: Assumption := (u, l) => KeepsEmptiness(u, l) && StoresCarry(u, l);
    forall u, l | FollowInv(u) && Enabled(u, l) && ok(u, l) ensures FollowInv(Step(u, l)) { FollowStep(u, l); }
    Invariance(u => FollowInv(u), ok, s, ls, t);
  }

  /** The paths the resolver looks at exist; those of other kinds and those without a device it leaves alone. */
  ghost predicate AllThere(c: Config, fs: Sysfs) {
    && (forall f :: f in c.fans && f.kind == "hwmon" && f.device != "" ==> fs.there(f.pwm) && (f.rpm == "" || fs.there(f.rpm)))
    && (forall s :: s in c.sensors && s.kind == "hwmon" && s.device != "" ==> fs.there(s.path))
  }

  /** Then nothing moves. */
  lemma {:induction false} NothingGone(c: Config, fs: Sysfs)
    requires AllThere(c, fs)
    ensures MovesOf(c, Looking(fs)) == [] && Resolve(c, Looking(fs)) == c
  {
    var r := Looking(fs);
    assert forall f :: f in c.fans ==> ResolveFan(f, r) == f;
    assert forall s :: s in c.sensors && s.kind == "hwmon" && s.device != "" ==> r(s.path, s.device).None?;
    assert ResolveFans(c.fans, r) == c.fans && ResolveSensors(c.sensors, r) == c.sensors;
    NoFanMoves(c.fans, r);
    NoSensorMoves(c.sensors, r);
  }

  lemma {:induction false} SpawnedComplete(fans: seq<Fan>, controls: seq<Control>, cohort: nat, i: nat)
    requires i < |controls| && TargetOf(fans, controls[i].fan).Some?
    ensures Controller(controls[i].fan, TargetOf(fans, controls[i].fan).value, cohort, Running) in Spawned(fans, controls, cohort)
  {
    if i < |controls| - 1 { SpawnedComplete(fans, controls[..|controls| - 1], cohort, i); }
  }

  lemma IndexOfSpawned(s: State, n: nat, c: Controller) returns (j: nat)
    requires n <= |s.controllers| && c in s.controllers[n..]
    ensures j < |s.controllers| && s.controllers[j] == c
  {
    var k :| 0 <= k < |s.controllers[n..]| && s.controllers[n..][k] == c;
    j := n + k;
  }
}
