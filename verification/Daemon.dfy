/**
 The run, reload and shutdown protocol of cmd/ventd (run, runDaemonInternal, controllerSpawner)
 as a step system. A label is one step of one goroutine; a run is any sequence of enabled
 labels, so a statement about runs covers every interleaving.
 */
module Daemon {
  import opened Common
  import opened Rebind
  import W = FanWatchdog

  /** Failing: Run has returned an error (and restored the watchdog) but it is not yet on errCh. */
  datatype Phase = Running | Failing | Done

  /** A controller goroutine; `path` is fixed at construction. */
  datatype Controller = Controller(fan: string, path: Path, cohort: nat, phase: Phase)

  /**
   The main goroutine. Loading: the token is taken and the file not yet read. Draining: the
   renumber branch waits for the cohort, then goes on with config `next`. Stopping: an exit path
   waits for the cohort and the other goroutines. Unwinding: the deferred calls of run() wait
   for the polarity probe.
   */
  datatype Main = Listening | Loading | Draining(next: Config, held: multiset<Path>) | Stopping | Unwinding | Restored

  datatype ProbeAct = Enter(path: Path) | Measure | HandBack(path: Path) | Leave(path: Path)

  /**
   A helper is a goroutine of the daemon's wait group, such as the opportunistic scheduler. An
   outsider is one that nothing waits for: a web handler that outlives the two seconds of Shutdown,
   a calibration sweep, the setup wizard.
   */
  datatype Writer = ByController(index: nat) | ByProbe | ByHelper | ByOutsider | ByEnvelope

  datatype Event = Wrote(who: Writer, path: Path) | RestoredAll(who: Writer) | ExitRestore

  /**
   What reloads are for. `world` numbers the versions of what a load reads (the config file and
   the hwmon tree). A requester raises it first and sends to restartCh afterwards; versions in
   `pending` are raised but not yet sent.
   */
  datatype Requests = Requests(
    world: nat,
    pending: set<nat>,
    requested: nat,              // the latest version somebody asked a reload for
    asked: nat,                  // the latest version whose send has happened
    read: nat                    // the version the last load read
  )

  datatype State = State(
    live: Config,
    main: Main,
    cohort: nat,
    cohortCancelled: bool,
    cancelled: bool,             // the daemon context
    controllers: seq<Controller>,
    web: Phase,
    helpers: nat,                // wait-group goroutines that have not returned yet
    errs: nat,                   // errors waiting in errCh
    cap: nat,                    // capacity of errCh
    token: bool,                 // restartCh holds its one token
    req: Requests,
    joined: bool,                // main has waited for the daemon's wait group
    held: multiset<Path>,        // what the main goroutine holds in the watchdog
    probe: seq<ProbeAct>,        // what the polarity probe still has to do
    log: seq<Event>
  )

  /** The main goroutine. */
  datatype MainStep =
    | Sighup(loaded: Option<Config>)
    | Terminate
    | NoticeCancel
    | TakeError
    | Receive
    | Load(loaded: Option<Config>, resolver: Resolver, enable: Path -> int)
    | DrainDone
    | StopDone
    | Unwound

  /** A controller goroutine. */
  datatype WorkerStep = Write | Exit | Fail | Send

  /** The web server; its handlers store configs at any time, and may outlive it. */
  datatype WebStep = WebFail | WebSend | WebStop | WebStore(cfg: Config)

  /** Whoever cancels the parent context, changes the world or asks for a reload. */
  datatype OutsideStep = ParentCancel | Changed | Request | Trigger(version: nat) | DeviceAdded(key: string)

  /** Goroutines beside the controllers; a helper returns when cancelled, or on an error of its own. */
  datatype WriterStep =
    | HelperWrite(path: Path)
    | HelperExit
    | ProbeWrite(path: Path)
    | ProbeNext
    | OutsiderWrite(path: Path)
    | EnvelopeWrite(path: Path)

  datatype Label =
    | OfMain(main: MainStep)
    | OfController(i: nat, work: WorkerStep)
    | OfWeb(web: WebStep)
    | OfOutside(event: OutsideStep)
    | OfWriter(write: WriterStep)

  // ---------------------------------------------------------------- spawning

  /** resolveControl: the first fan with the control's name. */
  function TargetOf(fans: seq<Fan>, name: string): Option<Path> {
    if fans == [] then None
    else if fans[0].name == name then Some(fans[0].pwm)
    else TargetOf(fans[1..], name)
  }

  function Spawned(fans: seq<Fan>, controls: seq<Control>, cohort: nat): seq<Controller> {
    if controls == [] then []
    else
      var last := controls[|controls| - 1];
      Spawned(fans, controls[..|controls| - 1], cohort) +
      match TargetOf(fans, last.fan)
      case Some(p) => [Controller(last.fan, p, cohort, Running)]
      case None => []
  }

  method ResolveControl(fans: seq<Fan>, name: string) returns (path: Option<Path>)
    ensures path == TargetOf(fans, name)
  {
    var i := 0;
    while i < |fans|
      invariant 0 <= i <= |fans|
      invariant TargetOf(fans, name) == TargetOf(fans[i..], name)
    {
      if fans[i].name == name {
        return Some(fans[i].pwm);
      }
      assert fans[i..][1..] == fans[i + 1..];
      i := i + 1;
    }
    return None;
  }

  /** The lenient loop shared by both reload branches: a control that does not resolve is skipped. */
  method Reconcile(cfg: Config, cohort: nat) returns (spawned: seq<Controller>)
    ensures spawned == Spawned(cfg.fans, cfg.controls, cohort)
  {
    spawned := [];
    for i := 0 to |cfg.controls|
      invariant spawned == Spawned(cfg.fans, cfg.controls[..i], cohort)
    {
      assert cfg.controls[..i + 1][..i] == cfg.controls[..i];
      var path := ResolveControl(cfg.fans, cfg.controls[i].fan);
      if path.None? {
        continue;
      }
      spawned := spawned + [Controller(cfg.controls[i].fan, path.value, cohort, Running)];
    }
    assert cfg.controls[..|cfg.controls|] == cfg.controls;
  }

  // ---------------------------------------------------------------- startup

  /** Fans the registry takes by path; IPMI channels come through RegisterIPMI. */
  function RegisteredPaths(fans: seq<Fan>): seq<Path> {
    if fans == [] then []
    else (if fans[0].kind == "ipmi" then [] else [fans[0].pwm]) + RegisteredPaths(fans[1..])
  }

  ghost predicate AllResolve(c: Config) {
    forall i | 0 <= i < |c.controls| :: TargetOf(c.fans, c.controls[i].fan).Some?
  }

  /**
   The state when the select loop is entered. Paths are registered as the file has them, and
   only then resolved. A control that does not resolve ends startup with an error: the first
   `started` controllers are already running and are drained.
   */
  ghost predicate Init(s: State, file: Config, r: Resolver, started: nat) {
    var cfg := Resolve(file, r);
    && started <= |cfg.controls|
    && s.live == cfg
    && s.held == multiset(RegisteredPaths(file.fans))
    && s.cap == |file.controls| + 1
    && s.cohort == 0
    && s.web == Running
    && s.errs == 0 && !s.token && !s.joined && s.log == []
    && s.req.pending == {} && s.req.requested == 0 && s.req.asked == 0 && s.req.read <= s.req.world
    && s.controllers == Spawned(cfg.fans, cfg.controls[..started], 0)
    && (if AllResolve(cfg)
        then started == |cfg.controls| && s.main == Listening && !s.cancelled && !s.cohortCancelled
        else
          && started < |cfg.controls| && TargetOf(cfg.fans, cfg.controls[started].fan).None?
          && (forall i | 0 <= i < started :: TargetOf(cfg.fans, cfg.controls[i].fan).Some?)
          && s.main == Stopping && s.cancelled && s.cohortCancelled)
  }

  // ---------------------------------------------------------------- steps

  ghost predicate CohortDone(s: State) {
    forall i | 0 <= i < |s.controllers| && s.controllers[i].cohort == s.cohort :: s.controllers[i].phase == Done
  }

  function SetPhase(s: State, i: nat, phase: Phase): State
    requires i < |s.controllers|
  {
    s.(controllers := s.controllers[i := s.controllers[i].(phase := phase)])
  }

  function Stop(s: State): State { s.(main := Stopping, cancelled := true, cohortCancelled := true) }

  /** Some configured hwmon fan or sensor is bound to this device (configHasHwmonDevice). */
  predicate HasDevice(c: Config, key: string) {
    || (exists i | 0 <= i < |c.fans| ::
          c.fans[i].kind == "hwmon" && c.fans[i].device != "" && c.fans[i].device == key)
    || (exists i | 0 <= i < |c.sensors| ::
          c.sensors[i].kind == "hwmon" && c.sensors[i].device != "" && c.sensors[i].device == key)
  }

  datatype Branch = FirstBoot | Renumber | InPlace

  /** Which case of the reload switch is taken. */
  ghost function BranchOf(old_: Config, loaded: Config, r: Resolver): Branch {
    if old_.controls == [] && loaded.controls != [] then FirstBoot
    else if ControlledFanMoved(MovesOf(loaded, r), loaded.controls) then Renumber
    else InPlace
  }

  function Raise(q: Requests): Requests { q.(world := q.world + 1) }

  /** Somebody changes what a load reads and is going to ask for a reload. */
  function RaiseAndOwe(q: Requests): Requests {
    q.(world := q.world + 1, pending := q.pending + {q.world + 1}, requested := q.world + 1)
  }

  /** The send for version `v`, whether the one slot is free or the send is dropped. */
  function SendFor(q: Requests, v: nat): Requests {
    q.(pending := q.pending - {v}, asked := if v > q.asked then v else q.asked)
  }

  function ReadNow(q: Requests): Requests { q.(read := q.world) }

  ghost function LoadWith(s: State, loaded: Config, r: Resolver, enable: Path -> int): (t: State)
    ensures t == s.(live := t.live, main := t.main, held := t.held, controllers := t.controllers, cohortCancelled := t.cohortCancelled)
    ensures t.main == s.main || t.main.Draining?
  {
    var cfg := Resolve(loaded, r);
    var t := s.(live := cfg);
    match BranchOf(s.live, loaded, r)
    case FirstBoot =>
      t.(held := s.held + multiset(RegisteredPaths(cfg.fans)),
      controllers := s.controllers + Spawned(cfg.fans, cfg.controls, s.cohort))
    case Renumber =>
      t.(main := Draining(cfg, W.Net(s.held, SwapOps(MovesOf(loaded, r), enable))), cohortCancelled := true)
    case InPlace => t
  }

  ghost function Respawn(s: State): (t: State)
    requires s.main.Draining?
    ensures t == s.(main := Listening, cohort := t.cohort, cohortCancelled := false, held := t.held, controllers := t.controllers)
  {
    s.(main := Listening, cohort := s.cohort + 1, cohortCancelled := false, held := s.main.held,
    controllers := s.controllers + Spawned(s.main.next.fans, s.main.next.controls, s.cohort + 1))
  }

  ghost predicate MainEnabled(s: State, m: MainStep) {
    match m
    case Sighup(_) => s.main == Listening
    case Terminate => s.main == Listening
    case NoticeCancel => s.main == Listening && s.cancelled
    case TakeError => s.main == Listening && 0 < s.errs
    case Receive => s.main == Listening && s.token
    case Load(_, _, _) => s.main == Loading
    case DrainDone => s.main.Draining? && CohortDone(s)
    case StopDone => s.main == Stopping && CohortDone(s) && s.web == Done && s.helpers == 0
    case Unwound => s.main == Unwinding && s.probe == []
  }

  ghost function MainNext(s: State, m: MainStep): (t: State)
    requires MainEnabled(s, m)
    ensures t.web == s.web && t.helpers == s.helpers && t.cap == s.cap && t.probe == s.probe && t.joined == (s.joined || m.StopDone?)
    ensures t.log == (if m.Unwound? then s.log + [ExitRestore] else s.log) && t.errs <= s.errs
    ensures m.Load? ==> t.main == Listening || t.main.Draining?
    ensures !m.Load? && !m.DrainDone? ==> t.controllers == s.controllers && t.cohort == s.cohort && t.held == s.held
  {
    match m
    case Sighup(loaded) => if loaded.None? then s else s.(live := loaded.value)
    case Terminate => Stop(s)
    case NoticeCancel => Stop(s)
    case TakeError => Stop(s.(errs := s.errs - 1))
    case Receive => s.(main := Loading, token := false)
    case Load(loaded, r, enable) =>
      var t := s.(main := Listening, req := ReadNow(s.req));
      if loaded.None? then t else LoadWith(t, loaded.value, r, enable)
    case DrainDone => if s.cancelled then s.(main := Unwinding) else Respawn(s)
    case StopDone => s.(main := Unwinding, joined := true)
    case Unwound => s.(main := Restored, log := s.log + [ExitRestore])
  }

  predicate WorkEnabled(s: State, i: nat, w: WorkerStep) {
    && i < |s.controllers|
    && match w
       case Write => s.controllers[i].phase == Running
       case Exit => s.controllers[i].phase == Running && (s.cancelled || s.cohortCancelled || s.controllers[i].cohort != s.cohort)
       case Fail => s.controllers[i].phase == Running
       case Send => s.controllers[i].phase == Failing && s.errs < s.cap
  }

  function WorkNext(s: State, i: nat, w: WorkerStep): (t: State)
    requires WorkEnabled(s, i, w)
    ensures t == s.(controllers := t.controllers, errs := t.errs, log := t.log)
  {
    match w
    case Write => s.(log := s.log + [Wrote(ByController(i), s.controllers[i].path)])
    case Exit => SetPhase(s, i, Done).(log := s.log + [RestoredAll(ByController(i))])
    case Fail => SetPhase(s, i, Failing).(log := s.log + [RestoredAll(ByController(i))])
    case Send => SetPhase(s, i, Done).(errs := s.errs + 1)
  }

  predicate WebEnabled(s: State, w: WebStep) {
    match w
    case WebFail => s.web == Running
    case WebSend => s.web == Failing && s.errs < s.cap
    case WebStop => s.web == Running && s.main == Stopping
    case WebStore(_) => true
  }

  function WebNext(s: State, w: WebStep): (t: State)
    requires WebEnabled(s, w)
    ensures t == s.(web := t.web, errs := t.errs, live := t.live)
  {
    match w
    case WebFail => s.(web := Failing)
    case WebSend => s.(web := Done, errs := s.errs + 1)
    case WebStop => s.(web := Done)
    case WebStore(cfg) => s.(live := cfg)
  }

  predicate OutsideEnabled(s: State, e: OutsideStep) { e.Trigger? ==> e.version <= s.req.world }

  function OutsideNext(s: State, e: OutsideStep): (t: State)
    requires OutsideEnabled(s, e)
    ensures t == s.(cancelled := t.cancelled, token := t.token, req := t.req) && (s.cancelled ==> t.cancelled)
  {
    match e
    case ParentCancel => s.(cancelled := true)
    case Changed => s.(req := Raise(s.req))
    case Request => s.(req := RaiseAndOwe(s.req))
    case Trigger(v) => s.(token := true, req := SendFor(s.req, v))
    case DeviceAdded(key) =>
      if HasDevice(s.live, key) then s.(token := true, req := SendFor(RaiseAndOwe(s.req), s.req.world + 1))
      else s.(req := Raise(s.req))
  }

  predicate WriterEnabled(s: State, w: WriterStep) {
    match w
    case HelperWrite(_) => s.helpers > 0
    case HelperExit => s.helpers > 0
    case ProbeWrite(_) => s.probe != [] && s.probe[0] == Measure
    case ProbeNext => s.probe != []
    case OutsiderWrite(_) => true
    case EnvelopeWrite(_) => true
  }

  function WriterNext(s: State, w: WriterStep): (t: State)
    requires WriterEnabled(s, w)
    ensures t == s.(probe := t.probe, helpers := t.helpers, log := t.log)
  {
    match w
    case HelperWrite(p) => s.(log := s.log + [Wrote(ByHelper, p)])
    case HelperExit => s.(helpers := s.helpers - 1)
    case ProbeWrite(p) => s.(log := s.log + [Wrote(ByProbe, p)])
    case ProbeNext =>
      var t := s.(probe := s.probe[1..]);
      if s.probe[0].HandBack? then t.(log := s.log + [Wrote(ByProbe, s.probe[0].path)]) else t
    case OutsiderWrite(p) => s.(log := s.log + [Wrote(ByOutsider, p)])
    case EnvelopeWrite(p) => s.(log := s.log + [Wrote(ByEnvelope, p)])
  }

  ghost predicate Enabled(s: State, l: Label) {
    match l
    case OfMain(m) => MainEnabled(s, m)
    case OfController(i, w) => WorkEnabled(s, i, w)
    case OfWeb(w) => WebEnabled(s, w)
    case OfOutside(e) => OutsideEnabled(s, e)
    case OfWriter(w) => WriterEnabled(s, w)
  }

  ghost function Step(s: State, l: Label): State
    requires Enabled(s, l)
  {
    match l
    case OfMain(m) => MainNext(s, m)
    case OfController(i, w) => WorkNext(s, i, w)
    case OfWeb(w) => WebNext(s, w)
    case OfOutside(e) => OutsideNext(s, e)
    case OfWriter(w) => WriterNext(s, w)
  }

  // ---------------------------------------------------------------- runs

  type Assumption = (State, Label) -> bool

  /** `ls` leads from `s` to `t`, and the environment keeps `ok` at every step. */
  ghost predicate Run(ok: Assumption, s: State, ls: seq<Label>, t: State)
    decreases |ls|
  {
    if ls == [] then s == t
    else Enabled(s, ls[0]) && ok(s, ls[0]) && Run(ok, Step(s, ls[0]), ls[1..], t)
  }

  ghost function Anything(): Assumption { (s, l) => true }

  /** Induction over runs. */
  lemma {:induction false} Invariance(inv: State -> bool, ok: Assumption, s: State, ls: seq<Label>, t: State)
    requires inv(s)
    requires forall u, l :: inv(u) && Enabled(u, l) && ok(u, l) ==> inv(Step(u, l))
    requires Run(ok, s, ls, t)
    ensures inv(t)
    decreases |ls|
  {
    if ls != [] { Invariance(inv, ok, Step(s, ls[0]), ls[1..], t); }
  }

  lemma RunNone(s: State)
    ensures Run(Anything(), s, [], s)
  {
  }

  lemma RunFirst(ok: Assumption, s: State, l: Label, ls: seq<Label>, t: State)
    requires Enabled(s, l) && ok(s, l) && Run(ok, Step(s, l), ls, t)
    ensures Run(ok, s, [l] + ls, t)
  {
    assert ([l] + ls)[1..] == ls;
  }

  lemma RunCons(s: State, l: Label, ls: seq<Label>, t: State)
    requires Enabled(s, l) && Run(Anything(), Step(s, l), ls, t)
    ensures Run(Anything(), s, [l] + ls, t)
  {
    RunFirst(Anything(), s, l, ls, t);
  }

  lemma ConcatTail(a: seq<Label>, b: seq<Label>)
    requires a != []
    ensures (a + b)[0] == a[0] && (a + b)[1..] == a[1..] + b
  {
  }

  lemma {:induction false} RunConcat(s: State, a: seq<Label>, t: State, b: seq<Label>, u: State)
    requires Run(Anything(), s, a, t) && Run(Anything(), t, b, u)
    ensures Run(Anything(), s, a + b, u)
    decreases |a|
  {
    if a == [] {
      assert a + b == b;
    } else {
      RunConcat(Step(s, a[0]), a[1..], t, b, u);
      ConcatTail(a, b);
    }
  }

  // ---------------------------------------------------------------- one cohort, exit order

  /** The main goroutine serves its select loop, possibly in the middle of a reload's load. */
  predicate Serving(m: Main) { m == Listening || m == Loading }

  /** Written by a goroutine that main has not waited for. */
  predicate ByUnjoined(e: Event, joined: bool) {
    e.Wrote? && (e.who == ByEnvelope || e.who == ByOutsider || (e.who == ByHelper && !joined))
  }

  ghost predicate AllDone(s: State) {
    forall i | 0 <= i < |s.controllers| :: s.controllers[i].phase == Done
  }

  /** After the exit Restore only goroutines that nothing has waited for may still write. */
  ghost predicate QuietAfterRestore(log: seq<Event>, joined: bool) {
    forall i, j | 0 <= i < j < |log| && log[i] == ExitRestore :: ByUnjoined(log[j], joined)
  }

  ghost predicate OneCohort(s: State) {
    forall i | 0 <= i < |s.controllers| && s.controllers[i].phase != Done :: s.controllers[i].cohort == s.cohort
  }

  ghost predicate Joined(s: State) {
    && (s.main.Unwinding? || s.main.Restored? ==> AllDone(s))
    && (s.main.Restored? ==> s.probe == [])
    && (ExitRestore in s.log ==> s.main.Restored?)
    && (s.joined ==> s.helpers == 0)
  }

  ghost predicate ShutdownInv(s: State) { OneCohort(s) && Joined(s) && QuietAfterRestore(s.log, s.joined) }

  lemma {:induction false} SpawnedShape(fans: seq<Fan>, controls: seq<Control>, cohort: nat)
    ensures |Spawned(fans, controls, cohort)| <= |controls|
    ensures forall c :: c in Spawned(fans, controls, cohort) ==>
              c.cohort == cohort && c.phase == Running && TargetOf(fans, c.fan) == Some(c.path)
    ensures forall c :: c in Spawned(fans, controls, cohort) ==> exists k :: k in controls && k.fan == c.fan
  {
    if controls != [] { SpawnedShape(fans, controls[..|controls| - 1], cohort); }
  }

  /** The same controllers, none of them brought back, and the same registry. */
  ghost predicate Quiet(s: State, t: State) {
    && |t.controllers| == |s.controllers|
    && t.cohort == s.cohort && t.held == s.held
    && (Serving(t.main) ==> Serving(s.main)) && (t.main.Draining? ==> t.main == s.main)
    && forall i | 0 <= i < |s.controllers| ::
         && t.controllers[i] == s.controllers[i].(phase := t.controllers[i].phase)
         && (s.controllers[i].phase == Done ==> t.controllers[i].phase == Done)
  }

  /** A load or the end of a drain: the steps that can start controllers. */
  predicate Spawns(l: Label) { l.OfMain? && (l.main.Load? || l.main.DrainDone?) }

  /** A store into the live config outside a load: SIGHUP, or a web handler at any time. */
  predicate StoresLive(l: Label) { (l.OfMain? && l.main.Sighup?) || (l.OfWeb? && l.web.WebStore?) }

  lemma QuietMain(s: State, m: MainStep)
    requires MainEnabled(s, m) && !m.Load? && !m.DrainDone?
    ensures Quiet(s, MainNext(s, m)) && (!m.Sighup? ==> MainNext(s, m).live == s.live)
  {
  }

  lemma QuietWork(s: State, i: nat, w: WorkerStep)
    requires WorkEnabled(s, i, w)
    ensures Quiet(s, WorkNext(s, i, w))
  {
  }

  lemma QuietStep(s: State, l: Label)
    requires Enabled(s, l) && !Spawns(l)
    ensures Quiet(s, Step(s, l))
    ensures !StoresLive(l) ==> Step(s, l).live == s.live
  {
    match l
    case OfMain(m) => QuietMain(s, m);
    case OfController(i, w) => QuietWork(s, i, w);
    case OfWeb(w) => QuietSame(s, WebNext(s, w));
    case OfOutside(e) => QuietSame(s, OutsideNext(s, e));
    case OfWriter(w) => QuietSame(s, WriterNext(s, w));
  }

  lemma QuietSame(s: State, t: State)
    requires t.controllers == s.controllers && t.cohort == s.cohort && t.held == s.held && t.main == s.main
    ensures Quiet(s, t)
  {
  }

  lemma OneCohortLoad(s: State, c: Config, r: Resolver, enable: Path -> int)
    requires OneCohort(s)
    ensures OneCohort(LoadWith(s, c, r, enable))
  {
    var cfg := Resolve(c, r);
    SpawnedShape(cfg.fans, cfg.controls, s.cohort);
  }

  lemma OneCohortRespawn(s: State)
    requires OneCohort(s) && s.main.Draining? && CohortDone(s)
    ensures OneCohort(Respawn(s))
  {
    SpawnedShape(s.main.next.fans, s.main.next.controls, s.cohort + 1);
  }

  lemma OneCohortMain(s: State, m: MainStep)
    requires OneCohort(s) && MainEnabled(s, m) && (m.Load? || m.DrainDone?)
    ensures OneCohort(MainNext(s, m))
  {
    if m.Load? {
      if m.loaded.Some? { OneCohortLoad(s.(main := Listening, req := ReadNow(s.req)), m.loaded.value, m.resolver, m.enable); }
    } else {
      OneCohortRespawn(s);
    }
  }

  lemma OneCohortQuiet(s: State, t: State)
    requires OneCohort(s) && Quiet(s, t)
    ensures OneCohort(t)
  {
  }

  lemma OneCohortStep(s: State, l: Label)
    requires OneCohort(s) && Enabled(s, l)
    ensures OneCohort(Step(s, l))
  {
    if Spawns(l) {
      OneCohortMain(s, l.main);
    } else {
      QuietStep(s, l);
      OneCohortQuiet(s, Step(s, l));
    }
  }

  lemma ExitMain(s: State, m: MainStep)
    requires ShutdownInv(s) && MainEnabled(s, m)
    ensures Joined(MainNext(s, m)) && QuietAfterRestore(MainNext(s, m).log, MainNext(s, m).joined)
  {
  }

  lemma ExitWork(s: State, i: nat, w: WorkerStep)
    requires ShutdownInv(s) && WorkEnabled(s, i, w)
    ensures Joined(WorkNext(s, i, w)) && QuietAfterRestore(WorkNext(s, i, w).log, s.joined)
  {
    assert s.controllers[i].phase != Done;
    assert s.main != Unwinding && s.main != Restored;
  }

  lemma ExitWriter(s: State, w: WriterStep)
    requires ShutdownInv(s) && WriterEnabled(s, w)
    ensures Joined(WriterNext(s, w)) && QuietAfterRestore(WriterNext(s, w).log, s.joined)
  {
    assert ExitRestore in s.log ==> s.probe == [];
  }

  lemma ShutdownStep(s: State, l: Label)
    requires ShutdownInv(s) && Enabled(s, l)
    ensures ShutdownInv(Step(s, l))
  {
    OneCohortStep(s, l);
    match l
    case OfMain(m) => ExitMain(s, m);
    case OfController(i, w) => ExitWork(s, i, w);
    case OfWeb(_) =>
    case OfOutside(_) =>
    case OfWriter(w) => ExitWriter(s, w);
  }

  lemma InitShutdown(s: State, file: Config, r: Resolver, started: nat)
    requires Init(s, file, r, started)
    ensures ShutdownInv(s)
  {
    var cfg := Resolve(file, r);
    SpawnedShape(cfg.fans, cfg.controls[..started], 0);
  }

  /** Main waits for the wait group on every exit but the one in the middle of a renumber. */
  lemma {:induction false} JoinedIffStopDone(s: State, ls: seq<Label>, t: State)
    requires Run(Anything(), s, ls, t)
    ensures t.joined <==> s.joined || exists j | 0 <= j < |ls| :: ls[j] == OfMain(StopDone)
    decreases |ls|
  {
    if ls != [] {
      JoinedStepIff(s, ls[0]);
      JoinedIffStopDone(Step(s, ls[0]), ls[1..], t);
      if j :| 0 <= j < |ls[1..]| && ls[1..][j] == OfMain(StopDone) { assert ls[j + 1] == OfMain(StopDone); }
      if j :| 0 <= j < |ls| && ls[j] == OfMain(StopDone) { assert j > 0 ==> ls[1..][j - 1] == OfMain(StopDone); }
    }
  }

  lemma JoinedStepIff(s: State, l: Label)
    requires Enabled(s, l)
    ensures Step(s, l).joined == (s.joined || l == OfMain(StopDone))
  {
  }

  /**
   However the daemon ends (signal, cancelled context, controller error, shutdown noticed in
   the middle of a renumber), nothing a controller or the polarity probe writes comes after the
   exit Restore. The helpers of the wait group are silent then too if the exit waited for them;
   the envelope goroutine and the outsiders are bound by nothing.
   */
  lemma {:induction false} NoWriteAfterExitRestore(s: State, file: Config, r: Resolver, started: nat, ls: seq<Label>, t: State)
    requires Init(s, file, r, started) && Run(Anything(), s, ls, t)
    ensures QuietAfterRestore(t.log, exists j | 0 <= j < |ls| :: ls[j] == OfMain(StopDone))
    ensures OneCohort(t)
    ensures t.main.Restored? ==> AllDone(t) && t.probe == []
  {
    InitShutdown(s, file, r, started);
    forall u, l | ShutdownInv(u) && Enabled(u, l) ensures ShutdownInv(Step(u, l)) { ShutdownStep(u, l); }
    Invariance(u => ShutdownInv(u), Anything(), s, ls, t);
    JoinedIffStopDone(s, ls, t);
  }

  // ---------------------------------------------------------------- no lost reload

  /** The versions are ordered, and a version asked for is read, or about to be. */
  ghost predicate RequestInv(s: State) {
    && s.req.asked <= s.req.world && s.req.read <= s.req.world && s.req.requested <= s.req.world
    && (s.req.requested in s.req.pending || s.req.requested <= s.req.asked)
    && (s.token || s.main == Loading || s.req.asked <= s.req.read)
  }

  lemma RequestMain(s: State, m: MainStep)
    requires RequestInv(s) && MainEnabled(s, m)
    ensures RequestInv(MainNext(s, m))
  {
    if m.Load? { RequestLoad(s, m); }
  }

  lemma RequestLoad(s: State, m: MainStep)
    requires RequestInv(s) && MainEnabled(s, m) && m.Load?
    ensures MainNext(s, m).req == ReadNow(s.req) && MainNext(s, m).token == s.token && MainNext(s, m).main != Loading
  {
  }

  lemma RequestOutside(s: State, e: OutsideStep)
    requires RequestInv(s) && OutsideEnabled(s, e)
    ensures RequestInv(OutsideNext(s, e))
  {
  }

  lemma RequestStep(s: State, l: Label)
    requires RequestInv(s) && Enabled(s, l)
    ensures RequestInv(Step(s, l))
  {
    if l.OfMain? { RequestMain(s, l.main); }
    if l.OfOutside? { RequestOutside(s, l.event); }
  }

  /**
   No reload request is lost, although a send to the one-slot channel may be dropped: in every
   run, once the loop is idle with no token and every requester has done its send, the last load
   read a version at least as new as the latest one a reload was asked for.
   */
  lemma {:induction false} NoLostReload(s: State, file: Config, r: Resolver, started: nat, ls: seq<Label>, t: State)
    requires Init(s, file, r, started) && Run(Anything(), s, ls, t)
    ensures !t.token && t.main != Loading ==> t.req.read >= t.req.asked
    ensures !t.token && t.main != Loading && t.req.pending == {} ==> t.req.read >= t.req.requested
  {
    forall v, k | RequestInv(v) && Enabled(v, k) ensures RequestInv(Step(v, k)) { RequestStep(v, k); }
    Invariance(v => RequestInv(v), Anything(), s, ls, t);
  }

  /** A device event counts as a trigger exactly when the live config names the device. */
  method ConfigHasHwmonDevice(c: Config, key: string) returns (found: bool)
    ensures found <==> HasDevice(c, key)
  {
    for i := 0 to |c.fans|
      invariant forall j | 0 <= j < i :: !(c.fans[j].kind == "hwmon" && c.fans[j].device != "" && c.fans[j].device == key)
    {
      if c.fans[i].kind == "hwmon" && c.fans[i].device != "" && c.fans[i].device == key {
        return true;
      }
    }
    for i := 0 to |c.sensors|
      invariant forall j | 0 <= j < i ::
                  !(c.sensors[j].kind == "hwmon" && c.sensors[j].device != "" && c.sensors[j].device == key)
    {
      if c.sensors[i].kind == "hwmon" && c.sensors[i].device != "" && c.sensors[i].device == key {
        return true;
      }
    }
    return false;
  }
}
