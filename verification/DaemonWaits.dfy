/**
 Waiting for goroutines: error sends never block, every drain and shutdown wait ends, and what may
 still be written once the daemon has exited.
 */
module DaemonWaits {
  import opened Common
  import opened Rebind
  import opened Daemon
  import opened DaemonSafety

  // ---------------------------------------------------------------- errors never block a drain

  function Owes(p: Phase): nat { if p == Done then 0 else 1 }

  /** Steps a goroutine can still take before it is done. */
  function StepsLeft(p: Phase): nat { match p case Running => 2 case Failing => 1 case Done => 0 }

  function Sum(cs: seq<Controller>, w: Phase -> nat): nat {
    if cs == [] then 0 else Sum(cs[..|cs| - 1], w) + w(cs[|cs| - 1].phase)
  }

  /** Every goroutine that may still report an error has a slot. */
  ghost predicate Credit(s: State) { s.errs + Sum(s.controllers, Owes) + Owes(s.web) <= s.cap }

  lemma {:induction false} SumUpdate(cs: seq<Controller>, i: nat, p: Phase, w: Phase -> nat)
    requires i < |cs|
    ensures Sum(cs[i := cs[i].(phase := p)], w) == Sum(cs, w) - w(cs[i].phase) + w(p)
    decreases |cs|
  {
    var n := |cs| - 1;
    var after := cs[i := cs[i].(phase := p)];
    if i < n {
      SumUpdate(cs[..n], i, p, w);
      assert after[..n] == cs[..n][i := cs[i].(phase := p)];
    } else {
      assert after[..n] == cs[..n];
    }
  }

  lemma {:induction false} SumHolds(cs: seq<Controller>, i: nat, w: Phase -> nat)
    requires i < |cs|
    ensures w(cs[i].phase) <= Sum(cs, w)
  {
    if i < |cs| - 1 { SumHolds(cs[..|cs| - 1], i, w); }
  }

  lemma {:induction false} OwingBound(cs: seq<Controller>)
    ensures Sum(cs, Owes) <= |cs|
    ensures Sum(cs, Owes) == 0 <==> forall i | 0 <= i < |cs| :: cs[i].phase == Done
  {
    if cs != [] { OwingBound(cs[..|cs| - 1]); }
  }

  /** Every spawn after startup fits: live goroutines plus unread errors stay within capacity. */
  ghost predicate SpawnsFit(s: State, l: Label) { Enabled(s, l) && Spawns(l) ==> Credit(Step(s, l)) }

  lemma CreditWork(s: State, i: nat, w: WorkerStep)
    requires Credit(s) && WorkEnabled(s, i, w)
    ensures Credit(WorkNext(s, i, w))
  {
    SumUpdate(s.controllers, i, Done, Owes);
    SumUpdate(s.controllers, i, Failing, Owes);
  }

  lemma CreditStep(s: State, l: Label)
    requires Credit(s) && Enabled(s, l) && SpawnsFit(s, l)
    ensures Credit(Step(s, l))
  {
    if l.OfController? { CreditWork(s, l.i, l.work); }
  }

  lemma InitCredit(s: State, file: Config, r: Resolver, started: nat)
    requires Init(s, file, r, started)
    ensures Credit(s)
  {
    var cfg := Resolve(file, r);
    SpawnedShape(cfg.fans, cfg.controls[..started], 0);
    OwingBound(s.controllers);
  }

  lemma CreditLetsSend(t: State)
    requires Credit(t)
    ensures forall i :: 0 <= i < |t.controllers| && t.controllers[i].phase == Failing ==> WorkEnabled(t, i, Send)
    ensures t.web == Failing ==> WebEnabled(t, WebSend)
  {
    forall i | 0 <= i < |t.controllers| && t.controllers[i].phase == Failing ensures WorkEnabled(t, i, Send) {
      SumHolds(t.controllers, i, Owes);
    }
  }

  /** No send blocks: the startup cohort always fits, and later ones do by assumption. */
  lemma {:induction false} SendsNeverBlock(s: State, file: Config, r: Resolver, started: nat, ls: seq<Label>, t: State)
    requires Init(s, file, r, started) && Run((u, l) => SpawnsFit(u, l), s, ls, t)
    ensures Credit(t)
    ensures forall i :: 0 <= i < |t.controllers| && t.controllers[i].phase == Failing ==> WorkEnabled(t, i, Send)
    ensures t.web == Failing ==> WebEnabled(t, WebSend)
  {
    InitCredit(s, file, r, started);
    var ok: Assumption := (u, l) => SpawnsFit(u, l);
    forall u, l | Credit(u) && Enabled(u, l) && ok(u, l) ensures Credit(Step(u, l)) { CreditStep(u, l); }
    Invariance(u => Credit(u), ok, s, ls, t);
    CreditLetsSend(t);
  }

  // ---------------------------------------------------------------- every wait ends

  /** Main waits for goroutines to return. */
  predicate Waiting(m: Main) { m.Draining? || m == Stopping }

  /** Those main waits for have been told to stop: the cohort, or on an exit everybody. */
  predicate Told(s: State) { s.cancelled || (s.main.Draining? && s.cohortCancelled) }

  ghost predicate WaitInv(s: State) { Waiting(s.main) ==> Told(s) }

  lemma WaitStep(s: State, l: Label)
    requires WaitInv(s) && Enabled(s, l)
    ensures WaitInv(Step(s, l))
  {
  }

  /** The next step of a live controller that has been told to stop. */
  ghost function NextWork(s: State, i: nat): WorkerStep
    requires i < |s.controllers|
  {
    if s.controllers[i].phase == Running then Exit else Send
  }

  ghost function NextWeb(s: State): WebStep { if s.web == Running then WebStop else WebSend }

  predicate Progress(l: Label) {
    (l.OfController? && l.work != Write) || (l.OfWeb? && !l.web.WebStore?) || (l.OfWriter? && l.write.HelperExit?)
  }

  predicate EndsWait(l: Label) { l == OfMain(DrainDone) || l == OfMain(StopDone) }

  /** Steps that controllers, the web server and the helpers can still take towards their end. */
  function AllStepsLeft(s: State): nat { Sum(s.controllers, StepsLeft) + StepsLeft(s.web) + s.helpers }

  lemma WorkLeft(s: State, i: nat, w: WorkerStep)
    requires WorkEnabled(s, i, w)
    ensures Sum(WorkNext(s, i, w).controllers, StepsLeft) + (if w == Write then 0 else 1) <= Sum(s.controllers, StepsLeft)
  {
    SumUpdate(s.controllers, i, Done, StepsLeft);
    SumUpdate(s.controllers, i, Failing, StepsLeft);
  }

  lemma WaitingMain(s: State, m: MainStep)
    requires Waiting(s.main) && MainEnabled(s, m)
    ensures EndsWait(OfMain(m))
  {
  }

  lemma WaitingStep(s: State, l: Label)
    requires Waiting(s.main) && Enabled(s, l) && !EndsWait(l)
    ensures Step(s, l).main == s.main && AllStepsLeft(Step(s, l)) + (if Progress(l) then 1 else 0) <= AllStepsLeft(s)
  {
    match l
    case OfMain(m) => WaitingMain(s, m);
    case OfController(i, w) => WorkLeft(s, i, w);
    case _ =>
  }

  lemma {:induction false} WaitIsBounded(s: State, ls: seq<Label>, t: State)
    requires Waiting(s.main) && Run(Anything(), s, ls, t) && forall k | 0 <= k < |ls| :: !EndsWait(ls[k])
    ensures t.main == s.main && Count(ls, Progress) + AllStepsLeft(t) <= AllStepsLeft(s)
    ensures Credit(s) ==> Credit(t)
    decreases |ls|
  {
    if ls != [] {
      assert !EndsWait(ls[0]);
      WaitingStep(s, ls[0]);
      WaitCredit(s, ls[0]);
      WaitIsBounded(Step(s, ls[0]), ls[1..], t);
    }
  }

  lemma WaitCredit(s: State, l: Label)
    requires Waiting(s.main) && Enabled(s, l) && !EndsWait(l)
    ensures Credit(s) ==> Credit(Step(s, l))
  {
    if Credit(s) {
      assert !Spawns(l);
      CreditStep(s, l);
    }
  }

  /** What main waits for can be done now, or somebody it waits for has an enabled step of its own. */
  ghost predicate WaitMoves(s: State) {
    || (s.main.Draining? && MainEnabled(s, DrainDone))
    || (s.main == Stopping && MainEnabled(s, StopDone))
    || (exists i :: Live(s, i) && WorkEnabled(s, i, NextWork(s, i)))
    || (s.main == Stopping && s.web != Done && WebEnabled(s, NextWeb(s)))
    || (s.main == Stopping && s.cancelled && WriterEnabled(s, HelperExit))
  }

  lemma WaitNeverStuck(s: State)
    requires Waiting(s.main) && Told(s) && Credit(s)
    ensures WaitMoves(s)
    ensures forall i :: Live(s, i) ==> WorkEnabled(s, i, NextWork(s, i))
  {
    CreditLetsSend(s);
    forall i | Live(s, i) ensures WorkEnabled(s, i, NextWork(s, i)) {}
    if forall i | 0 <= i < |s.controllers| :: !Live(s, i) {
      forall i | 0 <= i < |s.controllers| ensures s.controllers[i].phase == Done { assert !Live(s, i); }
      assert CohortDone(s);
    }
  }

  /**
   Every drain and every shutdown wait, for the cohort, the web server and the whole wait group,
   returns: from any reachable wait, no matter what happens meanwhile, the goroutines waited for
   take at most as many more steps as they have left; none of them is ever blocked; and once they
   are done the wait is over.
   */
  lemma {:induction false} WaitsReturn(
    s: State, file: Config, r: Resolver, started: nat, before: seq<Label>, u: State, ls: seq<Label>, t: State)
    requires Init(s, file, r, started) && Run((v, l) => SpawnsFit(v, l), s, before, u) && Waiting(u.main)
    requires Run(Anything(), u, ls, t) && forall k | 0 <= k < |ls| :: !EndsWait(ls[k])
    ensures t.main == u.main && Count(ls, Progress) + AllStepsLeft(t) <= AllStepsLeft(u)
    ensures WaitMoves(t) && forall i :: Live(t, i) ==> WorkEnabled(t, i, NextWork(t, i))
    ensures AllStepsLeft(t) == 0 ==> if t.main.Draining? then MainEnabled(t, DrainDone) else MainEnabled(t, StopDone)
  {
    SendsNeverBlock(s, file, r, started, before, u);
    var ok: Assumption := (v, l) => SpawnsFit(v, l);
    forall v, l | WaitInv(v) && Enabled(v, l) ensures WaitInv(Step(v, l)) { WaitStep(v, l); }
    Invariance(v => WaitInv(v), ok, s, before, u);
    Invariance(v => WaitInv(v), Anything(), u, ls, t);
    WaitIsBounded(u, ls, t);
    WaitNeverStuck(t);
    if AllStepsLeft(t) == 0 {
      forall i | 0 <= i < |t.controllers| ensures t.controllers[i].phase == Done { SumHolds(t.controllers, i, StepsLeft); }
    }
  }

  lemma WorkHelps(s: State, i: nat)
    requires Credit(s) && (s.cancelled || s.cohortCancelled) && Live(s, i)
    ensures WorkEnabled(s, i, NextWork(s, i))
    ensures var t := WorkNext(s, i, NextWork(s, i)); Credit(t) && Owing(t) < Owing(s) && Ended(s, t)
  {
    CreditLetsSend(s);
    CreditWork(s, i, NextWork(s, i));
    SumUpdate(s.controllers, i, Done, Owes);
  }

  /** What is left to wait for. */
  function Owing(s: State): nat { Sum(s.controllers, Owes) + Owes(s.web) + s.helpers }

  ghost predicate NothingOwed(s: State) { AllDone(s) && (s.main == Stopping ==> s.web == Done && s.helpers == 0) }

  /** Somebody main waits for steps on. */
  lemma WaitMovesOn(s: State) returns (l: Label)
    requires Credit(s) && Waiting(s.main) && Told(s)
    requires !NothingOwed(s)
    ensures Enabled(s, l) && Credit(Step(s, l)) && Owing(Step(s, l)) < Owing(s)
    ensures Ended(s, Step(s, l))
  {
    if i :| Live(s, i) {
      WorkHelps(s, i);
      l := OfController(i, NextWork(s, i));
    } else {
      forall i | 0 <= i < |s.controllers| ensures s.controllers[i].phase == Done { assert !Live(s, i); }
      if s.web != Done {
        WebHelps(s);
        l := OfWeb(NextWeb(s));
      } else {
        l := OfWriter(HelperExit);
      }
    }
  }

  lemma WebHelps(s: State)
    requires Credit(s) && s.main == Stopping && s.web != Done
    ensures WebEnabled(s, NextWeb(s))
    ensures var t := WebNext(s, NextWeb(s)); Credit(t) && Owing(t) < Owing(s) && Ended(s, t)
  {
    CreditLetsSend(s);
  }

  /** Nothing but the goroutines main waits for has changed. */
  ghost predicate Ended(s: State, t: State) {
    && |t.controllers| == |s.controllers| && (s.main != Stopping ==> t.web == s.web && t.helpers == s.helpers)
    && t == s.(controllers := t.controllers, errs := t.errs, web := t.web, helpers := t.helpers, log := t.log)
  }

  /** One way for the wait to end. */
  lemma {:induction false} WaitCanEnd(s: State) returns (ls: seq<Label>, t: State)
    requires Credit(s) && Waiting(s.main) && Told(s)
    ensures Run(Anything(), s, ls, t) && NothingOwed(t) && Credit(t)
    ensures Ended(s, t)
    decreases Owing(s)
  {
    if NothingOwed(s) {
      RunNone(s);
      ls, t := [], s;
    } else {
      var l := WaitMovesOn(s);
      var rest;
      rest, t := WaitCanEnd(Step(s, l));
      RunCons(s, l, rest, t);
      ls := [l] + rest;
    }
  }

  /** Someone blocks on a full errCh that nobody reads. */
  ghost predicate Deadlocked(s: State) {
    && s.main == Stopping && s.errs == s.cap
    && ((exists i :: 0 <= i < |s.controllers| && Stuck(s, i)) || s.web == Failing)
  }

  ghost predicate Stuck(s: State, i: nat) {
    i < |s.controllers| && s.controllers[i].cohort == s.cohort && s.controllers[i].phase == Failing
  }

  lemma DeadlockMain(s: State, m: MainStep)
    requires Deadlocked(s)
    ensures !MainEnabled(s, m)
  {
    if s.web != Failing {
      var i :| 0 <= i < |s.controllers| && Stuck(s, i);
      assert !CohortDone(s);
    }
  }

  lemma DeadlockWork(s: State, i: nat, w: WorkerStep)
    requires Deadlocked(s) && WorkEnabled(s, i, w)
    ensures Deadlocked(WorkNext(s, i, w))
  {
    if s.web != Failing {
      var k :| 0 <= k < |s.controllers| && Stuck(s, k);
      assert Stuck(WorkNext(s, i, w), k);
    }
  }

  lemma DeadlockStep(s: State, l: Label)
    requires Deadlocked(s) && Enabled(s, l)
    ensures Deadlocked(Step(s, l))
  {
    match l
    case OfMain(m) => DeadlockMain(s, m);
    case OfController(i, w) => DeadlockWork(s, i, w);
    case _ => DeadlockSame(s, Step(s, l));
  }

  lemma DeadlockSame(s: State, t: State)
    requires Deadlocked(s) && t.controllers == s.controllers && t.cohort == s.cohort && t.main == s.main
    requires t.errs == s.errs && t.cap == s.cap && (s.web == Failing ==> t.web == Failing)
    ensures Deadlocked(t)
  {
    if s.web != Failing {
      var k :| 0 <= k < |s.controllers| && Stuck(s, k);
      assert Stuck(t, k);
    }
  }

  lemma {:induction false} DeadlockIsPermanent(s: State, ls: seq<Label>, t: State)
    requires Deadlocked(s) && Run(Anything(), s, ls, t)
    ensures Deadlocked(t)
    decreases |ls|
  {
    if ls != [] {
      DeadlockStep(s, ls[0]);
      DeadlockIsPermanent(Step(s, ls[0]), ls[1..], t);
    }
  }

  ghost predicate Overdrawn(s: State) { s.main == Stopping && OneCohort(s) && s.errs <= s.cap && !Credit(s) }

  lemma FailStep(s: State, i: nat)
    requires Overdrawn(s) && i < |s.controllers| && s.controllers[i].phase == Running
    ensures var t := WorkNext(s, i, Fail);
            Overdrawn(t) && t.errs == s.errs && t.cap == s.cap && |t.controllers| == |s.controllers| && t.controllers[i].phase == Failing
  {
    SumUpdate(s.controllers, i, Failing, Owes);
  }

  lemma SendStep(s: State, i: nat)
    requires Overdrawn(s) && i < |s.controllers| && s.controllers[i].phase == Failing
    ensures s.errs < s.cap ==> WorkEnabled(s, i, Send) && Overdrawn(WorkNext(s, i, Send))
    ensures s.errs == s.cap ==> Deadlocked(s)
  {
    assert Stuck(s, i);
    SumUpdate(s.controllers, i, Done, Owes);
  }

  /** A failed controller sends while errCh has room, and is stuck otherwise. */
  lemma FailedSends(s: State, i: nat) returns (ls: seq<Label>, t: State)
    requires Overdrawn(s) && i < |s.controllers| && s.controllers[i].phase == Failing
    ensures Run(Anything(), s, ls, t)
    ensures Deadlocked(t) || (Overdrawn(t) && t.errs == s.errs + 1 && t.cap == s.cap)
  {
    ls, t := [], s;
    SendStep(s, i);
    assert s.errs < s.cap || Stuck(s, i);
    if s.errs < s.cap {
      t := Step(s, OfController(i, Send));
      RunCons(s, OfController(i, Send), [], t);
      ls := [OfController(i, Send)];
    }
  }

  /** A controller fails and, while errCh has room, sends. */
  lemma ControllerFails(s: State, i: nat) returns (ls: seq<Label>, t: State)
    requires Overdrawn(s) && i < |s.controllers| && s.controllers[i].phase != Done
    ensures Run(Anything(), s, ls, t)
    ensures Deadlocked(t) || (Overdrawn(t) && t.errs == s.errs + 1 && t.cap == s.cap)
  {
    if s.controllers[i].phase == Running {
      FailStep(s, i);
      var rest;
      rest, t := FailedSends(Step(s, OfController(i, Fail)), i);
      RunCons(s, OfController(i, Fail), rest, t);
      ls := [OfController(i, Fail)] + rest;
    } else {
      ls, t := FailedSends(s, i);
    }
  }

  /** While an exit path waits without credit, all remaining goroutines failing deadlocks it. */
  lemma {:induction false} FailuresDeadlock(s: State) returns (ls: seq<Label>, t: State)
    requires Overdrawn(s)
    ensures Run(Anything(), s, ls, t) && Deadlocked(t)
    decreases s.cap - s.errs
  {
    OwingBound(s.controllers);
    if i :| 0 <= i < |s.controllers| && s.controllers[i].phase != Done {
      ls, t := ControllerFails(s, i);
      if !Deadlocked(t) {
        var rest, u := FailuresDeadlock(t);
        RunConcat(s, ls, t, rest, u);
        ls, t := ls + rest, u;
      }
    } else if s.web == Running {
      t := Step(s, OfWeb(WebFail));
      RunCons(s, OfWeb(WebFail), [], t);
      ls := [OfWeb(WebFail)];
    } else {
      ls, t := [], s;
    }
  }

  /**
   The capacity condition is exact: from a listening daemon whose goroutines do not all have a
   slot, SIGTERM followed by failures leads to a state from which no continuation ever exits.
   */
  lemma {:induction false} WithoutCreditShutdownCanHang(s: State) returns (ls: seq<Label>, t: State)
    requires s.main == Listening && OneCohort(s) && s.errs <= s.cap && !Credit(s)
    ensures Run(Anything(), s, ls, t) && Deadlocked(t)
    ensures forall more, u :: Run(Anything(), t, more, u) ==> u.main == Stopping
  {
    var rest;
    rest, t := FailuresDeadlock(Step(s, OfMain(Terminate)));
    RunCons(s, OfMain(Terminate), rest, t);
    ls := [OfMain(Terminate)] + rest;
    forall more, u | Run(Anything(), t, more, u) ensures u.main == Stopping { DeadlockIsPermanent(t, more, u); }
  }

  lemma FirstBootSpawn(s: State, c: Config, enable: Path -> int)
    requires s.main == Listening && s.controllers == [] && s.live.controls == [] && c.controls != []
    requires s.errs == 0 && s.cap == 1 && s.web == Running && Spawned(c.fans, c.controls, s.cohort) != []
    ensures var t := AfterReload(s, Some(c), Never(), enable); t.main == Listening && OneCohort(t) && !Credit(t)
  {
    NothingMoves(c);
    var cs := Spawned(c.fans, c.controls, s.cohort);
    FirstBootReload(s, c, Never(), enable);
    assert s.controllers + cs == cs;
    FreshCohort(AfterReload(s, Some(c), Never(), enable), c, s.cohort);
  }

  lemma FreshCohort(t: State, c: Config, cohort: nat)
    requires t.controllers == Spawned(c.fans, c.controls, cohort) != [] && t.cohort == cohort
    ensures OneCohort(t) && Sum(t.controllers, Owes) > 0
  {
    SpawnedAllRun(c, cohort);
    AllRunOwes(t.controllers);
  }

  lemma SpawnedAllRun(c: Config, cohort: nat)
    ensures var cs := Spawned(c.fans, c.controls, cohort);
            forall i | 0 <= i < |cs| :: cs[i].cohort == cohort && cs[i].phase == Running
  {
    var cs := Spawned(c.fans, c.controls, cohort);
    SpawnedShape(c.fans, c.controls, cohort);
    assert forall i | 0 <= i < |cs| :: cs[i] in cs;
  }

  lemma AllRunOwes(cs: seq<Controller>)
    requires cs != [] && cs[0].phase == Running
    ensures Sum(cs, Owes) > 0
  {
    SumHolds(cs, 0, Owes);
  }

  lemma EmptyStart(s: State, file: Config, r: Resolver, started: nat)
    requires Init(s, file, r, started) && file.controls == []
    ensures s.main == Listening && s.controllers == [] && s.live.controls == [] && s.cohort == 0
    ensures s.errs == 0 && s.cap == 1 && s.web == Running
  {
    assert Resolve(file, r).controls == [];
  }

  /** errCh is sized by the startup controls, so the first-boot cohort never fits beside the web server. */
  lemma {:induction false} FirstBootOutgrowsErrCh(
    s: State, file: Config, r0: Resolver, started: nat, c: Config, enable: Path -> int)
    requires Init(s, file, r0, started) && file.controls == []
    requires c.controls != [] && Spawned(c.fans, c.controls, 0) != []
    ensures exists t :: Run(Anything(), s, ReloadOf(s, Some(c), Never(), enable), t) && t.main == Listening && OneCohort(t) && !Credit(t)
  {
    EmptyStart(s, file, r0, started);
    FirstBootSpawn(s, c, enable);
    ReloadRuns(s, Some(c), Never(), enable);
  }

  // ---------------------------------------------------------------- a stale PUT

  /** A run that ends with a step of main. */
  lemma EndsWith(s: State, rest: seq<Label>, u: State, m: MainStep) returns (ls: seq<Label>)
    requires Run(Anything(), s, rest, u) && MainEnabled(u, m)
    ensures ls == rest + ([OfMain(m)] + []) && Run(Anything(), s, ls, MainNext(u, m))
  {
    var t := MainNext(u, m);
    RunNone(t);
    RunCons(u, OfMain(m), [], t);
    RunConcat(s, rest, u, [OfMain(m)] + [], t);
    ls := rest + ([OfMain(m)] + []);
  }

  lemma RespawnAfter(s: State, u: State)
    requires s.main.Draining? && Ended(s, u) && AllDone(u)
    ensures var t := Respawn(u);
            && (forall i | 0 <= i < |s.controllers| :: !Live(t, i))
            && t.live == s.live && t.web == s.web && |t.controllers| >= |s.controllers|
            && t.controllers[|s.controllers|..] == Spawned(s.main.next.fans, s.main.next.controls, s.cohort + 1)
  {
  }

  lemma DrainEnds(s: State) returns (ls: seq<Label>, t: State)
    requires Credit(s) && s.main.Draining? && s.cohortCancelled && !s.cancelled
    ensures Run(Anything(), s, ls, t) && t.main == Listening && t.live == s.live && t.web == s.web
    ensures |t.controllers| >= |s.controllers| && forall i | 0 <= i < |s.controllers| :: !Live(t, i)
    ensures t.controllers[|s.controllers|..] == Spawned(s.main.next.fans, s.main.next.controls, s.cohort + 1)
  {
    var rest, u := WaitCanEnd(s);
    t := Respawn(u);
    RespawnAfter(s, u);
    ls := EndsWith(s, rest, u, DrainDone);
  }

  lemma RenumberReload(s: State, c: Config, r: Resolver, enable: Path -> int)
    requires s.main == Listening && BranchOf(s.live, c, r) == Renumber
    ensures var t := AfterReload(s, Some(c), r, enable);
            && t.main.Draining? && t.main.next == Resolve(c, r) && t.cohortCancelled && t.cancelled == s.cancelled
            && t.controllers == s.controllers && t.errs == s.errs && t.cap == s.cap && t.web == s.web && t.probe == s.probe
            && t.helpers == s.helpers && t.log == s.log
  {
  }

  /** The controls that have a target in `now` have the same one in `was`. */
  ghost predicate TargetsAgree(now: seq<Fan>, was: seq<Fan>, controls: seq<Control>) {
    forall k :: k in controls && TargetOf(now, k.fan).Some? ==> TargetOf(was, k.fan) == TargetOf(now, k.fan)
  }

  /** A cohort spawned from `fans` follows a config that is stored later exactly when its controls' targets agree. */
  lemma StoreFollowsIff(s: State, n: nat, fans: seq<Fan>, controls: seq<Control>, cohort: nat, c: Config)
    requires n <= |s.controllers| && s.controllers[n..] == Spawned(fans, controls, cohort)
    requires forall i | 0 <= i < n :: !Live(s, i)
    ensures Carries(s, c) <==> TargetsAgree(fans, c.fans, controls)
  {
    SpawnedShape(fans, controls, cohort);
    if TargetsAgree(fans, c.fans, controls) {
      forall i | Live(s, i) ensures TargetOf(c.fans, s.controllers[i].fan) == Some(s.controllers[i].path) {
        assert s.controllers[i] == s.controllers[n..][i - n];
        assert s.controllers[i] in Spawned(fans, controls, cohort);
      }
    }
    if Carries(s, c) {
      forall k | k in controls && TargetOf(fans, k.fan).Some? ensures TargetOf(c.fans, k.fan) == TargetOf(fans, k.fan) {
        var m :| 0 <= m < |controls| && controls[m] == k;
        SpawnedComplete(fans, controls, cohort, m);
        var j := IndexOfSpawned(s, n, Controller(k.fan, TargetOf(fans, k.fan).value, cohort, Running));
        assert Live(s, j);
      }
    }
  }

  /** The drain ends, and a handler stores `c`. */
  lemma DrainThenStore(s: State, c: Config) returns (ls: seq<Label>, t: State)
    requires Credit(s) && s.main.Draining? && s.cohortCancelled && !s.cancelled
    ensures Run(Anything(), s, ls, t) && ls != [] && ls[|ls| - 1] == OfWeb(WebStore(c))
    ensures t.main == Listening && t.live == c
    ensures Follows(t) <==> TargetsAgree(s.main.next.fans, c.fans, s.main.next.controls)
  {
    var rest, u := DrainEnds(s);
    t := WebNext(u, WebStore(c));
    assert forall i :: Live(t, i) <==> Live(u, i);
    StoreFollowsIff(t, |s.controllers|, s.main.next.fans, s.main.next.controls, s.cohort + 1, c);
    RunNone(t);
    RunCons(u, OfWeb(WebStore(c)), [], t);
    RunConcat(s, rest, u, [OfWeb(WebStore(c))] + [], t);
    ls := rest + ([OfWeb(WebStore(c))] + []);
  }

  /**
   A client fetches the config, a renumber follows, and a handler stores what the client sends back:
   the controllers then follow the live config if and only if no control's target has moved.
   */
  lemma StalePutStrandsIff(s: State, file: Config, started: nat, r: Resolver, enable: Path -> int)
    returns (ls: seq<Label>, t: State)
    requires Init(s, file, Never(), started) && s.main == Listening && BranchOf(file, file, r) == Renumber
    ensures Run(Anything(), s, ls, t) && ls != [] && ls[|ls| - 1] == OfWeb(WebStore(file))
    ensures t.main == Listening && t.live == file
    ensures Follows(t) <==> TargetsAgree(ResolveFans(file.fans, r), file.fans, file.controls)
  {
    NothingMoves(file);
    RenumberReload(s, file, r, enable);
    InitCredit(s, file, Never(), started);
    var v := AfterReload(s, Some(file), r, enable);
    var rest;
    rest, t := DrainThenStore(v, file);
    ReloadRuns(s, Some(file), r, enable);
    RunConcat(s, ReloadOf(s, Some(file), r, enable), v, rest, t);
    ls := ReloadOf(s, Some(file), r, enable) + rest;
  }

  // ---------------------------------------------------------------- what controllers leave behind

  /** Event k is the Restore of controller i, and it has written nothing since. */
  ghost predicate HandedBackAt(log: seq<Event>, i: nat, k: nat) {
    && k < |log| && log[k] == RestoredAll(ByController(i))
    && forall j | k < j < |log| && log[j].Wrote? :: log[j].who != ByController(i)
  }

  ghost predicate HandedBack(s: State) {
    forall i: nat | i < |s.controllers| && s.controllers[i].phase != Running :: exists k: nat :: HandedBackAt(s.log, i, k)
  }

  ghost predicate WritesOwnPath(s: State) {
    forall j | 0 <= j < |s.log| && s.log[j].Wrote? && s.log[j].who.ByController? ::
      s.log[j].who.index < |s.controllers| && s.log[j].path == s.controllers[s.log[j].who.index].path
  }

  lemma OneMoreEvent(log: seq<Event>, e: Event, i: nat, k: nat)
    requires HandedBackAt(log, i, k) && !(e.Wrote? && e.who == ByController(i))
    ensures HandedBackAt(log + [e], i, k)
  {
  }

  lemma LastRestores(log: seq<Event>, i: nat)
    ensures HandedBackAt(log + [RestoredAll(ByController(i))], i, |log|)
  {
  }

  /** The log grows by at most one event, which is no write of a controller that has ended. */
  ghost predicate LogsOn(s: State, t: State) {
    t.log == s.log || exists e :: t.log == s.log + [e] && (e.Wrote? && e.who.ByController? ==>
      e.who.index < |s.controllers| && s.controllers[e.who.index].phase == Running && e.path == s.controllers[e.who.index].path)
  }

  /** Controllers keep their paths, and one that ends now has its Restore logged last. */
  ghost predicate EndsLogged(s: State, t: State) {
    && |s.controllers| <= |t.controllers|
    && (forall i: nat | |s.controllers| <= i < |t.controllers| :: t.controllers[i].phase == Running)
    && forall i: nat | i < |s.controllers| ::
         && t.controllers[i].path == s.controllers[i].path
         && (t.controllers[i].phase != Running ==> s.controllers[i].phase != Running || t.log == s.log + [RestoredAll(ByController(i))])
  }

  lemma LeavesStep(s: State, t: State)
    requires HandedBack(s) && WritesOwnPath(s) && LogsOn(s, t) && EndsLogged(s, t)
    ensures HandedBack(t) && WritesOwnPath(t)
  {
    forall i: nat | i < |t.controllers| && t.controllers[i].phase != Running ensures exists k: nat :: HandedBackAt(t.log, i, k) {
      if s.controllers[i].phase == Running {
        LastRestores(s.log, i);
      } else {
        var k: nat :| HandedBackAt(s.log, i, k);
        if t.log != s.log {
          var e :| t.log == s.log + [e] && (e.Wrote? && e.who.ByController? ==>
            e.who.index < |s.controllers| && s.controllers[e.who.index].phase == Running && e.path == s.controllers[e.who.index].path);
          OneMoreEvent(s.log, e, i, k);
        }
        assert HandedBackAt(t.log, i, k);
      }
    }
  }

  lemma WorkLogged(s: State, i: nat, w: WorkerStep)
    requires WorkEnabled(s, i, w)
    ensures LogsOn(s, WorkNext(s, i, w)) && EndsLogged(s, WorkNext(s, i, w))
  {
    assert w == Send ==> WorkNext(s, i, w).log == s.log;
  }

  lemma MainLogged(s: State, m: MainStep)
    requires MainEnabled(s, m)
    ensures LogsOn(s, MainNext(s, m)) && EndsLogged(s, MainNext(s, m))
  {
    if m.Load? {
      LoadLogged(s, m);
    } else if m.DrainDone? {
      if s.cancelled {
        SomeMoreRun(s, MainNext(s, m), []);
      } else {
        SpawnedLogged(s, MainNext(s, m), s.main.next, s.cohort + 1);
      }
    }
  }

  lemma LoadLogged(s: State, m: MainStep)
    requires MainEnabled(s, m) && m.Load?
    ensures LogsOn(s, MainNext(s, m)) && EndsLogged(s, MainNext(s, m))
  {
    if m.loaded.None? {
      FailedLoad(s, m.resolver, m.enable);
    } else {
      var c := Resolve(m.loaded.value, m.resolver);
      LoadSwitch(s, m.loaded.value, m.resolver, m.enable);
      if s.live.controls == [] && m.loaded.value.controls != [] {
        SpawnedLogged(s, MainNext(s, m), c, s.cohort);
      } else {
        SomeMoreRun(s, MainNext(s, m), []);
      }
    }
  }

  lemma SpawnedLogged(s: State, t: State, c: Config, cohort: nat)
    requires t.controllers == s.controllers + Spawned(c.fans, c.controls, cohort) && t.log == s.log
    ensures LogsOn(s, t) && EndsLogged(s, t)
  {
    var more := Spawned(c.fans, c.controls, cohort);
    SpawnedAllRun(c, cohort);
    SomeMoreRun(s, t, more);
  }

  lemma SomeMoreRun(s: State, t: State, more: seq<Controller>)
    requires t.controllers == s.controllers + more && t.log == s.log
    requires forall i | 0 <= i < |more| :: more[i].phase == Running
    ensures LogsOn(s, t) && EndsLogged(s, t)
  {
    assert forall i | |s.controllers| <= i < |t.controllers| :: t.controllers[i] == more[i - |s.controllers|];
  }

  lemma StepLogged(s: State, l: Label)
    requires Enabled(s, l)
    ensures LogsOn(s, Step(s, l)) && EndsLogged(s, Step(s, l))
  {
    match l
    case OfMain(m) => MainLogged(s, m);
    case OfController(i, w) => WorkLogged(s, i, w);
    case OfWeb(_) =>
    case OfOutside(_) =>
    case OfWriter(_) =>
  }

  /**
   In every run a controller writes its own path only, and one that has ended, by itself or with an
   error, has handed its fans back and written nothing since.
   */
  lemma {:induction false} ControllersHandBack(s: State, file: Config, r: Resolver, started: nat, ls: seq<Label>, t: State)
    requires Init(s, file, r, started) && Run(Anything(), s, ls, t)
    ensures HandedBack(t) && WritesOwnPath(t)
  {
    var cfg := Resolve(file, r);
    SpawnedShape(cfg.fans, cfg.controls[..started], 0);
    assert forall i | 0 <= i < |s.controllers| :: s.controllers[i] in s.controllers;
    forall u, l | HandedBack(u) && WritesOwnPath(u) && Enabled(u, l) ensures HandedBack(Step(u, l)) && WritesOwnPath(Step(u, l)) {
      StepLogged(u, l);
      LeavesStep(u, Step(u, l));
    }
    Invariance(u => HandedBack(u) && WritesOwnPath(u), Anything(), s, ls, t);
  }

  // ---------------------------------------------------------------- who may still write

  lemma {:induction false} ProbeEnds(s: State) returns (ls: seq<Label>, t: State)
    ensures Run(Anything(), s, ls, t) && t == s.(probe := [], log := t.log)
    decreases |s.probe|
  {
    if s.probe == [] {
      RunNone(s);
      ls, t := [], s;
    } else {
      var rest;
      rest, t := ProbeEnds(Step(s, OfWriter(ProbeNext)));
      RunCons(s, OfWriter(ProbeNext), rest, t);
      ls := [OfWriter(ProbeNext)] + rest;
    }
  }

  /** Whose write a step is. */
  function WriterOf(w: WriterStep): Writer {
    match w
    case HelperWrite(_) | HelperExit => ByHelper
    case ProbeWrite(_) | ProbeNext => ByProbe
    case OutsiderWrite(_) => ByOutsider
    case EnvelopeWrite(_) => ByEnvelope
  }

  /** The deferred calls end with the exit Restore, and then one more write. */
  lemma UnwindThenWrite(s: State, w: WriterStep) returns (ls: seq<Label>, t: State)
    requires s.main == Unwinding && (w.EnvelopeWrite? || w.OutsiderWrite? || (w.HelperWrite? && s.helpers > 0))
    ensures Run(Anything(), s, ls, t) && t.main == Restored && |t.log| >= 2
    ensures t.log[|t.log| - 2] == ExitRestore && t.log[|t.log| - 1] == Wrote(WriterOf(w), w.path)
  {
    var probe, u := ProbeEnds(s);
    var v := Step(u, OfMain(Unwound));
    t := Step(v, OfWriter(w));
    RunNone(t);
    RunCons(v, OfWriter(w), [], t);
    RunCons(u, OfMain(Unwound), [OfWriter(w)] + [], t);
    RunConcat(s, probe, u, [OfMain(Unwound)] + ([OfWriter(w)] + []), t);
    ls := probe + ([OfMain(Unwound)] + ([OfWriter(w)] + []));
  }

  lemma StopEnds(s: State) returns (ls: seq<Label>, t: State)
    requires Credit(s) && s.main == Stopping && Told(s)
    ensures Run(Anything(), s, ls, t) && t.main == Unwinding && ls != [] && ls[|ls| - 1] == OfMain(StopDone)
  {
    var rest, u := WaitCanEnd(s);
    t := MainNext(u, StopDone);
    ls := EndsWith(s, rest, u, StopDone);
  }

  /**
   From every start there is a run in which the envelope goroutine, or an outsider, writes after the
   exit Restore, although the exit has waited for the wait group.
   */
  lemma UnjoinedMayWriteLast(s: State, file: Config, r: Resolver, started: nat, w: WriterStep) returns (ls: seq<Label>, t: State)
    requires Init(s, file, r, started) && (w.EnvelopeWrite? || w.OutsiderWrite?)
    ensures Run(Anything(), s, ls, t) && t.main == Restored && |t.log| >= 2
    ensures exists j :: 0 <= j < |ls| && ls[j] == OfMain(StopDone)
    ensures t.log[|t.log| - 2] == ExitRestore && t.log[|t.log| - 1] == Wrote(WriterOf(w), w.path)
  {
    InitCredit(s, file, r, started);
    var first, a := [], s;
    RunNone(s);
    if s.main == Listening {
      a := Step(s, OfMain(Terminate));
      RunNone(a);
      RunCons(s, OfMain(Terminate), [], a);
      first := [OfMain(Terminate)] + [];
    }
    var stop, b := StopEnds(a);
    var last;
    last, t := UnwindThenWrite(b, w);
    RunConcat(a, stop, b, last, t);
    RunConcat(s, first, a, stop + last, t);
    ls := first + (stop + last);
    assert ls[|first| + |stop| - 1] == stop[|stop| - 1];
  }

  lemma DrainAborts(s: State) returns (ls: seq<Label>, t: State)
    requires Credit(s) && s.main.Draining? && s.cohortCancelled
    ensures Run(Anything(), s, ls, t) && t.main == Unwinding && t.helpers == s.helpers
  {
    var a := Step(s, OfOutside(ParentCancel));
    var rest, u := WaitCanEnd(a);
    t := MainNext(u, DrainDone);
    var end := EndsWith(a, rest, u, DrainDone);
    RunCons(s, OfOutside(ParentCancel), end, t);
    ls := [OfOutside(ParentCancel)] + end;
  }

  /**
   The exit in the middle of a renumber returns without waiting for the wait group: from every
   start whose config a reload can move, a helper can write after the exit Restore.
   */
  lemma RenumberExitSkipsTheJoin(s: State, file: Config, r0: Resolver, started: nat, c: Config, r: Resolver, enable: Path -> int, p: Path)
    returns (ls: seq<Label>, t: State)
    requires Init(s, file, r0, started) && s.main == Listening && s.helpers > 0 && BranchOf(s.live, c, r) == Renumber
    ensures Run(Anything(), s, ls, t) && t.main == Restored && |t.log| >= 2
    ensures t.log[|t.log| - 2] == ExitRestore && t.log[|t.log| - 1] == Wrote(ByHelper, p)
  {
    InitCredit(s, file, r0, started);
    ReloadRuns(s, Some(c), r, enable);
    RenumberReload(s, c, r, enable);
    var a := AfterReload(s, Some(c), r, enable);
    var drain, b := DrainAborts(a);
    var last;
    last, t := UnwindThenWrite(b, HelperWrite(p));
    RunConcat(a, drain, b, last, t);
    RunConcat(s, ReloadOf(s, Some(c), r, enable), a, drain + last, t);
    ls := ReloadOf(s, Some(c), r, enable) + (drain + last);
  }
}
