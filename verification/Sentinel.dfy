/**
 The zero-PWM safety timer (internal/calibrate/safety.go). A timer that has expired may still
 have its callback waiting for the sentinel's lock; every order of Set, Stop, expiry and callback
 is a run.
 */
module Sentinel {
  import opened Common

  newtype duty = n: int | 0 <= n < 256

  /** ZeroPWMMaxDuration, in milliseconds. */
  const MAX_ZERO := 2000

  /** A call of the escalate function: the timer behind it, when, and the sentinel's fields then. */
  datatype Escalation = Escalation(timer: nat, at: int, current: duty, stopped: bool, latest: Option<nat>)

  /** Timers are numbered; timer n was armed by the n-th Set(0). */
  datatype State = State(
    now: int,
    current: duty,
    timer: Option<nat>,          // the sentinel's timer field
    stopped: bool,
    armedAt: seq<int>,           // when each timer was created
    unfired: set<nat>,           // running timers
    due: set<nat>,               // expired, callback not yet run
    escalations: seq<Escalation>
  )

  datatype Label = Set(value: duty) | Stop | Expire(timer: nat) | Callback(timer: nat) | Advance(millis: nat)

  const Start := State(0, 0, None, false, [], {}, {}, [])

  function Deadline(s: State, t: nat): int
    requires t < |s.armedAt|
  {
    s.armedAt[t] + MAX_ZERO
  }

  /** Timer.Stop: no effect on a timer that has expired. */
  function StopTimer(s: State): State { if s.timer.Some? then s.(unfired := s.unfired - {s.timer.value}) else s }

  function SetStep(s: State, value: duty): State {
    if s.stopped then s
    else
      var t := StopTimer(s).(current := value);
      if value == 0
      then t.(timer := Some(|s.armedAt|), armedAt := s.armedAt + [s.now], unfired := t.unfired + {|s.armedAt|})
      else t.(timer := None)
  }

  function StopStep(s: State): State { StopTimer(s).(stopped := true, timer := None) }

  function CallbackStep(s: State, t: nat): State {
    var u := s.(due := s.due - {t});
    if s.stopped || s.current != 0 then u
    else u.(escalations := s.escalations + [Escalation(t, s.now, s.current, s.stopped, s.timer)])
  }

  predicate Enabled(s: State, l: Label) {
    match l
    case Set(_) => true
    case Stop => true
    case Expire(t) => t in s.unfired && t < |s.armedAt| && Deadline(s, t) <= s.now
    case Callback(t) => t in s.due
    case Advance(_) => true
  }

  function Step(s: State, l: Label): State {
    match l
    case Set(v) => SetStep(s, v)
    case Stop => StopStep(s)
    case Expire(t) => s.(unfired := s.unfired - {t}, due := s.due + {t})
    case Callback(t) => CallbackStep(s, t)
    case Advance(d) => s.(now := s.now + d)
  }

  // ---------------------------------------------------------------- the object

  /** The runtime's timers; the sentinel's clock. */
  class Clock {
    var now: int
    var armedAt: seq<int>
    var unfired: set<nat>
    var due: set<nat>

    constructor ()
      ensures now == 0 && armedAt == [] && unfired == {} && due == {}
    {
      now, armedAt, unfired, due := 0, [], {}, {};
    }

    method AfterFunc() returns (timer: nat)
      modifies this
      ensures timer == |old(armedAt)| && armedAt == old(armedAt) + [now] && unfired == old(unfired) + {timer}
      ensures now == old(now) && due == old(due)
    {
      timer := |armedAt|;
      armedAt := armedAt + [now];
      unfired := unfired + {timer};
    }

    method StopTimer(timer: nat)
      modifies this
      ensures unfired == old(unfired) - {timer}
      ensures now == old(now) && armedAt == old(armedAt) && due == old(due)
    {
      unfired := unfired - {timer};
    }

    method Finish(timer: nat)
      modifies this
      ensures due == old(due) - {timer}
      ensures now == old(now) && armedAt == old(armedAt) && unfired == old(unfired)
    {
      due := due - {timer};
    }
  }

  class ZeroPWMSentinel {
    const clock: Clock
    var timer: Option<nat>
    var current: duty
    var stopped: bool
    var escalations: seq<Escalation>

    function View(): State
      reads this, clock
    {
      State(clock.now, current, timer, stopped, clock.armedAt, clock.unfired, clock.due, escalations)
    }

    constructor ()
      ensures fresh(clock) && View() == Start
    {
      clock := new Clock();
      timer, current, stopped, escalations := None, 0, false, [];
    }

    method Set(value: duty)
      modifies this, clock
      ensures View() == SetStep(old(View()), value)
    {
      if stopped {
        return;
      }
      current := value;
      if value == 0 {
        if timer.Some? {
          clock.StopTimer(timer.value);
        }
        var t := clock.AfterFunc();
        timer := Some(t);
        return;
      }
      if timer.Some? {
        clock.StopTimer(timer.value);
        timer := None;
      }
    }

    method Stop()
      modifies this, clock
      ensures View() == StopStep(old(View()))
    {
      stopped := true;
      if timer.Some? {
        clock.StopTimer(timer.value);
        timer := None;
      }
    }

    /** The callback of timer `t`, once it holds the lock. */
    method EscalateLocked(t: nat)
      modifies this, clock
      ensures View() == CallbackStep(old(View()), t)
    {
      clock.Finish(t);
      if stopped {
        return;
      }
      if current != 0 {
        return;
      }
      escalations := escalations + [Escalation(t, clock.now, current, stopped, timer)];
    }
  }

  // ---------------------------------------------------------------- every interleaving

  ghost predicate Run(ok: (State, Label) -> bool, s: State, ls: seq<Label>, t: State)
    decreases |ls|
  {
    if ls == [] then s == t
    else Enabled(s, ls[0]) && ok(s, ls[0]) && Run(ok, Step(s, ls[0]), ls[1..], t)
  }

  lemma {:induction false} Invariance(inv: State -> bool, ok: (State, Label) -> bool, s: State, ls: seq<Label>, t: State)
    requires inv(s) && Run(ok, s, ls, t)
    requires forall u, l :: inv(u) && Enabled(u, l) && ok(u, l) ==> inv(Step(u, l))
    ensures inv(t)
    decreases |ls|
  {
    if ls != [] { Invariance(inv, ok, Step(s, ls[0]), ls[1..], t); }
  }

  ghost predicate Escalated(s: State, t: nat) { exists i :: 0 <= i < |s.escalations| && s.escalations[i].timer == t }

  ghost predicate Inv(s: State) {
    && (forall t :: t in s.unfired ==> s.timer == Some(t) && s.current == 0 && !s.stopped)
    && (forall t :: t in s.unfired || t in s.due ==> t < |s.armedAt| && !Escalated(s, t))
    && (forall t :: t in s.due ==> t !in s.unfired && Deadline(s, t) <= s.now)
    && (s.timer.Some? ==> s.timer.value < |s.armedAt|)
    && (forall i | 0 <= i < |s.escalations| ::
          var e := s.escalations[i];
          e.current == 0 && !e.stopped && e.timer < |s.armedAt| && Deadline(s, e.timer) <= e.at)
    && (forall i, j | 0 <= i < j < |s.escalations| :: s.escalations[i].timer != s.escalations[j].timer)
  }

  lemma InvSet(s: State, value: duty)
    requires Inv(s)
    ensures Inv(SetStep(s, value))
  {
    var t := SetStep(s, value);
    assert t.escalations == s.escalations;
    assert forall k :: Escalated(t, k) <==> Escalated(s, k);
    assert !Escalated(s, |s.armedAt|);
  }

  lemma InvCallback(s: State, t: nat)
    requires Inv(s) && t in s.due
    ensures Inv(CallbackStep(s, t))
  {
    var u := CallbackStep(s, t);
    forall k | Escalated(u, k) ensures Escalated(s, k) || k == t {
      var i :| 0 <= i < |u.escalations| && u.escalations[i].timer == k;
      if i < |s.escalations| { assert s.escalations[i].timer == k; }
    }
    forall i | 0 <= i < |s.escalations| ensures s.escalations[i].timer != t { assert !Escalated(s, t); }
  }

  lemma InvStep(s: State, l: Label)
    requires Inv(s) && Enabled(s, l)
    ensures Inv(Step(s, l))
  {
    var t := Step(s, l);
    match l
    case Set(v) => InvSet(s, v);
    case Callback(k) => InvCallback(s, k);
    case _ =>
      assert t.escalations == s.escalations;
      assert forall k :: Escalated(t, k) <==> Escalated(s, k);
  }

  /**
   In every interleaving: escalate runs only while the fan is at zero and the sentinel is not
   stopped, at most once for each Set(0) and not before that Set(0) is two seconds old; and a
   running timer exists only while the fan is at zero, one at most.
   */
  lemma {:induction false} EscalatesOncePerZero(ls: seq<Label>, s: State)
    requires Run((u, l) => true, Start, ls, s)
    ensures forall i | 0 <= i < |s.escalations| :: s.escalations[i].current == 0 && !s.escalations[i].stopped
    ensures forall i, j | 0 <= i < j < |s.escalations| :: s.escalations[i].timer != s.escalations[j].timer
    ensures forall i | 0 <= i < |s.escalations| ::
              s.escalations[i].timer < |s.armedAt| && s.escalations[i].at >= s.armedAt[s.escalations[i].timer] + 2000
    ensures |s.unfired| <= 1 && (s.unfired != {} ==> s.current == 0 && !s.stopped)
  {
    forall u, l | Inv(u) && Enabled(u, l) ensures Inv(Step(u, l)) { InvStep(u, l); }
    Invariance(u => Inv(u), (u, l) => true, Start, ls, s);
    if t :| t in s.unfired { assert s.unfired == {t}; }
  }

  // ---------------------------------------------------------------- undelayed callbacks

  /** Expiry is not late, and its callback runs before anything else happens. */
  predicate Prompt(s: State, l: Label) {
    if s.due != {} then l.Callback?
    else l.Advance? ==> forall t :: t in s.unfired && t < |s.armedAt| ==> s.now + l.millis <= Deadline(s, t)
  }

  ghost predicate PromptInv(s: State) {
    && Inv(s)
    && (forall t :: t in s.due ==> s.timer == Some(t) && s.current == 0 && !s.stopped && s.now == Deadline(s, t))
    && (forall t :: t in s.unfired ==> s.now <= Deadline(s, t))
    && (forall i | 0 <= i < |s.escalations| ::
          s.escalations[i].latest == Some(s.escalations[i].timer) && s.escalations[i].at == Deadline(s, s.escalations[i].timer))
    && (s.current == 0 && !s.stopped && s.armedAt != [] ==>
          var t := |s.armedAt| - 1;
          s.timer == Some(t) && (t in s.unfired || t in s.due || Escalated(s, t)))
  }

  lemma PromptStep(s: State, l: Label)
    requires PromptInv(s) && Enabled(s, l) && Prompt(s, l)
    ensures PromptInv(Step(s, l))
  {
    InvStep(s, l);
    var t := Step(s, l);
    if l.Callback? {
      assert t.escalations[|s.escalations|].timer == l.timer;
      assert Escalated(t, l.timer);
    } else {
      assert t.escalations == s.escalations;
      assert forall k :: Escalated(t, k) <==> Escalated(s, k);
    }
  }

  /**
   With prompt callbacks each escalation comes exactly two seconds after the latest Set(0), and
   a Set(0) that is neither followed by another Set nor by Stop leads to one.
   */
  lemma {:induction false} PromptEscalationIsExact(ls: seq<Label>, s: State)
    requires Run((u, l) => Prompt(u, l), Start, ls, s)
    ensures forall i | 0 <= i < |s.escalations| ::
              var e := s.escalations[i];
              e.latest == Some(e.timer) && e.timer < |s.armedAt| && e.at == s.armedAt[e.timer] + 2000
    ensures s.current == 0 && !s.stopped && s.armedAt != [] ==>
              s.now > s.armedAt[|s.armedAt| - 1] + 2000 ==> Escalated(s, |s.armedAt| - 1)
  {
    forall u, l | PromptInv(u) && Enabled(u, l) && Prompt(u, l) ensures PromptInv(Step(u, l)) { PromptStep(u, l); }
    Invariance(u => PromptInv(u), (u, l) => Prompt(u, l), Start, ls, s);
  }

  /**
   A delayed callback breaks the timing: the stale callback of an earlier Set(0) escalates at once
   after a fresh Set(0), although the fan has just been stopped.
   */
  lemma StaleCallbackEscalatesEarly()
    ensures var ls := [Set(0), Advance(2000), Expire(0), Set(9), Set(0), Callback(0)];
            exists s :: Run((u, l) => true, Start, ls, s) && s.escalations == [Escalation(0, 2000, 0, false, Some(1))]
               && s.armedAt[1] == 2000
  {
    var ok := (u: State, l: Label) => true;
    var s1 := Step(Start, Set(0));
    var s2 := Step(s1, Advance(2000));
    var s3 := Step(s2, Expire(0));
    var s4 := Step(s3, Set(9));
    var s5 := Step(s4, Set(0));
    var s6 := Step(s5, Callback(0));
    assert Run(ok, s6, [], s6);
    RunCons(ok, s5, Callback(0), [], s6);
    RunCons(ok, s4, Set(0), [Callback(0)], s6);
    RunCons(ok, s3, Set(9), [Set(0), Callback(0)], s6);
    RunCons(ok, s2, Expire(0), [Set(9), Set(0), Callback(0)], s6);
    RunCons(ok, s1, Advance(2000), [Expire(0), Set(9), Set(0), Callback(0)], s6);
    RunCons(ok, Start, Set(0), [Advance(2000), Expire(0), Set(9), Set(0), Callback(0)], s6);
    assert s5.armedAt == [0, 2000];
  }

  /** Nobody calls Set or Stop. */
  predicate Undisturbed(s: State, l: Label) { !l.Set? && !l.Stop? }

  /** An escalation made after `s`, before a Set(0) in `s` is two seconds old. */
  ghost predicate EscalatedEarly(s: State, t: State) {
    exists i :: |s.escalations| <= i < |t.escalations| && t.escalations[i].at < s.now + 2000
  }

  /** Since the Set(0) in `s`, only timers armed by it can run, expire or escalate. */
  ghost predicate OnTime(s: State, t: State) {
    && (forall i | |s.escalations| <= i < |t.escalations| :: t.escalations[i].at >= s.now + MAX_ZERO)
    && (t.stopped || forall k :: k in t.unfired || k in t.due ==> k < |t.armedAt| && t.armedAt[k] == s.now)
    && (forall k :: k in t.due && k < |t.armedAt| ==> Deadline(t, k) <= t.now)
  }

  lemma OnTimeStep(s: State, t: State, l: Label)
    requires OnTime(s, t) && Enabled(t, l) && Undisturbed(t, l)
    ensures OnTime(s, Step(t, l))
  {
  }

  /** Some run from a Set(0) in `s`, with no further Set or Stop, escalates early. */
  ghost predicate CanEscalateEarly(s: State) {
    exists ls, t :: Run(Undisturbed, SetStep(s, 0), ls, t) && EscalatedEarly(s, t)
  }

  /** With no callback waiting at the Set(0), nothing escalates before it is two seconds old. */
  lemma {:induction false} NotEarlyWithoutDue(s: State, ls: seq<Label>, t: State)
    requires Inv(s) && (s.stopped || s.due == {}) && Run(Undisturbed, SetStep(s, 0), ls, t)
    ensures !EscalatedEarly(s, t)
  {
    assert OnTime(s, SetStep(s, 0)) by { assert forall k :: k in s.unfired ==> s.timer == Some(k); }
    forall u, l | OnTime(s, u) && Enabled(u, l) && Undisturbed(u, l) ensures OnTime(s, Step(u, l)) { OnTimeStep(s, u, l); }
    Invariance(u => OnTime(s, u), Undisturbed, SetStep(s, 0), ls, t);
  }

  /** A waiting callback that gets the lock right after the Set(0). */
  lemma EarlyWithDue(s: State, k: nat)
    requires !s.stopped && k in s.due
    ensures CanEscalateEarly(s)
  {
    var u := SetStep(s, 0);
    var t := CallbackStep(u, k);
    assert Run(Undisturbed, t, [], t);
    RunCons(Undisturbed, u, Callback(k), [], t);
    assert t.escalations[|s.escalations|].at == s.now;
  }

  /**
   A Set(0) can be followed by an escalation before it is two seconds old if and only if the
   sentinel is not stopped and, at the Set(0), some earlier timer has expired with its callback
   still waiting for the lock: the case in which timer.Stop() reports false.
   */
  lemma {:induction false} EarlyEscalationIff(before: seq<Label>, s: State)
    requires Run((u, l) => true, Start, before, s)
    ensures CanEscalateEarly(s) <==> !s.stopped && s.due != {}
  {
    forall u, l | Inv(u) && Enabled(u, l) ensures Inv(Step(u, l)) { InvStep(u, l); }
    Invariance(u => Inv(u), (u, l) => true, Start, before, s);
    if !s.stopped && s.due != {} {
      var k :| k in s.due;
      EarlyWithDue(s, k);
    } else if CanEscalateEarly(s) {
      var ls, t :| Run(Undisturbed, SetStep(s, 0), ls, t) && EscalatedEarly(s, t);
      NotEarlyWithoutDue(s, ls, t);
    }
  }

  lemma RunCons(ok: (State, Label) -> bool, s: State, l: Label, rest: seq<Label>, t: State)
    requires Enabled(s, l) && ok(s, l) && Run(ok, Step(s, l), rest, t)
    ensures Run(ok, s, [l] + rest, t)
  {
    assert ([l] + rest)[1..] == rest;
  }
}
