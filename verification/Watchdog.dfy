/**
 The watchdog registry (internal/watchdog/watchdog.go): one flat list of entries in which
 Deregister and RestoreOne act on the most recent entry of a path.

 Partner of the list: one independent stack per path (`StackRun`). The list refines it
 (`ListRefinesStacks`), a startup entry survives every nested sweep (`StartupEntrySurvives`),
 and under any interleaving of the goroutines that share the registry the entries are exactly
 the sum of what each goroutine still holds (`EntriesAreSumOfHoldings`).
 */
module FanWatchdog {
  import opened Common

  /** `orig` is the pwm_enable value the entry writes back on restore. */
  datatype Entry = Entry(path: Path, kind: string, orig: int)

  datatype Op = Register(path: Path, kind: string, orig: int) | Deregister(path: Path)

  // ---------------------------------------------------------------- the flat list

  function RemoveLast(es: seq<Entry>, p: Path): seq<Entry> {
    if es == [] then []
    else if es[|es| - 1].path == p then es[..|es| - 1]
    else RemoveLast(es[..|es| - 1], p) + [es[|es| - 1]]
  }

  function Exec1(es: seq<Entry>, op: Op): seq<Entry> {
    match op
    case Register(p, kind, orig) => if kind == "ipmi" then es else es + [Entry(p, kind, orig)]
    case Deregister(p) => RemoveLast(es, p)
  }

  function Exec(es: seq<Entry>, ops: seq<Op>): seq<Entry> {
    if ops == [] then es else Exec1(Exec(es, ops[..|ops| - 1]), ops[|ops| - 1])
  }

  // ---------------------------------------------------------------- one stack per path

  function StackOf(es: seq<Entry>, p: Path): seq<Entry> {
    if es == [] then []
    else StackOf(es[..|es| - 1], p) + if es[|es| - 1].path == p then [es[|es| - 1]] else []
  }

  function Pop(stack: seq<Entry>): seq<Entry> {
    if stack == [] then [] else stack[..|stack| - 1]
  }

  /** The effect of one operation on the stack of path `p` alone. */
  function StackStep(stack: seq<Entry>, op: Op, p: Path): seq<Entry> {
    if op.path != p then stack
    else match op
      case Register(_, kind, orig) => if kind == "ipmi" then stack else stack + [Entry(p, kind, orig)]
      case Deregister(_) => Pop(stack)
  }

  function StackRun(stack: seq<Entry>, ops: seq<Op>, p: Path): seq<Entry> {
    if ops == [] then stack else StackStep(StackRun(stack, ops[..|ops| - 1], p), ops[|ops| - 1], p)
  }

  lemma {:induction false} StackOfAppend(es: seq<Entry>, e: Entry, p: Path)
    ensures StackOf(es + [e], p) == StackOf(es, p) + if e.path == p then [e] else []
  {
    assert (es + [e])[..|es|] == es;
  }

  lemma {:induction false} RemoveLastPops(es: seq<Entry>, p: Path, q: Path)
    ensures StackOf(RemoveLast(es, p), q) == if p == q then Pop(StackOf(es, q)) else StackOf(es, q)
  {
    if es != [] {
      var init, last := es[..|es| - 1], es[|es| - 1];
      if last.path != p {
        RemoveLastPops(init, p, q);
        StackOfAppend(RemoveLast(init, p), last, q);
      }
    }
  }

  /**
   What one call does to the stack of each path: an IPMI registration nothing, another one a push on
   its own path, a Deregister a pop of its own path, if there is something to pop.
   */
  lemma CallMeans(es: seq<Entry>, p: Path, kind: string, orig: int, q: Path)
    ensures kind == "ipmi" ==> Exec1(es, Register(p, kind, orig)) == es
    ensures kind != "ipmi" ==> StackOf(Exec1(es, Register(p, kind, orig)), p) == StackOf(es, p) + [Entry(p, kind, orig)]
    ensures StackOf(es, p) == [] ==> Exec1(es, Deregister(p)) == es
    ensures StackOf(es, p) != [] ==> StackOf(Exec1(es, Deregister(p)), p) == StackOf(es, p)[..|StackOf(es, p)| - 1]
    ensures q != p ==> StackOf(Exec1(es, Register(p, kind, orig)), q) == StackOf(es, q) == StackOf(Exec1(es, Deregister(p)), q)
  {
    StackOfAppend(es, Entry(p, kind, orig), p);
    StackOfAppend(es, Entry(p, kind, orig), q);
    RemoveLastPops(es, p, p);
    RemoveLastPops(es, p, q);
    if StackOf(es, p) == [] { NothingToRemove(es, p); }
    assert StackOf(es, q) + [] == StackOf(es, q);
  }

  lemma {:induction false} NothingToRemove(es: seq<Entry>, p: Path)
    requires StackOf(es, p) == []
    ensures RemoveLast(es, p) == es
  {
    if es != [] {
      var init, last := es[..|es| - 1], es[|es| - 1];
      assert |StackOf(es, p)| == |StackOf(init, p)| + if last.path == p then 1 else 0;
      NothingToRemove(init, p);
      assert es == init + [last];
    }
  }

  /** The shared list behaves as a family of independent stacks, one per path. */
  lemma {:induction false} ListRefinesStacks(es: seq<Entry>, ops: seq<Op>, p: Path)
    ensures StackOf(Exec(es, ops), p) == StackRun(StackOf(es, p), ops, p)
  {
    if ops != [] {
      var init, last := ops[..|ops| - 1], ops[|ops| - 1];
      ListRefinesStacks(es, init, p);
      match last
      case Register(q, kind, orig) => StackOfAppend(Exec(es, init), Entry(q, kind, orig), p);
      case Deregister(q) => RemoveLastPops(Exec(es, init), q, p);
    }
  }

  lemma {:induction false} ExecConcat(es: seq<Entry>, a: seq<Op>, b: seq<Op>)
    ensures Exec(es, a + b) == Exec(Exec(es, a), b)
  {
    if b == [] {
      assert a + b == a;
    } else {
      ExecConcat(es, a, b[..|b| - 1]);
      assert (a + b)[..|a + b| - 1] == a + b[..|b| - 1];
    }
  }

  lemma {:induction false} StackRunConcat(stack: seq<Entry>, a: seq<Op>, b: seq<Op>, p: Path)
    ensures StackRun(stack, a + b, p) == StackRun(StackRun(stack, a, p), b, p)
  {
    if b == [] {
      assert a + b == a;
    } else {
      StackRunConcat(stack, a, b[..|b| - 1], p);
      assert (a + b)[..|a + b| - 1] == a + b[..|b| - 1];
    }
  }

  // ---------------------------------------------------------------- nesting

  /** Registrations of `p` minus deregistrations of `p`. */
  function Depth(ops: seq<Op>, p: Path): int {
    if ops == [] then 0
    else
      var last := ops[|ops| - 1];
      Depth(ops[..|ops| - 1], p) +
      if last.path != p then 0
      else if last.Deregister? then -1
      else if last.kind == "ipmi" then 0 else 1
  }

  /** No prefix of `ops` deregisters `p` more often than it registers it. */
  ghost predicate Nested(ops: seq<Op>, p: Path) {
    forall i | 0 <= i <= |ops| :: 0 <= Depth(ops[..i], p)
  }

  /** Nested activity on a path leaves the entries below it in place, whatever else runs. */
  lemma {:induction false} StartupEntrySurvives(es: seq<Entry>, ops: seq<Op>, p: Path)
    requires Nested(ops, p)
    ensures StackOf(es, p) <= StackOf(Exec(es, ops), p)
    ensures |StackOf(Exec(es, ops), p)| == |StackOf(es, p)| + Depth(ops, p)
  {
    if ops != [] {
      var init := ops[..|ops| - 1];
      assert ops[..|ops|] == ops;
      assert forall i | 0 <= i <= |init| :: init[..i] == ops[..i];
      StartupEntrySurvives(es, init, p);
      ListRefinesStacks(es, init, p);
      ListRefinesStacks(es, ops, p);
    }
  }

  // ---------------------------------------------------------------- who holds what

  function Bag(es: seq<Entry>): multiset<Path> {
    if es == [] then multiset{} else Bag(es[..|es| - 1]) + multiset{es[|es| - 1].path}
  }

  function NetStep(held: multiset<Path>, op: Op): multiset<Path> {
    match op
    case Register(p, kind, _) => if kind == "ipmi" then held else held + multiset{p}
    case Deregister(p) => held - multiset{p}
  }

  function Net(held: multiset<Path>, ops: seq<Op>): multiset<Path> {
    if ops == [] then held else NetStep(Net(held, ops[..|ops| - 1]), ops[|ops| - 1])
  }

  lemma BagAppend(es: seq<Entry>, e: Entry)
    ensures Bag(es + [e]) == Bag(es) + multiset{e.path}
  {
    assert (es + [e])[..|es|] == es;
  }

  lemma OtherPath(b: multiset<Path>, p: Path, q: Path)
    requires p != q
    ensures b - multiset{p} + multiset{q} == b + multiset{q} - multiset{p}
  {
  }

  lemma {:induction false} BagRemoveLast(es: seq<Entry>, p: Path)
    ensures Bag(RemoveLast(es, p)) == Bag(es) - multiset{p}
  {
    if es != [] {
      var init, last := es[..|es| - 1], es[|es| - 1];
      if last.path != p {
        BagRemoveLast(init, p);
        BagAppend(RemoveLast(init, p), last);
        OtherPath(Bag(init), p, last.path);
      }
    }
  }

  lemma {:induction false} BagExec1(es: seq<Entry>, op: Op)
    ensures Bag(Exec1(es, op)) == NetStep(Bag(es), op)
  {
    match op
    case Register(p, kind, orig) => assert (es + [Entry(p, kind, orig)])[..|es|] == es;
    case Deregister(p) => BagRemoveLast(es, p);
  }

  lemma {:induction false} BagCounts(es: seq<Entry>, p: Path)
    ensures Bag(es)[p] == |StackOf(es, p)|
  {
    if es != [] { BagCounts(es[..|es| - 1], p); }
  }

  /** The goroutines that register fans: the main loop, the polarity probe, a calibration sweep. */
  datatype Owner = Daemon | Probe | Sweep

  datatype Call = Call(who: Owner, op: Op)

  function OpsOf(trace: seq<Call>): seq<Op> {
    seq(|trace|, i requires 0 <= i < |trace| => trace[i].op)
  }

  /** The operations of one goroutine, in order. */
  function Program(trace: seq<Call>, w: Owner): seq<Op> {
    if trace == [] then []
    else Program(trace[..|trace| - 1], w) + if trace[|trace| - 1].who == w then [trace[|trace| - 1].op] else []
  }

  /** Registrations of `w` that `w` has not yet taken back. */
  function Held(trace: seq<Call>, w: Owner): multiset<Path> { Net(multiset{}, Program(trace, w)) }

  /**
   A program that takes back its own registrations only. Paths in `tach` are never registered
   by anyone, so a Deregister of one (main.go does that for tachometers) finds nothing.
   */
  ghost predicate Polite(tach: set<Path>, held: multiset<Path>, ops: seq<Op>) {
    && (forall p :: p in held ==> p !in tach)
    && forall i | 0 <= i < |ops| ::
         if ops[i].Register? then ops[i].path !in tach
         else ops[i].path in tach || ops[i].path in Net(held, ops[..i])
  }

  lemma {:induction false} PolitePrefix(tach: set<Path>, held: multiset<Path>, ops: seq<Op>, op: Op)
    requires Polite(tach, held, ops + [op])
    ensures Polite(tach, held, ops)
    ensures if op.Register? then op.path !in tach else op.path in tach || op.path in Net(held, ops)
  {
    var all := ops + [op];
    assert all[..|ops|] == ops && all[|ops|] == op;
    forall i | 0 <= i < |ops|
      ensures if ops[i].Register? then ops[i].path !in tach else ops[i].path in tach || ops[i].path in Net(held, ops[..i])
    {
      assert all[..i] == ops[..i] && all[i] == ops[i];
    }
  }

  lemma {:induction false} PoliteExtend(tach: set<Path>, held: multiset<Path>, ops: seq<Op>, op: Op)
    requires Polite(tach, held, ops)
    requires if op.Register? then op.path !in tach else op.path in tach || op.path in Net(held, ops)
    ensures Polite(tach, held, ops + [op])
  {
    var all := ops + [op];
    forall i | 0 <= i < |all|
      ensures if all[i].Register? then all[i].path !in tach else all[i].path in tach || all[i].path in Net(held, all[..i])
    {
      if i < |ops| { assert all[..i] == ops[..i]; } else { assert all[..i] == ops; }
    }
  }

  lemma {:induction false} PoliteHoldsNoTach(tach: set<Path>, held: multiset<Path>, ops: seq<Op>)
    requires Polite(tach, held, ops)
    ensures forall p :: p in Net(held, ops) ==> p !in tach
  {
    if ops != [] {
      var init, last := ops[..|ops| - 1], ops[|ops| - 1];
      assert ops == init + [last];
      PolitePrefix(tach, held, init, last);
      PoliteHoldsNoTach(tach, held, init);
    }
  }

  lemma {:induction false} PoliteConcat(tach: set<Path>, held: multiset<Path>, a: seq<Op>, b: seq<Op>)
    requires Polite(tach, held, a) && Polite(tach, Net(held, a), b)
    ensures Polite(tach, held, a + b)
  {
    if b == [] {
      assert a + b == a;
    } else {
      var init, last := b[..|b| - 1], b[|b| - 1];
      assert b == init + [last];
      PolitePrefix(tach, Net(held, a), init, last);
      PoliteConcat(tach, held, a, init);
      NetConcat(held, a, init);
      PoliteExtend(tach, held, a + init, last);
      assert a + b == a + init + [last];
    }
  }

  /** One more call changes the program and the holdings of its caller only. */
  lemma {:induction false} OneMoreCall(trace: seq<Call>, last: Call, w: Owner)
    ensures Program(trace + [last], w) == Program(trace, w) + if last.who == w then [last.op] else []
    ensures Held(trace + [last], w) == After(Held(trace, w), last, w)
  {
    assert (trace + [last])[..|trace|] == trace;
    if last.who == w {
      var program := Program(trace, w) + [last.op];
      assert program[..|program| - 1] == Program(trace, w);
    } else {
      assert Program(trace, w) + [] == Program(trace, w);
    }
  }

  lemma {:induction false} ProgramsStayPolite(tach: set<Path>, trace: seq<Call>, last: Call, w: Owner)
    requires Polite(tach, multiset{}, Program(trace + [last], w))
    ensures Polite(tach, multiset{}, Program(trace, w))
    ensures last.who == w && last.op.Deregister? ==> last.op.path in tach || last.op.path in Held(trace, w)
    ensures forall p :: p in Held(trace, w) ==> p !in tach
  {
    OneMoreCall(trace, last, w);
    if last.who == w {
      PolitePrefix(tach, multiset{}, Program(trace, w), last.op);
    } else {
      assert Program(trace, w) + [] == Program(trace, w);
    }
    PoliteHoldsNoTach(tach, multiset{}, Program(trace, w));
  }

  ghost predicate AllPolite(tach: set<Path>, trace: seq<Call>) {
    && Polite(tach, multiset{}, Program(trace, Daemon))
    && Polite(tach, multiset{}, Program(trace, Probe))
    && Polite(tach, multiset{}, Program(trace, Sweep))
  }

  lemma {:induction false} LastCallIsPolite(tach: set<Path>, trace: seq<Call>, last: Call)
    requires AllPolite(tach, trace + [last])
    ensures AllPolite(tach, trace)
    ensures last.op.Deregister? ==>
              || last.op.path in Held(trace, last.who)
              || last.op.path !in Total(Held(trace, Daemon), Held(trace, Probe), Held(trace, Sweep))
  {
    ProgramsStayPolite(tach, trace, last, Daemon);
    ProgramsStayPolite(tach, trace, last, Probe);
    ProgramsStayPolite(tach, trace, last, Sweep);
  }

  function Total(d: multiset<Path>, p: multiset<Path>, s: multiset<Path>): multiset<Path> { d + p + s }

  function After(held: multiset<Path>, last: Call, w: Owner): multiset<Path> {
    if last.who == w then NetStep(held, last.op) else held
  }

  /** Taking back an own registration leaves the holdings of the others alone. */
  lemma TotalAfter(d: multiset<Path>, p: multiset<Path>, s: multiset<Path>, last: Call)
    requires last.op.Deregister? ==>
               || last.op.path in (match last.who case Daemon => d case Probe => p case Sweep => s)
               || last.op.path !in d + p + s
    ensures NetStep(Total(d, p, s), last.op) ==
            Total(After(d, last, Daemon), After(p, last, Probe), After(s, last, Sweep))
  {
  }

  /** What all goroutines together still hold. */
  function AllHeld(trace: seq<Call>): multiset<Path> {
    Total(Held(trace, Daemon), Held(trace, Probe), Held(trace, Sweep))
  }

  /** Call i does not take back an entry that only somebody else holds. */
  predicate OwnEntry(trace: seq<Call>, i: nat)
    requires i < |trace|
  {
    trace[i].op.Deregister? ==>
      trace[i].op.path in Held(trace[..i], trace[i].who) || trace[i].op.path !in AllHeld(trace[..i])
  }

  predicate OwnEntriesOnly(trace: seq<Call>) { forall i | 0 <= i < |trace| :: OwnEntry(trace, i) }

  ghost predicate SumsUp(trace: seq<Call>) { Bag(Exec([], OpsOf(trace))) == AllHeld(trace) }

  lemma OwnPrefix(trace: seq<Call>, k: nat)
    requires k <= |trace|
    ensures OwnEntriesOnly(trace) ==> OwnEntriesOnly(trace[..k])
    ensures forall i | 0 <= i < k :: OwnEntry(trace[..k], i) <==> OwnEntry(trace, i)
  {
    forall i | 0 <= i < k ensures OwnEntry(trace[..k], i) <==> OwnEntry(trace, i) { assert trace[..k][..i] == trace[..i]; }
  }

  lemma OneMoreEntry(init: seq<Call>, last: Call)
    ensures Bag(Exec([], OpsOf(init + [last]))) == NetStep(Bag(Exec([], OpsOf(init))), last.op)
    ensures AllHeld(init + [last]) ==
              Total(After(Held(init, Daemon), last, Daemon), After(Held(init, Probe), last, Probe), After(Held(init, Sweep), last, Sweep))
  {
    assert OpsOf(init + [last])[..|init|] == OpsOf(init);
    BagExec1(Exec([], OpsOf(init)), last.op);
    OneMoreCall(init, last, Daemon);
    OneMoreCall(init, last, Probe);
    OneMoreCall(init, last, Sweep);
  }

  /** Whatever the interleaving, the entries are what the goroutines hold, as long as nobody pops another's entry. */
  lemma {:induction false} EntriesAreSumOfHoldings(trace: seq<Call>)
    requires OwnEntriesOnly(trace)
    ensures SumsUp(trace)
  {
    if trace != [] {
      var k := |trace| - 1;
      var init, last := trace[..k], trace[k];
      assert trace == init + [last];
      assert OwnEntry(trace, k);
      OwnPrefix(trace, k);
      EntriesAreSumOfHoldings(init);
      OneMoreEntry(init, last);
      TotalAfter(Held(init, Daemon), Held(init, Probe), Held(init, Sweep), last);
    }
  }

  predicate ForeignEntry(d: multiset<Path>, p: multiset<Path>, s: multiset<Path>, last: Call) {
    && last.op.Deregister? && last.op.path in Total(d, p, s)
    && last.op.path !in (match last.who case Daemon => d case Probe => p case Sweep => s)
  }

  /** A popped entry of somebody else is missing from then on. */
  lemma ForeignPop(d: multiset<Path>, p: multiset<Path>, s: multiset<Path>, last: Call)
    requires ForeignEntry(d, p, s, last)
    ensures NetStep(Total(d, p, s), last.op) != Total(After(d, last, Daemon), After(p, last, Probe), After(s, last, Sweep))
  {
    var q := last.op.path;
    assert (d + p + s - multiset{q})[q] == (d + p + s)[q] - 1;
    assert (d - multiset{q})[q] == d[q] || last.who != Daemon;
    assert (p - multiset{q})[q] == p[q] || last.who != Probe;
    assert (s - multiset{q})[q] == s[q] || last.who != Sweep;
  }

  lemma SumMeansOwn(trace: seq<Call>, i: nat)
    requires i < |trace| && SumsUp(trace[..i]) && SumsUp(trace[..i + 1])
    ensures OwnEntry(trace, i)
  {
    NotOwnIsForeign(trace, i);
    OneMore(trace, i);
    SumMeansNotForeign(trace[..i], trace[i]);
  }

  lemma OneMore(trace: seq<Call>, i: nat)
    requires i < |trace|
    ensures trace[..i + 1] == trace[..i] + [trace[i]]
  {
  }

  lemma SumMeansNotForeign(init: seq<Call>, last: Call)
    requires SumsUp(init) && SumsUp(init + [last])
    ensures !ForeignEntry(Held(init, Daemon), Held(init, Probe), Held(init, Sweep), last)
  {
    OneMoreEntry(init, last);
    if ForeignEntry(Held(init, Daemon), Held(init, Probe), Held(init, Sweep), last) {
      ForeignPop(Held(init, Daemon), Held(init, Probe), Held(init, Sweep), last);
    }
  }

  lemma NotOwnIsForeign(trace: seq<Call>, i: nat)
    requires i < |trace|
    ensures var init := trace[..i];
            OwnEntry(trace, i) <==> !ForeignEntry(Held(init, Daemon), Held(init, Probe), Held(init, Sweep), trace[i])
  {
  }

  /** The entries equal the holdings at every moment if and only if nobody ever pops another's entry. */
  lemma {:induction false} EntriesAreHoldingsIff(trace: seq<Call>)
    ensures (forall k | 0 <= k <= |trace| :: SumsUp(trace[..k])) <==> OwnEntriesOnly(trace)
  {
    if OwnEntriesOnly(trace) {
      forall k | 0 <= k <= |trace| ensures SumsUp(trace[..k]) {
        OwnPrefix(trace, k);
        EntriesAreSumOfHoldings(trace[..k]);
      }
    }
    if forall k | 0 <= k <= |trace| :: SumsUp(trace[..k]) {
      forall i | 0 <= i < |trace| ensures OwnEntry(trace, i) {
        assert SumsUp(trace[..i]) && SumsUp(trace[..i + 1]);
        SumMeansOwn(trace, i);
      }
    }
  }

  /** Programs that only take back their own registrations never pop another's, however they interleave. */
  lemma {:induction false} PoliteProgramsKeepOwn(tach: set<Path>, trace: seq<Call>)
    requires AllPolite(tach, trace)
    ensures OwnEntriesOnly(trace)
  {
    if trace != [] {
      var k := |trace| - 1;
      var init, last := trace[..k], trace[k];
      assert trace == init + [last];
      LastCallIsPolite(tach, init, last);
      PoliteProgramsKeepOwn(tach, init);
      OwnPrefix(trace, k);
      assert OwnEntry(trace, k);
    }
  }

  /** A path some goroutine still holds is restored by the daemon-exit Restore. */
  lemma {:induction false} HeldPathsAreCovered(trace: seq<Call>, w: Owner, p: Path)
    requires OwnEntriesOnly(trace)
    requires p in Held(trace, w)
    ensures StackOf(Exec([], OpsOf(trace)), p) != []
  {
    EntriesAreSumOfHoldings(trace);
    BagCounts(Exec([], OpsOf(trace)), p);
  }

  // ---------------------------------------------------------------- the polarity probe

  function Registers(channels: seq<Path>, enable: Path -> int): seq<Op> {
    seq(|channels|, i requires 0 <= i < |channels| => Register(channels[i], "hwmon", enable(channels[i])))
  }

  function Deregisters(channels: seq<Path>): seq<Op> {
    seq(|channels|, i requires 0 <= i < |channels| => Deregister(channels[i]))
  }

  /** What runPolarityAutoProbe does to the registry. */
  function ProbeProgram(channels: seq<Path>, enable: Path -> int): seq<Op> {
    Registers(channels, enable) + Deregisters(channels)
  }

  lemma {:induction false} NetRegisters(held: multiset<Path>, channels: seq<Path>, enable: Path -> int)
    ensures Net(held, Registers(channels, enable)) == held + multiset(channels)
  {
    if channels == [] {
      assert Registers(channels, enable) == [];
    } else {
      var init := channels[..|channels| - 1];
      assert channels == init + [channels[|channels| - 1]];
      NetRegisters(held, init, enable);
      assert Registers(channels, enable)[..|init|] == Registers(init, enable);
    }
  }

  lemma {:induction false} NetDeregisters(held: multiset<Path>, channels: seq<Path>)
    ensures Net(held, Deregisters(channels)) == held - multiset(channels)
  {
    if channels == [] {
      assert Deregisters(channels) == [];
    } else {
      var init := channels[..|channels| - 1];
      assert channels == init + [channels[|channels| - 1]];
      NetDeregisters(held, init);
      assert Deregisters(channels)[..|init|] == Deregisters(init);
    }
  }

  lemma {:induction false} NetConcat(held: multiset<Path>, a: seq<Op>, b: seq<Op>)
    ensures Net(held, a + b) == Net(Net(held, a), b)
  {
    if b == [] {
      assert a + b == a;
    } else {
      var init, last := b[..|b| - 1], b[|b| - 1];
      NetConcat(held, a, init);
      LastOfConcat(a, b);
      assert Net(held, a + b) == NetStep(Net(held, a + init), last);
    }
  }

  lemma LastOfConcat(a: seq<Op>, b: seq<Op>)
    requires b != []
    ensures (a + b)[|a + b| - 1] == b[|b| - 1] && (a + b)[..|a + b| - 1] == a + b[..|b| - 1]
  {
  }

  lemma SplitBag(channels: seq<Path>, k: nat)
    requires k <= |channels|
    ensures multiset(channels) - multiset(channels[..k]) == multiset(channels[k..])
  {
    assert channels == channels[..k] + channels[k..];
  }

  lemma {:induction false} ProbeHolds(channels: seq<Path>, enable: Path -> int, k: nat)
    requires k <= |channels|
    ensures Net(multiset{}, Registers(channels, enable) + Deregisters(channels[..k])) == multiset(channels[k..])
  {
    calc {
      Net(multiset{}, Registers(channels, enable) + Deregisters(channels[..k]));
    ==  { NetConcat(multiset{}, Registers(channels, enable), Deregisters(channels[..k])); }
      Net(Net(multiset{}, Registers(channels, enable)), Deregisters(channels[..k]));
    ==  { NetRegisters(multiset{}, channels, enable); assert multiset{} + multiset(channels) == multiset(channels); }
      Net(multiset(channels), Deregisters(channels[..k]));
    ==  { NetDeregisters(multiset(channels), channels[..k]); }
      multiset(channels) - multiset(channels[..k]);
    ==  { SplitBag(channels, k); }
      multiset(channels[k..]);
    }
  }

  /** At every point of its run the probe takes back only its own entries, and it ends with none. */
  lemma {:induction false} ProbeLeavesNothing(tach: set<Path>, channels: seq<Path>, enable: Path -> int)
    requires forall p :: p in channels ==> p !in tach
    ensures Polite(tach, multiset{}, ProbeProgram(channels, enable))
    ensures Net(multiset{}, ProbeProgram(channels, enable)) == multiset{}
  {
    var program := ProbeProgram(channels, enable);
    forall i | 0 <= i < |program| && program[i].Deregister?
      ensures program[i].path in Net(multiset{}, program[..i])
    {
      var k := i - |channels|;
      ProbeHolds(channels, enable, k);
      assert program[..i] == Registers(channels, enable) + Deregisters(channels[..k]);
      assert program[i].path == channels[k..][0];
    }
    ProbeHolds(channels, enable, |channels|);
    assert channels[..|channels|] == channels;
  }

  // ---------------------------------------------------------------- the registry object

  class Watchdog {
    var entries: seq<Entry>

    constructor ()
      ensures entries == []
    {
      entries := [];
    }

    /** `orig` is the value the registration read from pwm_enable. */
    method Register(path: Path, kind: string, orig: int)
      modifies this
      ensures entries == Exec1(old(entries), Op.Register(path, kind, orig))
    {
      if kind == "ipmi" {
        return;
      }
      entries := entries + [Entry(path, kind, orig)];
    }

    method Deregister(path: Path)
      modifies this
      ensures entries == Exec1(old(entries), Op.Deregister(path))
    {
      var i := |entries|;
      RemoveLastTail(entries, i, path);
      while 0 < i
        invariant 0 <= i <= |entries|
        invariant entries == old(entries)
        invariant RemoveLast(entries, path) == RemoveLast(entries[..i], path) + entries[i..]
      {
        RemoveLastTail(entries, i, path);
        if entries[i - 1].path == path {
          entries := entries[..i - 1] + entries[i..];
          return;
        }
        i := i - 1;
      }
    }

    /** The entry RestoreOne writes back: the top of the path's stack, if any. */
    method FindRestoreTarget(path: Path) returns (target: Option<Entry>)
      ensures target.None? <==> StackOf(entries, path) == []
      ensures target.Some? ==> target.value == StackOf(entries, path)[|StackOf(entries, path)| - 1]
    {
      var i := |entries|;
      assert entries[..i] == entries;
      while 0 < i
        invariant 0 <= i <= |entries|
        invariant StackOf(entries, path) == StackOf(entries[..i], path)
      {
        assert entries[..i][..i - 1] == entries[..i - 1];
        if entries[i - 1].path == path {
          return Some(entries[i - 1]);
        }
        i := i - 1;
      }
      return None;
    }
  }

  lemma {:induction false} RemoveLastTail(es: seq<Entry>, i: nat, p: Path)
    requires i <= |es|
    ensures i == |es| ==> es[..i] == es && es[i..] == []
    ensures 0 < i && es[i - 1].path == p ==> RemoveLast(es[..i], p) == es[..i - 1]
    ensures 0 < i && es[i - 1].path != p ==>
              RemoveLast(es[..i], p) + es[i..] == RemoveLast(es[..i - 1], p) + es[i - 1..]
  {
    if 0 < i {
      assert es[..i][..i - 1] == es[..i - 1];
      assert es[i - 1..] == [es[i - 1]] + es[i..];
    }
  }
}
