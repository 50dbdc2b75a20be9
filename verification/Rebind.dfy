/**
 Following a runtime hwmon renumber (cmd/ventd/main.go): resolving a freshly loaded config,
 deciding whether a controlled fan moved, and carrying the watchdog entries over.
 */
module Rebind {
  import opened Common
  import opened FanWatchdog

  datatype Control = Control(fan: string, curve: string)

  datatype Config = Config(fans: seq<Fan>, sensors: seq<Sensor>, controls: seq<Control>)

  datatype Kind = FanMove | SensorMove

  datatype Move = Move(kind: Kind, name: string, oldPwm: Path, newPwm: Path, oldRpm: Path, newRpm: Path) {
    predicate MovesFan() { kind.FanMove? && oldPwm != newPwm }

    predicate MovesTach() { oldRpm != "" && oldRpm != newRpm }
  }

  // ---------------------------------------------------------------- hwmon.ResolvePath

  /** One look at sysfs: which paths os.Stat finds, and FindHwmonDir of a device. */
  datatype Sysfs = Sysfs(there: Path -> bool, hwmonDir: string -> Option<Path>)

  /** filepath.Base of a path without a trailing slash. */
  function Base(p: Path): string {
    if p == "" || p[|p| - 1] == '/' then "" else Base(p[..|p| - 1]) + [p[|p| - 1]]
  }

  /** Some(q) when the stored path is gone and the device has the file at q. */
  function ResolvePath(fs: Sysfs, stored: Path, device: string): Option<Path> {
    if fs.there(stored) || device == "" then None
    else match fs.hwmonDir(device)
      case None => None
      case Some(dir) =>
        var candidate := dir + "/" + Base(stored);
        if fs.there(candidate) then Some(candidate) else None
  }

  /** ResolvePath against the current sysfs tree: Some(p) when the path moved to p. */
  type Resolver = (Path, string) -> Option<Path>

  function Looking(fs: Sysfs): Resolver { (p, d) => ResolvePath(fs, p, d) }

  /** What a resolver reports as the new path is there, so it is not itself reported as moved. */
  ghost predicate Settled(r: Resolver) {
    forall p: Path, d: string, e: string :: r(p, d).Some? ==> r(r(p, d).value, e).None?
  }

  lemma ResolvePathIsSettled(fs: Sysfs)
    ensures Settled(Looking(fs))
    ensures forall p, d :: ResolvePath(fs, p, d).Some? ==> !fs.there(p) && fs.there(ResolvePath(fs, p, d).value)
  {
    forall p: Path, d: string, e: string | ResolvePath(fs, p, d).Some? ensures ResolvePath(fs, ResolvePath(fs, p, d).value, e).None? {
      assert fs.there(ResolvePath(fs, p, d).value);
    }
  }

  lemma {:induction false} BaseIs(pre: Path, name: string)
    requires '/' !in name
    ensures Base(pre + "/" + name) == name
  {
    var p := pre + "/" + name;
    if name != "" {
      var n := |name| - 1;
      assert p[..|p| - 1] == pre + "/" + name[..n] && p[|p| - 1] == name[n];
      assert name == name[..n] + [name[n]];
      BaseIs(pre, name[..n]);
    }
  }

  /**
   A stored path moves to `q` if and only if it is gone, the device has a hwmon directory, and `q` is
   the file of the same name there.
   */
  lemma ResolvePathIff(fs: Sysfs, pre: Path, name: string, device: string, q: Path)
    requires name != "" && '/' !in name
    ensures ResolvePath(fs, pre + "/" + name, device) == Some(q) <==>
            && !fs.there(pre + "/" + name) && device != "" && fs.hwmonDir(device).Some?
            && q == fs.hwmonDir(device).value + "/" + name && fs.there(q)
  {
    BaseIs(pre, name);
  }

  /** Files of one device with different names never move to the same path. */
  lemma MovedFilesStayApart(fs: Sysfs, pre1: Path, name1: string, pre2: Path, name2: string, device: string)
    requires name1 != "" && '/' !in name1 && name2 != "" && '/' !in name2 && name1 != name2
    requires ResolvePath(fs, pre1 + "/" + name1, device).Some? && ResolvePath(fs, pre2 + "/" + name2, device).Some?
    ensures ResolvePath(fs, pre1 + "/" + name1, device) != ResolvePath(fs, pre2 + "/" + name2, device)
  {
    var q1, q2 := ResolvePath(fs, pre1 + "/" + name1, device).value, ResolvePath(fs, pre2 + "/" + name2, device).value;
    ResolvePathIff(fs, pre1, name1, device, q1);
    ResolvePathIff(fs, pre2, name2, device, q2);
    BaseIs(fs.hwmonDir(device).value, name1);
    BaseIs(fs.hwmonDir(device).value, name2);
  }

  function Current(p: Path, device: string, r: Resolver): Path {
    match r(p, device) case Some(q) => q case None => p
  }

  // ---------------------------------------------------------------- resolveHwmonPaths

  function ResolveFan(f: Fan, r: Resolver): Fan {
    if f.kind != "hwmon" || f.device == "" then f
    else f.(pwm := Current(f.pwm, f.device, r), rpm := if f.rpm == "" then "" else Current(f.rpm, f.device, r))
  }

  function ResolveSensor(s: Sensor, r: Resolver): Sensor {
    if s.kind != "hwmon" || s.device == "" then s else s.(path := Current(s.path, s.device, r))
  }

  /** `now` is where the file stored as pre/name is: in the device's directory if it has moved there, else as stored. */
  ghost predicate FoundAt(fs: Sysfs, pre: Path, name: string, device: string, now: Path) {
    var stored := pre + "/" + name;
    if !fs.there(stored) && fs.hwmonDir(device).Some? && fs.there(fs.hwmonDir(device).value + "/" + name)
    then now == fs.hwmonDir(device).value + "/" + name
    else now == stored
  }

  lemma CurrentIsFound(fs: Sysfs, pre: Path, name: string, device: string)
    requires name != "" && '/' !in name && device != ""
    ensures FoundAt(fs, pre, name, device, Current(pre + "/" + name, device, Looking(fs)))
  {
    BaseIs(pre, name);
  }

  /** A hwmon fan's pwm file and tachometer, and a hwmon sensor's file, each follow the device; nothing else changes. */
  lemma EntriesFollowDevice(fs: Sysfs, f: Fan, s: Sensor, pre: Path, pwm: string, tachPre: Path, tach: string)
    requires pwm != "" && '/' !in pwm && tach != "" && '/' !in tach
    requires f.kind == "hwmon" && f.device != "" && f.pwm == pre + "/" + pwm && (f.rpm == "" || f.rpm == tachPre + "/" + tach)
    requires s.kind == "hwmon" && s.device != "" && s.path == pre + "/" + pwm
    ensures var g := ResolveFan(f, Looking(fs));
            && FoundAt(fs, pre, pwm, f.device, g.pwm)
            && (if f.rpm == "" then g.rpm == "" else FoundAt(fs, tachPre, tach, f.device, g.rpm))
            && g.name == f.name && g.kind == f.kind && g.device == f.device && g.chip == f.chip
    ensures var t := ResolveSensor(s, Looking(fs));
            && FoundAt(fs, pre, pwm, s.device, t.path)
            && t.name == s.name && t.kind == s.kind && t.device == s.device && t.chip == s.chip
  {
    CurrentIsFound(fs, pre, pwm, f.device);
    CurrentIsFound(fs, pre, pwm, s.device);
    if f.rpm != "" { CurrentIsFound(fs, tachPre, tach, f.device); }
  }

  /** Entries of another kind, or without a device, are left alone. */
  lemma OthersStay(r: Resolver, f: Fan, s: Sensor)
    ensures f.kind != "hwmon" || f.device == "" ==> ResolveFan(f, r) == f
    ensures s.kind != "hwmon" || s.device == "" ==> ResolveSensor(s, r) == s
  {
  }

  function ResolveFans(fs: seq<Fan>, r: Resolver): seq<Fan> {
    seq(|fs|, i requires 0 <= i < |fs| => ResolveFan(fs[i], r))
  }

  function ResolveSensors(ss: seq<Sensor>, r: Resolver): seq<Sensor> {
    seq(|ss|, i requires 0 <= i < |ss| => ResolveSensor(ss[i], r))
  }

  function Resolve(c: Config, r: Resolver): Config {
    c.(fans := ResolveFans(c.fans, r), sensors := ResolveSensors(c.sensors, r))
  }

  function FanMoveOf(f: Fan, r: Resolver): Move {
    var g := ResolveFan(f, r);
    Move(FanMove, f.name, f.pwm, g.pwm, f.rpm, g.rpm)
  }

  function FanMoves(fs: seq<Fan>, r: Resolver): seq<Move> {
    if fs == [] then []
    else
      var f := fs[|fs| - 1];
      FanMoves(fs[..|fs| - 1], r) + if ResolveFan(f, r) != f then [FanMoveOf(f, r)] else []
  }

  function SensorMoves(ss: seq<Sensor>, r: Resolver): seq<Move> {
    if ss == [] then []
    else
      var s := ss[|ss| - 1];
      SensorMoves(ss[..|ss| - 1], r) +
      if s.kind == "hwmon" && s.device != "" && r(s.path, s.device).Some?
      then [Move(SensorMove, s.name, s.path, ResolveSensor(s, r).path, "", "")] else []
  }

  function MovesOf(c: Config, r: Resolver): seq<Move> { FanMoves(c.fans, r) + SensorMoves(c.sensors, r) }

  /** Updates the loaded config in place and reports what moved. */
  method ResolveHwmonPaths(fans: array<Fan>, sensors: array<Sensor>, r: Resolver) returns (moves: seq<Move>)
    modifies fans, sensors
    ensures fans[..] == ResolveFans(old(fans[..]), r)
    ensures sensors[..] == ResolveSensors(old(sensors[..]), r)
    ensures moves == FanMoves(old(fans[..]), r) + SensorMoves(old(sensors[..]), r)
  {
    var fanMoves := ResolveFanPaths(fans, r);
    var sensorMoves := ResolveSensorPaths(sensors, r);
    moves := fanMoves + sensorMoves;
  }

  lemma FanMovesLast(fs: seq<Fan>, i: nat, r: Resolver)
    requires i < |fs|
    ensures var f := fs[i];
            FanMoves(fs[..i + 1], r) == if ResolveFan(f, r) != f then FanMoves(fs[..i], r) + [FanMoveOf(f, r)] else FanMoves(fs[..i], r)
  {
    assert fs[..i + 1][..i] == fs[..i] && FanMoves(fs[..i], r) + [] == FanMoves(fs[..i], r);
  }

  /** One hwmon fan with a device, updated through its entry. */
  method ResolveFanEntry(fans: array<Fan>, i: nat, r: Resolver) returns (m: Move)
    requires i < fans.Length && fans[i].kind == "hwmon" && fans[i].device != ""
    modifies fans
    ensures fans[..] == old(fans[..])[i := ResolveFan(old(fans[i]), r)]
    ensures m == FanMoveOf(old(fans[i]), r)
  {
    var f := fans[i];
    m := Move(FanMove, f.name, f.pwm, f.pwm, f.rpm, f.rpm);
    var pwm := r(f.pwm, f.device);
    if pwm.Some? {
      m := m.(newPwm := pwm.value);
      fans[i] := fans[i].(pwm := pwm.value);
    }
    if f.rpm != "" {
      var rpm := r(f.rpm, f.device);
      if rpm.Some? {
        m := m.(newRpm := rpm.value);
        fans[i] := fans[i].(rpm := rpm.value);
      }
    }
  }

  method ResolveFanPaths(fans: array<Fan>, r: Resolver) returns (moves: seq<Move>)
    modifies fans
    ensures fans[..] == ResolveFans(old(fans[..]), r)
    ensures moves == FanMoves(old(fans[..]), r)
  {
    moves := [];
    ghost var fans0 := fans[..];
    for i := 0 to fans.Length
      invariant fans[..] == ResolveFans(fans0[..i], r) + fans0[i..]
      invariant moves == FanMoves(fans0[..i], r)
    {
      FanMovesLast(fans0, i, r);
      OneMoreFan(fans0, i, r);
      if fans[i].kind != "hwmon" || fans[i].device == "" {
        continue;
      }
      var m := ResolveFanEntry(fans, i, r);
      if m.oldPwm != m.newPwm || m.oldRpm != m.newRpm {
        moves := moves + [m];
      }
    }
    assert fans0[..fans.Length] == fans0;
  }

  lemma OneMoreFan(fs: seq<Fan>, i: nat, r: Resolver)
    requires i < |fs|
    ensures var now := ResolveFans(fs[..i], r) + fs[i..];
            && |now| == |fs| && now[i] == fs[i]
            && now[i := ResolveFan(fs[i], r)] == ResolveFans(fs[..i + 1], r) + fs[i + 1..]
            && (ResolveFan(fs[i], r) == fs[i] ==> now == ResolveFans(fs[..i + 1], r) + fs[i + 1..])
  {
  }

  method ResolveSensorPaths(sensors: array<Sensor>, r: Resolver) returns (moves: seq<Move>)
    modifies sensors
    ensures sensors[..] == ResolveSensors(old(sensors[..]), r)
    ensures moves == SensorMoves(old(sensors[..]), r)
  {
    moves := [];
    ghost var sensors0 := sensors[..];
    for i := 0 to sensors.Length
      invariant forall j | 0 <= j < i :: sensors[j] == ResolveSensor(sensors0[j], r)
      invariant forall j | i <= j < sensors.Length :: sensors[j] == sensors0[j]
      invariant moves == SensorMoves(sensors0[..i], r)
    {
      assert sensors0[..i + 1][..i] == sensors0[..i];
      var s := sensors[i];
      if s.kind != "hwmon" || s.device == "" {
        continue;
      }
      var path := r(s.path, s.device);
      if path.Some? {
        moves := moves + [Move(SensorMove, s.name, s.path, path.value, "", "")];
        sensors[i] := s.(path := path.value);
      }
    }
    assert sensors0[..sensors.Length] == sensors0;
  }

  /** The moves of fans are exactly the fans whose resolution changed them. */
  lemma {:induction false} FanMovesExact(fs: seq<Fan>, r: Resolver, m: Move)
    ensures m in FanMoves(fs, r) <==> exists f :: f in fs && ResolveFan(f, r) != f && m == FanMoveOf(f, r)
  {
    if fs != [] {
      var init, last := fs[..|fs| - 1], fs[|fs| - 1];
      assert fs == init + [last];
      FanMovesExact(init, r, m);
    }
  }

  /** The moves of sensors are exactly those of the hwmon sensors whose file is elsewhere. */
  lemma {:induction false} SensorMovesExact(ss: seq<Sensor>, r: Resolver, m: Move)
    ensures m in SensorMoves(ss, r) <==>
            exists s :: s in ss && s.kind == "hwmon" && s.device != "" && r(s.path, s.device).Some? &&
              m == Move(SensorMove, s.name, s.path, r(s.path, s.device).value, "", "")
  {
    if ss != [] {
      var init, last := ss[..|ss| - 1], ss[|ss| - 1];
      assert ss == init + [last];
      SensorMovesExact(init, r, m);
    }
  }

  lemma {:induction false} SensorMovesKind(ss: seq<Sensor>, r: Resolver)
    ensures forall m :: m in SensorMoves(ss, r) ==> m.kind.SensorMove?
  {
    if ss != [] { SensorMovesKind(ss[..|ss| - 1], r); }
  }

  // ---------------------------------------------------------------- anyControlledFanPWMChanged

  ghost predicate ControlledFanMoved(moves: seq<Move>, controls: seq<Control>) {
    exists m, c :: m in moves && c in controls && m.MovesFan() && c.fan == m.name
  }

  method AnyControlledFanPWMChanged(moves: seq<Move>, controls: seq<Control>) returns (changed: bool)
    ensures changed <==> ControlledFanMoved(moves, controls)
  {
    for i := 0 to |moves|
      invariant forall m, c :: m in moves[..i] && c in controls && m.MovesFan() ==> c.fan != m.name
    {
      var m := moves[i];
      if m.kind != FanMove || m.oldPwm == m.newPwm {
        continue;
      }
      for j := 0 to |controls|
        invariant forall c :: c in controls[..j] ==> c.fan != m.name
      {
        if controls[j].fan == m.name {
          return true;
        }
      }
    }
    return false;
  }

  /** Stated on the config: some controlled fan resolves to another pwm path. */
  lemma {:induction false} RespawnExactlyWhenControlledFanMoves(c: Config, r: Resolver)
    ensures ControlledFanMoved(MovesOf(c, r), c.controls) <==>
            exists f, ctrl :: f in c.fans && ctrl in c.controls && ctrl.fan == f.name && ResolveFan(f, r).pwm != f.pwm
  {
    SensorMovesKind(c.sensors, r);
    if ControlledFanMoved(MovesOf(c, r), c.controls) {
      var m, ctrl :| m in MovesOf(c, r) && ctrl in c.controls && m.MovesFan() && ctrl.fan == m.name;
      FanMovesExact(c.fans, r, m);
    }
    if f, ctrl :| f in c.fans && ctrl in c.controls && ctrl.fan == f.name && ResolveFan(f, r).pwm != f.pwm {
      FanMovesExact(c.fans, r, FanMoveOf(f, r));
      assert FanMoveOf(f, r) in MovesOf(c, r);
    }
  }

  // ---------------------------------------------------------------- carrying the entries over

  function MoveOps(m: Move, enable: Path -> int): seq<Op> {
    if !m.MovesFan() then []
    else [Deregister(m.oldPwm), Register(m.newPwm, "hwmon", enable(m.newPwm))] +
         if m.MovesTach() then [Deregister(m.oldRpm)] else []
  }

  function SwapOps(moves: seq<Move>, enable: Path -> int): seq<Op> {
    if moves == [] then [] else SwapOps(moves[..|moves| - 1], enable) + MoveOps(moves[|moves| - 1], enable)
  }

  /** The loop of the renumber branch; `enable` is what each registration reads from pwm_enable. */
  method SwapEntries(wd: Watchdog, moves: seq<Move>, enable: Path -> int)
    modifies wd
    ensures wd.entries == Exec(old(wd.entries), SwapOps(moves, enable))
  {
    ghost var es := wd.entries;
    for i := 0 to |moves|
      invariant wd.entries == Exec(es, SwapOps(moves[..i], enable))
    {
      var m := moves[i];
      assert moves[..i + 1][..i] == moves[..i];
      ExecConcat(es, SwapOps(moves[..i], enable), MoveOps(m, enable));
      if m.kind != FanMove || m.oldPwm == m.newPwm {
        continue;
      }
      ghost var before := wd.entries;
      ghost var reg := Register(m.newPwm, "hwmon", enable(m.newPwm));
      wd.Deregister(m.oldPwm);
      wd.Register(m.newPwm, "hwmon", enable(m.newPwm));
      ExecTwo(before, Deregister(m.oldPwm), reg);
      if m.oldRpm != "" && m.oldRpm != m.newRpm {
        ghost var mid := wd.entries;
        wd.Deregister(m.oldRpm);
        ExecOne(mid, Deregister(m.oldRpm));
        ExecConcat(before, [Deregister(m.oldPwm), reg], [Deregister(m.oldRpm)]);
      } else {
        assert MoveOps(m, enable) == [Deregister(m.oldPwm), reg];
      }
    }
    assert moves[..|moves|] == moves;
  }

  lemma ExecOne(es: seq<Entry>, a: Op)
    ensures Exec(es, [a]) == Exec1(es, a)
  {
    assert [a][..0] == [];
    assert Exec(es, []) == es;
  }

  lemma ExecTwo(es: seq<Entry>, a: Op, b: Op)
    ensures Exec(es, [a, b]) == Exec1(Exec1(es, a), b)
  {
    assert [a, b][..1] == [a];
    ExecOne(es, a);
  }

  // ---------------------------------------------------------------- what the loop leaves behind

  /** One fan changing path. */
  datatype Hop = Hop(src: Path, dst: Path)

  function Hops(moves: seq<Move>): seq<Hop> {
    if moves == [] then []
    else
      var m := moves[|moves| - 1];
      Hops(moves[..|moves| - 1]) + if m.MovesFan() then [Hop(m.oldPwm, m.newPwm)] else []
  }

  function Sources(hops: seq<Hop>): seq<Path> { seq(|hops|, i requires 0 <= i < |hops| => hops[i].src) }

  function Targets(hops: seq<Hop>): seq<Path> { seq(|hops|, i requires 0 <= i < |hops| => hops[i].dst) }

  ghost predicate Distinct(ps: seq<Path>) { forall i, j | 0 <= i < j < |ps| :: ps[i] != ps[j] }

  /** `tach` holds the old tachometer paths; validate.go:182-189 keeps them apart from pwm paths. */
  ghost predicate TachsApart(tach: set<Path>, held: multiset<Path>, moves: seq<Move>) {
    && (forall p :: p in held ==> p !in tach)
    && forall m :: m in moves && m.MovesFan() ==>
         m.oldPwm !in tach && m.newPwm !in tach && (m.MovesTach() ==> m.oldRpm in tach)
  }

  function HopOps(hops: seq<Hop>, enable: Path -> int): seq<Op> {
    if hops == [] then []
    else
      var h := hops[|hops| - 1];
      HopOps(hops[..|hops| - 1], enable) + [Deregister(h.src), Register(h.dst, "hwmon", enable(h.dst))]
  }

  lemma NetTwo(held: multiset<Path>, a: Op, b: Op)
    ensures Net(held, [a, b]) == NetStep(NetStep(held, a), b)
  {
    assert [a, b][..1] == [a] && [a][..0] == [];
    assert Net(held, []) == held;
  }

  lemma NetOne(held: multiset<Path>, a: Op)
    ensures Net(held, [a]) == NetStep(held, a)
  {
    assert [a][..0] == [];
    assert Net(held, []) == held;
  }

  lemma AbsentMinus(b: multiset<Path>, p: Path)
    requires p !in b
    ensures b - multiset{p} == b
  {
  }

  function HopNet(held: multiset<Path>, h: Hop): multiset<Path> { held - multiset{h.src} + multiset{h.dst} }

  lemma MoveNet(held: multiset<Path>, m: Move, enable: Path -> int)
    requires m.MovesFan() && (m.MovesTach() ==> m.oldRpm !in held && m.oldRpm != m.newPwm)
    ensures Net(held, MoveOps(m, enable)) == HopNet(held, Hop(m.oldPwm, m.newPwm))
  {
    var swap := [Deregister(m.oldPwm), Register(m.newPwm, "hwmon", enable(m.newPwm))];
    NetTwo(held, swap[0], swap[1]);
    if m.MovesTach() {
      var last := Deregister(m.oldRpm);
      assert MoveOps(m, enable) == swap + [last];
      NetConcat(held, swap, [last]);
      NetOne(Net(held, swap), last);
      AbsentMinus(Net(held, swap), m.oldRpm);
    } else {
      assert MoveOps(m, enable) == swap;
    }
  }

  lemma HopOpsLast(held: multiset<Path>, hops: seq<Hop>, h: Hop, enable: Path -> int)
    ensures Net(held, HopOps(hops + [h], enable)) == HopNet(Net(held, HopOps(hops, enable)), h)
  {
    var swap := [Deregister(h.src), Register(h.dst, "hwmon", enable(h.dst))];
    assert (hops + [h])[..|hops|] == hops;
    NetConcat(held, HopOps(hops, enable), swap);
    NetTwo(Net(held, HopOps(hops, enable)), swap[0], swap[1]);
  }

  lemma OneMoveNet(tach: set<Path>, held: multiset<Path>, init: seq<Move>, m: Move, enable: Path -> int)
    requires m.MovesFan() ==> m.oldPwm !in tach && m.newPwm !in tach && (m.MovesTach() ==> m.oldRpm in tach)
    requires forall p :: p in Net(held, SwapOps(init, enable)) ==> p !in tach
    ensures Net(held, SwapOps(init, enable) + MoveOps(m, enable)) ==
              if m.MovesFan() then HopNet(Net(held, SwapOps(init, enable)), Hop(m.oldPwm, m.newPwm)) else Net(held, SwapOps(init, enable))
  {
    NetConcat(held, SwapOps(init, enable), MoveOps(m, enable));
    if m.MovesFan() {
      MoveNet(Net(held, SwapOps(init, enable)), m, enable);
    }
  }

  lemma HopsLast(moves: seq<Move>)
    requires moves != []
    ensures var m := moves[|moves| - 1];
            Hops(moves) == if m.MovesFan() then Hops(moves[..|moves| - 1]) + [Hop(m.oldPwm, m.newPwm)] else Hops(moves[..|moves| - 1])
  {
    assert Hops(moves[..|moves| - 1]) + [] == Hops(moves[..|moves| - 1]);
  }

  lemma HopNetAvoids(tach: set<Path>, held: multiset<Path>, h: Hop)
    requires (forall p :: p in held ==> p !in tach) && h.dst !in tach
    ensures forall p :: p in HopNet(held, h) ==> p !in tach
  {
  }

  /** Sensor moves and tachometer paths leave no mark on the holdings. */
  lemma {:induction false} SwapNetIsHopNet(tach: set<Path>, held: multiset<Path>, moves: seq<Move>, enable: Path -> int)
    requires TachsApart(tach, held, moves)
    ensures Net(held, SwapOps(moves, enable)) == Net(held, HopOps(Hops(moves), enable))
    ensures forall p :: p in Net(held, SwapOps(moves, enable)) ==> p !in tach
  {
    if moves != [] {
      var init, m := moves[..|moves| - 1], moves[|moves| - 1];
      SwapNetIsHopNet(tach, held, init, enable);
      assert m in moves;
      OneMoveNet(tach, held, init, m, enable);
      HopsLast(moves);
      if m.MovesFan() {
        HopOpsLast(held, Hops(init), Hop(m.oldPwm, m.newPwm), enable);
        HopNetAvoids(tach, Net(held, SwapOps(init, enable)), Hop(m.oldPwm, m.newPwm));
      }
    }
  }

  /** The k-th Deregister finds an entry. */
  ghost predicate Finds(held: multiset<Path>, hops: seq<Hop>, k: nat)
    requires k < |hops|
  {
    hops[k].src in held || hops[k].src in Targets(hops[..k])
  }

  lemma LastHop(hops: seq<Hop>, p: Path)
    requires hops != []
    ensures var k := |hops| - 1;
            && hops == hops[..k] + [hops[k]]
            && Targets(hops) == Targets(hops[..k]) + [hops[k].dst]
            && (p !in Sources(hops) ==> p !in Sources(hops[..k]) && p != hops[k].src)
  {
    var k := |hops| - 1;
    assert Sources(hops) == Sources(hops[..k]) + [hops[k].src];
  }

  /** A path that is not a source so far only gains entries. */
  lemma {:induction false} UntouchedSource(held: multiset<Path>, hops: seq<Hop>, p: Path, enable: Path -> int)
    requires p !in Sources(hops)
    ensures Net(held, HopOps(hops, enable))[p] == held[p] + multiset(Targets(hops))[p]
  {
    if hops == [] {
      assert Targets(hops) == [];
    } else {
      var k := |hops| - 1;
      LastHop(hops, p);
      UntouchedSource(held, hops[..k], p, enable);
      HopOpsLast(held, hops[..k], hops[k], enable);
    }
  }

  lemma {:induction false} FindsMeansHeld(held: multiset<Path>, hops: seq<Hop>, k: nat, enable: Path -> int)
    requires k < |hops| && Distinct(Sources(hops))
    ensures Finds(held, hops, k) <==> hops[k].src in Net(held, HopOps(hops[..k], enable))
  {
    var p := hops[k].src;
    assert Sources(hops)[k] == p;
    forall i | 0 <= i < k ensures Sources(hops[..k])[i] != p { assert Sources(hops)[i] == hops[i].src; }
    UntouchedSource(held, hops[..k], p, enable);
    assert p in multiset(Targets(hops[..k])) <==> p in Targets(hops[..k]);
  }

  lemma OneHop(b: multiset<Path>, h: Hop)
    ensures h.src in b ==> HopNet(b, h) + multiset{h.src} == b + multiset{h.dst}
    ensures |HopNet(b, h)| == if h.src in b then |b| else |b| + 1
  {
    if h.src !in b { assert b - multiset{h.src} == b; }
  }

  ghost predicate AllFind(held: multiset<Path>, hops: seq<Hop>) {
    forall k | 0 <= k < |hops| :: Finds(held, hops, k)
  }

  lemma AllFindInit(held: multiset<Path>, hops: seq<Hop>, h: Hop)
    requires Distinct(Sources(hops + [h]))
    ensures Distinct(Sources(hops))
    ensures AllFind(held, hops + [h]) <==> AllFind(held, hops) && Finds(held, hops + [h], |hops|)
  {
    var all := hops + [h];
    assert forall i | 0 <= i < |hops| :: Sources(hops)[i] == Sources(all)[i];
    forall i | 0 <= i < |hops| ensures Finds(held, all, i) <==> Finds(held, hops, i) {
      assert all[..i] == hops[..i];
    }
  }

  /** A miss leaves one entry too many, and nothing repairs it. */
  lemma {:induction false} MissesAddEntries(held: multiset<Path>, hops: seq<Hop>, enable: Path -> int)
    requires Distinct(Sources(hops))
    ensures |Net(held, HopOps(hops, enable))| >= |held|
    ensures |Net(held, HopOps(hops, enable))| == |held| <==> AllFind(held, hops)
  {
    if hops != [] {
      var init, h := hops[..|hops| - 1], hops[|hops| - 1];
      assert hops == init + [h];
      AllFindInit(held, init, h);
      MissesAddEntries(held, init, enable);
      FindsMeansHeld(held, hops, |init|, enable);
      HopOpsLast(held, init, h, enable);
      OneHop(Net(held, HopOps(init, enable)), h);
    }
  }

  /** Sources removed and targets added, exactly, when every Deregister finds its entry. */
  lemma {:induction false} HopsMoveHoldings(held: multiset<Path>, hops: seq<Hop>, enable: Path -> int)
    requires Distinct(Sources(hops)) && AllFind(held, hops)
    ensures Net(held, HopOps(hops, enable)) + multiset(Sources(hops)) == held + multiset(Targets(hops))
  {
    if hops == [] {
      assert Sources(hops) == [] && Targets(hops) == [];
    } else {
      var init, h := hops[..|hops| - 1], hops[|hops| - 1];
      assert hops == init + [h];
      AllFindInit(held, init, h);
      HopsMoveHoldings(held, init, enable);
      FindsMeansHeld(held, hops, |init|, enable);
      HopOpsLast(held, init, h, enable);
      OneHop(Net(held, HopOps(init, enable)), h);
      AddSides(Net(held, HopOps(init, enable)), held, init, h);
    }
  }

  lemma AddSides(before: multiset<Path>, held: multiset<Path>, init: seq<Hop>, h: Hop)
    requires before + multiset(Sources(init)) == held + multiset(Targets(init))
    requires HopNet(before, h) + multiset{h.src} == before + multiset{h.dst}
    ensures HopNet(before, h) + multiset(Sources(init + [h])) == held + multiset(Targets(init + [h]))
  {
    var sources, targets := multiset(Sources(init)), multiset(Targets(init));
    assert Sources(init + [h]) == Sources(init) + [h.src];
    assert Targets(init + [h]) == Targets(init) + [h.dst];
    calc {
      HopNet(before, h) + (sources + multiset{h.src});
      HopNet(before, h) + multiset{h.src} + sources;
      before + multiset{h.dst} + sources;
      before + sources + multiset{h.dst};
      held + targets + multiset{h.dst};
      held + (targets + multiset{h.dst});
    }
  }

  /**
   The renumber loop (swaps and cycles included) exchanges old for new paths and keeps every
   count if and only if each old path was registered or is the target of an earlier move.
   */
  lemma {:induction false} SwapConservesExactly(tach: set<Path>, held: multiset<Path>, moves: seq<Move>, enable: Path -> int)
    requires TachsApart(tach, held, moves) && Distinct(Sources(Hops(moves)))
    ensures AllFind(held, Hops(moves)) <==>
            Net(held, SwapOps(moves, enable)) + multiset(Sources(Hops(moves))) == held + multiset(Targets(Hops(moves)))
  {
    var hops := Hops(moves);
    SwapNetIsHopNet(tach, held, moves, enable);
    MissesAddEntries(held, hops, enable);
    var after := Net(held, HopOps(hops, enable));
    if AllFind(held, hops) { HopsMoveHoldings(held, hops, enable); }
    assert |after + multiset(Sources(hops))| == |after| + |hops|;
    assert |held + multiset(Targets(hops))| == |held| + |hops|;
  }

  lemma {:induction false} SwapIsPolite(tach: set<Path>, held: multiset<Path>, moves: seq<Move>, enable: Path -> int)
    requires TachsApart(tach, held, moves)
    requires Distinct(Sources(Hops(moves))) && AllFind(held, Hops(moves))
    ensures Polite(tach, held, SwapOps(moves, enable))
  {
    if moves != [] {
      var init, m := moves[..|moves| - 1], moves[|moves| - 1];
      assert moves == init + [m];
      if m.MovesFan() {
        var h := Hop(m.oldPwm, m.newPwm);
        assert Hops(moves) == Hops(init) + [h];
        AllFindInit(held, Hops(init), h);
        FindsMeansHeld(held, Hops(moves), |Hops(init)|, enable);
        assert Hops(moves)[..|Hops(init)|] == Hops(init);
      } else {
        assert Hops(moves) == Hops(init);
      }
      SwapIsPolite(tach, held, init, enable);
      SwapNetIsHopNet(tach, held, init, enable);
      MoveIsPolite(tach, Net(held, SwapOps(init, enable)), m, enable);
      PoliteConcat(tach, held, SwapOps(init, enable), MoveOps(m, enable));
    }
  }

  lemma MoveIsPolite(tach: set<Path>, held: multiset<Path>, m: Move, enable: Path -> int)
    requires forall p :: p in held ==> p !in tach
    requires m.MovesFan() ==> m.oldPwm in held && m.newPwm !in tach && (m.MovesTach() ==> m.oldRpm in tach)
    ensures Polite(tach, held, MoveOps(m, enable))
  {
    assert MoveOps(m, enable)[..0] == [];
    assert Net(held, []) == held;
  }

  // ---------------------------------------------------------------- the moves of a config

  /** pwm paths of different fans differ. */
  ghost predicate DistinctPwm(fans: seq<Fan>) { forall i, j | 0 <= i < j < |fans| :: fans[i].pwm != fans[j].pwm }

  lemma HopsOfMore(moves: seq<Move>, m: Move)
    requires m.kind.SensorMove?
    ensures Hops(moves + [m]) == Hops(moves)
  {
    assert (moves + [m])[..|moves|] == moves && Hops(moves) + [] == Hops(moves);
  }

  lemma {:induction false} HopsOfFans(fans: seq<Fan>, r: Resolver, sensors: seq<Sensor>)
    ensures Hops(FanMoves(fans, r) + SensorMoves(sensors, r)) == Hops(FanMoves(fans, r))
  {
    var moves := FanMoves(fans, r);
    if sensors == [] {
      assert moves + [] == moves;
    } else {
      var init := SensorMoves(sensors[..|sensors| - 1], r);
      var all := SensorMoves(sensors, r);
      HopsOfFans(fans, r, sensors[..|sensors| - 1]);
      SensorMovesKind(sensors, r);
      if |all| > |init| {
        assert all == init + [all[|init|]] && all[|init|] in all;
        HopsOfMore(moves + init, all[|init|]);
        assert moves + all == moves + init + [all[|init|]];
      } else {
        assert all == init;
      }
    }
  }

  predicate Moves(f: Fan, r: Resolver) { ResolveFan(f, r).pwm != f.pwm }

  ghost predicate MovesFrom(fans: seq<Fan>, r: Resolver, p: Path) { exists f :: f in fans && Moves(f, r) && f.pwm == p }

  ghost predicate MovesTo(fans: seq<Fan>, r: Resolver, p: Path) { exists f :: f in fans && Moves(f, r) && ResolveFan(f, r).pwm == p }

  lemma FanHopsLast(fans: seq<Fan>, r: Resolver)
    requires fans != []
    ensures var init, f := Hops(FanMoves(fans[..|fans| - 1], r)), fans[|fans| - 1];
            Hops(FanMoves(fans, r)) == if Moves(f, r) then init + [Hop(f.pwm, ResolveFan(f, r).pwm)] else init
  {
    var init, f := FanMoves(fans[..|fans| - 1], r), fans[|fans| - 1];
    if ResolveFan(f, r) != f {
      assert FanMoves(fans, r) == init + [FanMoveOf(f, r)];
      HopsLast(FanMoves(fans, r));
      assert (init + [FanMoveOf(f, r)])[..|init|] == init;
    } else {
      assert FanMoves(fans, r) == init;
    }
  }

  lemma HopEnds(hops: seq<Hop>, h: Hop)
    ensures Sources(hops + [h]) == Sources(hops) + [h.src] && Targets(hops + [h]) == Targets(hops) + [h.dst]
  {
  }

  lemma MovesLast(fans: seq<Fan>, r: Resolver, p: Path)
    requires fans != []
    ensures var init, f := fans[..|fans| - 1], fans[|fans| - 1];
            && (MovesFrom(fans, r, p) <==> MovesFrom(init, r, p) || (Moves(f, r) && f.pwm == p))
            && (MovesTo(fans, r, p) <==> MovesTo(init, r, p) || (Moves(f, r) && ResolveFan(f, r).pwm == p))
  {
    var init, f := fans[..|fans| - 1], fans[|fans| - 1];
    assert forall g :: g in fans <==> g in init || g == f by { assert fans == init + [f]; }
  }

  /** The hops of a config are its moved fans, in order. */
  lemma {:induction false} HopsOfFanMoves(fans: seq<Fan>, r: Resolver, p: Path)
    ensures p in Sources(Hops(FanMoves(fans, r))) <==> MovesFrom(fans, r, p)
    ensures p in Targets(Hops(FanMoves(fans, r))) <==> MovesTo(fans, r, p)
  {
    if fans != [] {
      var init, f := fans[..|fans| - 1], fans[|fans| - 1];
      HopsOfFanMoves(init, r, p);
      FanHopsLast(fans, r);
      MovesLast(fans, r, p);
      HopEnds(Hops(FanMoves(init, r)), Hop(f.pwm, ResolveFan(f, r).pwm));
    }
  }

  // ---------------------------------------------------------------- any number of reloads

  /** No path is both left and reached. */
  ghost predicate Apart(hops: seq<Hop>) { forall p :: p in Sources(hops) ==> p !in Targets(hops) }

  ghost predicate Left(r: Resolver, p: Path) { exists d: string :: r(p, d).Some? }

  lemma TargetsStay(c: Config, r: Resolver, q: Path)
    requires Settled(r) && q in Targets(Hops(MovesOf(c, r)))
    ensures !Left(r, q)
  {
    HopsOfFans(c.fans, r, c.sensors);
    HopsOfFanMoves(c.fans, r, q);
    var f :| f in c.fans && Moves(f, r) && ResolveFan(f, r).pwm == q;
    MovedFanResolves(f, r);
    NotLeftAgain(r, f.pwm, f.device);
  }

  lemma MovedFanResolves(f: Fan, r: Resolver)
    requires Moves(f, r)
    ensures r(f.pwm, f.device) == Some(ResolveFan(f, r).pwm)
  {
  }

  lemma NotLeftAgain(r: Resolver, p: Path, d: string)
    requires Settled(r) && r(p, d).Some?
    ensures !Left(r, r(p, d).value)
  {
  }

  lemma SourcesLeft(c: Config, r: Resolver, p: Path)
    requires p in Sources(Hops(MovesOf(c, r)))
    ensures Left(r, p)
  {
    HopsOfFans(c.fans, r, c.sensors);
    HopsOfFanMoves(c.fans, r, p);
    var f :| f in c.fans && Moves(f, r) && f.pwm == p;
    assert r(p, f.device).Some?;
  }

  lemma OldPathsLeft(c: Config, r: Resolver, m: Move)
    requires m in MovesOf(c, r) && m.MovesFan()
    ensures Left(r, m.oldPwm) && (m.MovesTach() ==> Left(r, m.oldRpm))
  {
    SensorMovesKind(c.sensors, r);
    FanMovesExact(c.fans, r, m);
    var f :| f in c.fans && ResolveFan(f, r) != f && m == FanMoveOf(f, r);
    assert r(f.pwm, f.device).Some?;
    assert m.MovesTach() ==> r(f.rpm, f.device).Some?;
  }

  /** On one look at sysfs no path is both left and reached, and no tachometer left is reached. */
  lemma SettledMovesApart(c: Config, r: Resolver)
    requires Settled(r)
    ensures Apart(Hops(MovesOf(c, r)))
    ensures forall q, m :: q in Targets(Hops(MovesOf(c, r))) && m in MovesOf(c, r) && m.MovesFan() ==>
              m.oldPwm != q && (m.MovesTach() ==> m.oldRpm != q)
  {
    forall q | q in Targets(Hops(MovesOf(c, r))) ensures !Left(r, q) { TargetsStay(c, r, q); }
    forall p | p in Sources(Hops(MovesOf(c, r))) ensures Left(r, p) { SourcesLeft(c, r, p); }
    forall m | m in MovesOf(c, r) && m.MovesFan() ensures Left(r, m.oldPwm) && (m.MovesTach() ==> Left(r, m.oldRpm)) {
      OldPathsLeft(c, r, m);
    }
  }

  lemma AbsentSource(held: multiset<Path>, h: Hop, p: Path)
    requires p != h.dst
    ensures HopNet(held, h)[p] == if p == h.src then (if held[p] == 0 then 0 else held[p] - 1) else held[p]
  {
  }

  /** A path that is never reached loses one entry for each move away from it, while it has any. */
  lemma {:induction false} OnlySource(held: multiset<Path>, hops: seq<Hop>, p: Path, enable: Path -> int)
    requires p !in Targets(hops)
    ensures Net(held, HopOps(hops, enable))[p] == Less(held[p], multiset(Sources(hops))[p])
  {
    if hops == [] {
      assert Sources(hops) == [];
    } else {
      var k := |hops| - 1;
      HopEnds(hops[..k], hops[k]);
      assert hops == hops[..k] + [hops[k]];
      OnlySource(held, hops[..k], p, enable);
      HopOpsLast(held, hops[..k], hops[k], enable);
      AbsentSource(Net(held, HopOps(hops[..k], enable)), hops[k], p);
    }
  }

  function Less(a: nat, b: nat): nat { if a <= b then 0 else a - b }

  /** Entries of `p` after `n` rounds of the same moves, starting from `count`. */
  function CountAfter(count: nat, hops: seq<Hop>, n: nat, p: Path): nat {
    if p in Sources(hops) then Less(count, n * multiset(Sources(hops))[p])
    else count + n * multiset(Targets(hops))[p]
  }

  lemma OneRound(tach: set<Path>, held: multiset<Path>, moves: seq<Move>, enable: Path -> int, p: Path)
    requires TachsApart(tach, held, moves) && Apart(Hops(moves))
    ensures Net(held, SwapOps(moves, enable))[p] == CountAfter(held[p], Hops(moves), 1, p)
  {
    SwapNetIsHopNet(tach, held, moves, enable);
    if p in Sources(Hops(moves)) {
      OnlySource(held, Hops(moves), p, enable);
    } else {
      UntouchedSource(held, Hops(moves), p, enable);
    }
  }

  /** What reloading one unchanged file does to the registry, reload after reload. */
  function Rounds(moves: seq<Move>, enables: seq<Path -> int>): seq<Op> {
    if enables == [] then []
    else Rounds(moves, enables[..|enables| - 1]) + SwapOps(moves, enables[|enables| - 1])
  }

  lemma CountOneMore(count: nat, hops: seq<Hop>, n: nat, p: Path)
    ensures CountAfter(CountAfter(count, hops, n, p), hops, 1, p) == CountAfter(count, hops, n + 1, p)
  {
    var s, t := multiset(Sources(hops))[p], multiset(Targets(hops))[p];
    assert (n + 1) * s == n * s + s && (n + 1) * t == n * t + t;
  }

  /**
   Nothing writes resolved paths back to the file, so a reload of an unchanged file makes the same
   moves again. After n such reloads each path left has lost up to n entries, and each path
   reached has gained n, one too many for every reload after the first.
   */
  lemma {:induction false} RegistryAfterReloads(
    tach: set<Path>, held: multiset<Path>, moves: seq<Move>, enables: seq<Path -> int>, p: Path)
    requires TachsApart(tach, held, moves) && Apart(Hops(moves))
    ensures Net(held, Rounds(moves, enables))[p] == CountAfter(held[p], Hops(moves), |enables|, p)
    ensures forall q :: q in Net(held, Rounds(moves, enables)) ==> q !in tach
    decreases |enables|
  {
    if enables == [] {
      assert Net(held, []) == held;
    } else {
      var n := |enables| - 1;
      var before := Net(held, Rounds(moves, enables[..n]));
      RegistryAfterReloads(tach, held, moves, enables[..n], p);
      NetConcat(held, Rounds(moves, enables[..n]), SwapOps(moves, enables[n]));
      OneRound(tach, before, moves, enables[n], p);
      SwapNetIsHopNet(tach, before, moves, enables[n]);
      CountOneMore(held[p], Hops(moves), n, p);
    }
  }

  lemma OneFanHop(f: Fan, r: Resolver)
    requires Moves(f, r)
    ensures Hops(FanMoves([f], r)) == [Hop(f.pwm, ResolveFan(f, r).pwm)]
    ensures forall m :: m in FanMoves([f], r) ==> m == FanMoveOf(f, r)
  {
    assert [f][..0] == [];
    var moves := FanMoves([f], r);
    assert moves == [FanMoveOf(f, r)] && moves[..0] == [];
    assert Hops(moves[..0]) == [];
  }

  lemma OneHopCount(p: Path, q: Path, n: nat, x: Path)
    requires p != q
    ensures CountAfter(multiset{p}[x], [Hop(p, q)], n, x) ==
              if x == q then n else if x == p && n == 0 then 1 else 0
  {
    assert Sources([Hop(p, q)]) == [p] && Targets([Hop(p, q)]) == [q];
  }

  /** One moved fan, the same file n times: n entries where one belongs. */
  lemma UnchangedFileStacksUp(f: Fan, r: Resolver, enables: seq<Path -> int>)
    requires Settled(r) && Moves(f, r) && f.rpm == ""
    ensures var q := ResolveFan(f, r).pwm;
            forall x :: Net(multiset{f.pwm}, Rounds(FanMoves([f], r), enables))[x] ==
              if x == q then |enables| else if x == f.pwm && enables == [] then 1 else 0
  {
    var q := ResolveFan(f, r).pwm;
    var moves := FanMoves([f], r);
    OneFanHop(f, r);
    assert Sources(Hops(moves)) == [f.pwm] && Targets(Hops(moves)) == [q];
    forall x ensures Net(multiset{f.pwm}, Rounds(moves, enables))[x] == CountAfter(multiset{f.pwm}[x], [Hop(f.pwm, q)], |enables|, x) {
      RegistryAfterReloads({}, multiset{f.pwm}, moves, enables, x);
    }
    forall x ensures CountAfter(multiset{f.pwm}[x], [Hop(f.pwm, q)], |enables|, x) ==
                     if x == q then |enables| else if x == f.pwm && enables == [] then 1 else 0 {
      OneHopCount(f.pwm, q, |enables|, x);
    }
  }

  // ---------------------------------------------------------------- with the other goroutines

  /**
   The daemon registers its fans and follows a renumber, reloading the same file any number of
   times, while the polarity probe and calibration sweeps register and deregister in between. The
   entries are the sum of the holdings as long as nobody pops another's entry; the daemon's
   share is the count above, and every fan that was reached or never left stays covered.
   */
  lemma {:induction false} OwnersKeptUnderInterleaving(
    tach: set<Path>, trace: seq<Call>, startup: seq<Path>, moves: seq<Move>, enable: Path -> int, enables: seq<Path -> int>)
    requires Program(trace, Daemon) == Registers(startup, enable) + Rounds(moves, enables)
    requires OwnEntriesOnly(trace)
    requires TachsApart(tach, multiset(startup), moves) && Apart(Hops(moves))
    ensures Bag(Exec([], OpsOf(trace))) == Total(Held(trace, Daemon), Held(trace, Probe), Held(trace, Sweep))
    ensures forall p :: Held(trace, Daemon)[p] == CountAfter(multiset(startup)[p], Hops(moves), |enables|, p)
    ensures forall p :: (p in Targets(Hops(moves)) && enables != []) || (p in startup && p !in Sources(Hops(moves))) ==>
                          StackOf(Exec([], OpsOf(trace)), p) != []
  {
    NetConcat(multiset{}, Registers(startup, enable), Rounds(moves, enables));
    NetRegisters(multiset{}, startup, enable);
    assert multiset{} + multiset(startup) == multiset(startup);
    EntriesAreSumOfHoldings(trace);
    forall p ensures Held(trace, Daemon)[p] == CountAfter(multiset(startup)[p], Hops(moves), |enables|, p) {
      RegistryAfterReloads(tach, multiset(startup), moves, enables, p);
    }
    forall p | (p in Targets(Hops(moves)) && enables != []) || (p in startup && p !in Sources(Hops(moves)))
      ensures StackOf(Exec([], OpsOf(trace)), p) != []
    {
      assert p !in Sources(Hops(moves));
      PresentAfter(multiset(startup)[p], Hops(moves), |enables|, p);
      HeldPathsAreCovered(trace, Daemon, p);
    }
  }

  lemma PresentAfter(count: nat, hops: seq<Hop>, n: nat, p: Path)
    requires p !in Sources(hops) && (count > 0 || (p in Targets(hops) && n > 0))
    ensures CountAfter(count, hops, n, p) > 0
  {
    var t := multiset(Targets(hops))[p];
    if count == 0 {
      assert p in multiset(Targets(hops));
      assert n * t >= t;
    }
  }

  // ---------------------------------------------------------------- which reading survives

  function FreshEntry(p: Path, enable: Path -> int): Entry { Entry(p, "hwmon", enable(p)) }

  function Copies(e: Entry, n: nat): seq<Entry> { seq(n, _ => e) }

  lemma OneMoreCopy(stack: seq<Entry>, e: Entry, n: nat)
    ensures stack + Copies(e, n) + [e] == stack + Copies(e, n + 1)
  {
  }

  function ArrivalsAt(moves: seq<Move>, q: Path): nat { multiset(Targets(Hops(moves)))[q] }

  lemma OneMoreArrival(moves: seq<Move>, q: Path)
    requires moves != []
    ensures var m := moves[|moves| - 1];
            ArrivalsAt(moves, q) == ArrivalsAt(moves[..|moves| - 1], q) + if m.MovesFan() && m.newPwm == q then 1 else 0
  {
    var m := moves[|moves| - 1];
    HopsLast(moves);
    HopEnds(Hops(moves[..|moves| - 1]), Hop(m.oldPwm, m.newPwm));
  }

  /** The stack of a path that no move leaves: one fresh reading on top for each move that reaches it. */
  lemma {:induction false} ArrivalsOnTop(stack: seq<Entry>, moves: seq<Move>, q: Path, enable: Path -> int)
    requires forall m :: m in moves && m.MovesFan() ==> m.oldPwm != q && (m.MovesTach() ==> m.oldRpm != q)
    ensures StackRun(stack, SwapOps(moves, enable), q) == stack + Copies(FreshEntry(q, enable), ArrivalsAt(moves, q))
  {
    if moves == [] {
      assert Targets(Hops(moves)) == [];
    } else {
      var init, m := moves[..|moves| - 1], moves[|moves| - 1];
      assert m in moves;
      ArrivalsOnTop(stack, init, q, enable);
      StackRunConcat(stack, SwapOps(init, enable), MoveOps(m, enable), q);
      OneArrival(StackRun(stack, SwapOps(init, enable), q), m, q, enable);
      OneMoreArrival(moves, q);
      OneMoreCopy(stack, FreshEntry(q, enable), ArrivalsAt(init, q));
    }
  }

  lemma OneArrival(stack: seq<Entry>, m: Move, q: Path, enable: Path -> int)
    requires m.MovesFan() ==> m.oldPwm != q && (m.MovesTach() ==> m.oldRpm != q)
    ensures StackRun(stack, MoveOps(m, enable), q) ==
              if m.MovesFan() && m.newPwm == q then stack + [FreshEntry(q, enable)] else stack
  {
    if m.MovesFan() {
      var a, b, c := Deregister(m.oldPwm), Register(m.newPwm, "hwmon", enable(m.newPwm)), Deregister(m.oldRpm);
      assert [a, b][..1] == [a] && [a][..0] == [] && [a, b, c][..2] == [a, b];
      assert StackRun(stack, [], q) == stack;
      assert StackRun(stack, [a], q) == stack;
      assert StackRun(stack, [a, b], q) == StackStep(stack, b, q);
      assert [a, b] + [c] == [a, b, c] && [a, b] + [] == [a, b];
    }
  }

  /** After a renumber the top entry of every moved fan's path is the reading taken at its new path. */
  lemma FreshReadingSurvives(es: seq<Entry>, c: Config, r: Resolver, f: Fan, enable: Path -> int)
    requires Settled(r) && f in c.fans && Moves(f, r)
    ensures var q := ResolveFan(f, r).pwm;
            var stack := StackOf(Exec(es, SwapOps(MovesOf(c, r), enable)), q);
            stack != [] && stack[|stack| - 1] == FreshEntry(q, enable) && StackOf(es, q) <= stack
  {
    var q := ResolveFan(f, r).pwm;
    var moves := MovesOf(c, r);
    HopsOfFans(c.fans, r, c.sensors);
    HopsOfFanMoves(c.fans, r, q);
    assert q in multiset(Targets(Hops(moves)));
    SettledMovesApart(c, r);
    ListRefinesStacks(es, SwapOps(moves, enable), q);
    ArrivalsOnTop(StackOf(es, q), moves, q, enable);
  }
}
