/**
 Raw (0..255) and percent (0..100) duty cycles of curves (internal/config/migrate.go) and what
 Save followed by Load does to them (internal/config/save.go, load.go).
 */
module Duty {
  import opened Common
  import H = HwmonPaths

  newtype byte = n: int | 0 <= n < 256

  /** A raw field and its percent sibling, optional. */
  datatype Field = Field(raw: byte, pct: Option<byte>)

  datatype Point = Point(temp: real, duty: Field)

  datatype Curve = Curve(name: string, minPwm: Field, maxPwm: Field, value: Field, points: seq<Point>)

  // ---------------------------------------------------------------- conversions

  /** round(pct * 255 / 100), halves up; they occur at pct 10, 30, 50, 70 and 90. */
  function PctToRaw(pct: byte): byte {
    var p := if pct > 100 then 100 else pct as int;
    ((p * 255 * 2 + 100) / 200) as byte
  }

  /** round(raw * 100 / 255); no half occurs. */
  function RawToPct(raw: byte): byte { ((raw as int * 200 + 255) / 510) as byte }

  function Gap(a: byte, b: byte): nat { if a < b then b as int - a as int else a as int - b as int }

  /** Percent survives raw; raw survives percent up to one step; both conversions are monotone. */
  lemma ConversionsRoundTrip(raw: byte, pct: byte)
    ensures pct <= 100 ==> RawToPct(PctToRaw(pct)) == pct
    ensures RawToPct(raw) <= 100 && Gap(raw, PctToRaw(RawToPct(raw))) <= 1
  {
  }

  /** The nearest raw value, a half up; percentages above 100 count as 100. */
  lemma PctToRawIsNearest(pct: byte)
    ensures pct <= 100 ==> -50 < 100 * (PctToRaw(pct) as int) - 255 * (pct as int) <= 50
    ensures pct > 100 ==> PctToRaw(pct) == 255
    ensures PctToRaw(0) == 0 && PctToRaw(50) == 128 && PctToRaw(100) == 255
  {
  }

  /** The nearest percentage; there is always one. */
  lemma RawToPctIsNearest(raw: byte)
    ensures -255 < 2 * (255 * (RawToPct(raw) as int) - 100 * (raw as int)) < 255
    ensures RawToPct(0) == 0 && RawToPct(128) == 50 && RawToPct(255) == 100
  {
  }

  lemma ConversionsAreMonotone(a: byte, b: byte)
    requires a <= b
    ensures RawToPct(a) <= RawToPct(b) && PctToRaw(a) <= PctToRaw(b)
  {
  }

  // ---------------------------------------------------------------- reconcile

  function Reconcile(f: Field): Field {
    match f.pct
    case None => Field(f.raw, Some(RawToPct(f.raw)))
    case Some(pct) =>
      var expected := PctToRaw(pct);
      if f.raw == 0 || Gap(f.raw, expected) > 1 then Field(expected, f.pct) else f
  }

  /** The two sides agree up to rounding. */
  predicate InSync(f: Field) { f.pct.Some? && Gap(f.raw, PctToRaw(f.pct.value)) <= 1 }

  /** Reconciling once is enough, always ends in sync, and without a percent key keeps the raw value. */
  lemma ReconcileSettles(f: Field)
    ensures InSync(Reconcile(f)) && Reconcile(Reconcile(f)) == Reconcile(f)
    ensures f.pct.None? ==> Reconcile(f).raw == f.raw && Reconcile(f).pct == Some(RawToPct(f.raw))
    ensures f.pct.Some? ==> Reconcile(f).pct == f.pct
  {
  }

  /** The raw value the caller holds is overwritten in exactly these cases. */
  lemma RawOverwrittenIff(f: Field)
    ensures Reconcile(f).raw != f.raw <==>
            f.pct.Some? && (if f.raw == 0 then PctToRaw(f.pct.value) != 0 else Gap(f.raw, PctToRaw(f.pct.value)) > 1)
    ensures Reconcile(f).raw != f.raw ==> Reconcile(f).raw == PctToRaw(f.pct.value)
  {
  }

  // ---------------------------------------------------------------- MigrateCurvePWMFields

  function MigratePoints(ps: seq<Point>): seq<Point> {
    seq(|ps|, i requires 0 <= i < |ps| => ps[i].(duty := Reconcile(ps[i].duty)))
  }

  function MigrateCurve(c: Curve): Curve {
    c.(minPwm := Reconcile(c.minPwm), maxPwm := Reconcile(c.maxPwm), value := Reconcile(c.value),
    points := MigratePoints(c.points))
  }

  function Migrate(cs: seq<Curve>): seq<Curve> { seq(|cs|, i requires 0 <= i < |cs| => MigrateCurve(cs[i])) }

  method MigrateCurvePWMFields(curves: array<Curve>)
    modifies curves
    ensures curves[..] == Migrate(old(curves[..]))
  {
    ghost var cs := curves[..];
    for i := 0 to curves.Length
      invariant forall j | 0 <= j < i :: curves[j] == MigrateCurve(cs[j])
      invariant forall j | i <= j < curves.Length :: curves[j] == cs[j]
    {
      var c := curves[i];
      c := c.(minPwm := Reconcile(c.minPwm));
      c := c.(maxPwm := Reconcile(c.maxPwm));
      c := c.(value := Reconcile(c.value));
      var points := c.points;
      for j := 0 to |points|
        invariant |points| == |cs[i].points|
        invariant points == MigratePoints(cs[i].points[..j]) + cs[i].points[j..]
      {
        points := points[j := points[j].(duty := Reconcile(points[j].duty))];
      }
      assert cs[i].points[..|points|] == cs[i].points;
      curves[i] := c.(points := points);
    }
  }

  // ---------------------------------------------------------------- Save and Load

  /** A field as the file holds it: a zero raw value is omitted, so reading it back gives zero. */
  function OnDisk(f: Field): Field { Field(0, f.pct) }

  function PointsOnDisk(ps: seq<Point>): seq<Point> {
    seq(|ps|, i requires 0 <= i < |ps| => ps[i].(duty := OnDisk(ps[i].duty)))
  }

  function CurveOnDisk(c: Curve): Curve {
    c.(minPwm := OnDisk(c.minPwm), maxPwm := OnDisk(c.maxPwm), value := OnDisk(c.value), points := PointsOnDisk(c.points))
  }

  function File(cs: seq<Curve>): seq<Curve> { seq(|cs|, i requires 0 <= i < |cs| => CurveOnDisk(cs[i])) }

  /** The parts of a config that Save and Parse change. */
  datatype Doc = Doc(curves: seq<Curve>, sensors: seq<Sensor>, fans: seq<Fan>)

  datatype SaveError = MarshalFailed | Malformed | Invalid | MkdirFailed | WriteFailed

  /** The calls Save makes besides, what validate says, and the chip names that can be read. */
  datatype Env = Env(marshals: bool, valid: Doc -> bool, mkdirs: bool, writes: bool, names: H.Names)

  /** What a document is parsed to; None is text that is not a config. */
  function Parsed(document: Option<Doc>, valid: Doc -> bool): Result<Doc, SaveError> {
    match document
    case None => Err(Malformed)
    case Some(doc) =>
      var loaded := doc.(curves := Load(doc.curves));
      if valid(loaded) then Ok(loaded) else Err(Invalid)
  }

  /** What the caller holds after a Save, failed or not. */
  function Prepared(doc: Doc, names: H.Names): Doc {
    Doc(Migrate(doc.curves), H.EnrichSensors(doc.sensors, names), H.EnrichFans(doc.fans, names))
  }

  /** Which error a Save ends with, in each case exactly; every later step needs the earlier ones. */
  lemma SaveErrorsIff(doc: Doc, env: Env)
    ensures var shown := doc.(curves := Cycle(doc.curves), sensors := H.EnrichSensors(doc.sensors, env.names), fans := H.EnrichFans(doc.fans, env.names));
            && (Saved(doc, env) == Err(MarshalFailed) <==> !env.marshals)
            && (Saved(doc, env) == Err(Invalid) <==> env.marshals && !env.valid(shown))
            && (Saved(doc, env) == Err(MkdirFailed) <==> env.marshals && env.valid(shown) && !env.mkdirs)
            && (Saved(doc, env) == Err(WriteFailed) <==> env.marshals && env.valid(shown) && env.mkdirs && !env.writes)
            && (Saved(doc, env) == Ok(shown) <==> env.marshals && env.valid(shown) && env.mkdirs && env.writes)
  {
  }

  function OnFile(doc: Doc): Doc { doc.(curves := File(doc.curves)) }

  function Saved(doc: Doc, env: Env): Result<Doc, SaveError> {
    if !env.marshals then Err(MarshalFailed)
    else
      match Parsed(Some(OnFile(Prepared(doc, env.names))), env.valid)
      case Err(e) => Err(e)
      case Ok(validated) =>
        if !env.mkdirs then Err(MkdirFailed)
        else if !env.writes then Err(WriteFailed)
        else Ok(validated)
  }

  /**
   Fills in chip names and migrates the curves of the caller's config in place, on a failure too,
   then builds the shadow that is written and parsed back. `file` is what has been written.
   */
  method Save(curves: array<Curve>, sensors: array<Sensor>, fans: array<Fan>, env: Env)
    returns (r: Result<Doc, SaveError>, file: Option<Doc>)
    modifies curves, sensors, fans
    ensures var before := Doc(old(curves[..]), old(sensors[..]), old(fans[..]));
            && Doc(curves[..], sensors[..], fans[..]) == Prepared(before, env.names)
            && r == Saved(before, env)
            && file == (if r.Ok? then Some(OnFile(Prepared(before, env.names))) else None)
            && (r.Ok? ==> Parsed(file, env.valid) == r)
  {
    H.EnrichChipName(sensors, fans, env.names);
    MigrateCurvePWMFields(curves);
    var shadow := Shadow(curves[..]);
    var out := Doc(shadow, sensors[..], fans[..]);
    if !env.marshals {
      return Err(MarshalFailed), None;
    }
    var validated := Parse(Some(out), env.valid);
    if validated.Err? {
      return validated, None;
    }
    if !env.mkdirs {
      return Err(MkdirFailed), None;
    }
    if !env.writes {
      return Err(WriteFailed), None;
    }
    return validated, Some(out);
  }

  /** The curves with percent fields only; the caller's are not changed. */
  method Shadow(cs: seq<Curve>) returns (file: seq<Curve>)
    ensures file == File(cs)
  {
    file := cs;
    for i := 0 to |file|
      invariant |file| == |cs|
      invariant forall j | 0 <= j < i :: file[j] == CurveOnDisk(cs[j])
      invariant forall j | i <= j < |file| :: file[j] == cs[j]
    {
      var c := file[i];
      c := c.(minPwm := c.minPwm.(raw := 0));
      c := c.(maxPwm := c.maxPwm.(raw := 0));
      c := c.(value := c.value.(raw := 0));
      var pts := c.points;
      for j := 0 to |pts|
        invariant |pts| == |cs[i].points|
        invariant pts == PointsOnDisk(cs[i].points[..j]) + cs[i].points[j..]
      {
        pts := pts[j := pts[j].(duty := pts[j].duty.(raw := 0))];
      }
      assert cs[i].points[..|pts|] == cs[i].points;
      file := file[i := c.(points := pts)];
    }
  }

  function Load(file: seq<Curve>): seq<Curve> { Migrate(file) }

  /** Reads a document; the curves of a well-formed one are migrated, and all of it is validated. */
  method Parse(document: Option<Doc>, valid: Doc -> bool) returns (r: Result<Doc, SaveError>)
    ensures r == Parsed(document, valid)
  {
    if document.None? {
      return Err(Malformed);
    }
    var file := document.value.curves;
    var parsed := new Curve[|file|](i requires 0 <= i < |file| => file[i]);
    assert parsed[..] == file;
    MigrateCurvePWMFields(parsed);
    var loaded := document.value.(curves := parsed[..]);
    if !valid(loaded) {
      return Err(Invalid);
    }
    return Ok(loaded);
  }

  /** One Save followed by one Load. */
  function Cycle(cs: seq<Curve>): seq<Curve> { Load(File(Migrate(cs))) }

  function Cycles(cs: seq<Curve>, n: nat): seq<Curve> { if n == 0 then cs else Cycle(Cycles(cs, n - 1)) }

  function CycleField(f: Field): Field { Reconcile(OnDisk(Reconcile(f))) }

  // ---------------------------------------------------------------- no drift

  /** After one cycle a field holds exactly its percent value, and stays there. */
  lemma CycleFieldSettles(f: Field)
    ensures var g := CycleField(f);
            && g.pct.Some? && g.raw == PctToRaw(g.pct.value) && CycleField(g) == g
            && Gap(g.raw, Reconcile(f).raw) <= 1
            && (f.pct.None? ==> Gap(g.raw, f.raw) <= 1)
  {
  }

  /** The only nonzero duty a save turns into a stopped fan is 1. */
  lemma OnlyOneIsLost(raw: byte)
    ensures raw != 0 && CycleField(Field(raw, None)).raw == 0 <==> raw == 1
  {
  }

  function CycleCurve(c: Curve): Curve {
    c.(minPwm := CycleField(c.minPwm), maxPwm := CycleField(c.maxPwm), value := CycleField(c.value),
    points := seq(|c.points|, i requires 0 <= i < |c.points| => c.points[i].(duty := CycleField(c.points[i].duty))))
  }

  lemma CycleIsPerField(cs: seq<Curve>)
    ensures |Cycle(cs)| == |cs| && forall i | 0 <= i < |cs| :: Cycle(cs)[i] == CycleCurve(cs[i])
  {
    forall i | 0 <= i < |cs| ensures Cycle(cs)[i] == CycleCurve(cs[i]) {
      assert Cycle(cs)[i].points == CycleCurve(cs[i]).points;
    }
  }

  lemma CycleCurveSettles(c: Curve)
    ensures CycleCurve(CycleCurve(c)) == CycleCurve(c)
  {
    CycleFieldSettles(c.minPwm);
    CycleFieldSettles(c.maxPwm);
    CycleFieldSettles(c.value);
    var d := CycleCurve(c);
    forall i | 0 <= i < |c.points| ensures CycleCurve(d).points[i] == d.points[i] { CycleFieldSettles(c.points[i].duty); }
    assert CycleCurve(d).points == d.points;
  }

  /** From the first cycle on nothing changes any more. */
  lemma {:induction false} CyclesAreConstant(cs: seq<Curve>, n: nat)
    requires n >= 1
    ensures Cycles(cs, n) == Cycle(cs)
  {
    if n > 1 {
      CyclesAreConstant(cs, n - 1);
      CycleIsPerField(cs);
      CycleIsPerField(Cycle(cs));
      forall i | 0 <= i < |cs| ensures Cycle(Cycle(cs))[i] == Cycle(cs)[i] { CycleCurveSettles(cs[i]); }
      assert Cycle(Cycle(cs)) == Cycle(cs);
    } else {
      assert Cycles(cs, 0) == cs;
    }
  }

  predicate NoPercentKeys(c: Curve) {
    && c.minPwm.pct.None? && c.maxPwm.pct.None? && c.value.pct.None?
    && forall i | 0 <= i < |c.points| :: c.points[i].duty.pct.None?
  }

  ghost predicate Near(c: Curve, d: Curve) {
    && Gap(c.minPwm.raw, d.minPwm.raw) <= 1 && Gap(c.maxPwm.raw, d.maxPwm.raw) <= 1 && Gap(c.value.raw, d.value.raw) <= 1
    && |c.points| == |d.points|
    && forall i | 0 <= i < |c.points| ::
         c.points[i].temp == d.points[i].temp && Gap(c.points[i].duty.raw, d.points[i].duty.raw) <= 1
  }

  ghost predicate SameRaw(c: Curve, d: Curve) {
    && c.minPwm.raw == d.minPwm.raw && c.maxPwm.raw == d.maxPwm.raw && c.value.raw == d.value.raw
    && |c.points| == |d.points| && forall i | 0 <= i < |c.points| :: c.points[i].duty.raw == d.points[i].duty.raw
  }

  /**
   Curves written with raw keys only: any number of Save/Load cycles keeps every raw duty within
   one of the original, MinPWM <= MaxPWM and the duty order of points are kept, and the
   caller's own raw values are untouched by Save.
   */
  lemma {:induction false} NoDutyDrift(cs: seq<Curve>, n: nat, i: nat)
    requires n >= 1 && i < |cs| && NoPercentKeys(cs[i])
    ensures |Cycles(cs, n)| == |cs| && Near(cs[i], Cycles(cs, n)[i])
    ensures cs[i].minPwm.raw <= cs[i].maxPwm.raw ==> Cycles(cs, n)[i].minPwm.raw <= Cycles(cs, n)[i].maxPwm.raw
    ensures forall j, k | 0 <= j < |cs[i].points| && 0 <= k < |cs[i].points| && cs[i].points[j].duty.raw <= cs[i].points[k].duty.raw ::
              Cycles(cs, n)[i].points[j].duty.raw <= Cycles(cs, n)[i].points[k].duty.raw
    ensures SameRaw(cs[i], Migrate(cs)[i])
  {
    CyclesAreConstant(cs, n);
    CycleIsPerField(cs);
    var c := cs[i];
    CycleFieldSettles(c.minPwm);
    CycleFieldSettles(c.maxPwm);
    CycleFieldSettles(c.value);
    FreshFieldsKeepOrder(c.minPwm, c.maxPwm);
    forall j | 0 <= j < |c.points| ensures Gap(c.points[j].duty.raw, CycleCurve(c).points[j].duty.raw) <= 1 {
      CycleFieldSettles(c.points[j].duty);
    }
    forall j, k | 0 <= j < |c.points| && 0 <= k < |c.points| && c.points[j].duty.raw <= c.points[k].duty.raw
      ensures CycleCurve(c).points[j].duty.raw <= CycleCurve(c).points[k].duty.raw
    {
      FreshFieldsKeepOrder(c.points[j].duty, c.points[k].duty);
    }
    SaveKeepsCallersRaw(c);
  }

  lemma FreshFieldsKeepOrder(a: Field, b: Field)
    requires a.pct.None? && b.pct.None?
    ensures a.raw <= b.raw ==> CycleField(a).raw <= CycleField(b).raw
  {
    if a.raw <= b.raw {
      ConversionsAreMonotone(a.raw, b.raw);
      ConversionsAreMonotone(RawToPct(a.raw), RawToPct(b.raw));
      CycleFieldOfFresh(a);
      CycleFieldOfFresh(b);
    }
  }

  lemma CycleFieldOfFresh(a: Field)
    requires a.pct.None?
    ensures CycleField(a).raw == PctToRaw(RawToPct(a.raw))
  {
  }

  lemma SaveKeepsCallersRaw(c: Curve)
    requires NoPercentKeys(c)
    ensures SameRaw(c, MigrateCurve(c))
  {
  }

  lemma MigrateSettles(cs: seq<Curve>)
    ensures Migrate(Migrate(cs)) == Migrate(cs)
  {
    forall i | 0 <= i < |cs| ensures MigrateCurve(MigrateCurve(cs[i])) == MigrateCurve(cs[i]) {
      var c := cs[i];
      ReconcileSettles(c.minPwm);
      ReconcileSettles(c.maxPwm);
      ReconcileSettles(c.value);
      forall j | 0 <= j < |c.points| ensures Reconcile(MigratePoints(c.points)[j].duty) == MigratePoints(c.points)[j].duty {
        ReconcileSettles(c.points[j].duty);
      }
      assert MigratePoints(MigratePoints(c.points)) == MigratePoints(c.points);
    }
  }

  lemma EnrichSettles(sensors: seq<Sensor>, fans: seq<Fan>, names: H.Names)
    ensures H.EnrichSensors(H.EnrichSensors(sensors, names), names) == H.EnrichSensors(sensors, names)
    ensures H.EnrichFans(H.EnrichFans(fans, names), names) == H.EnrichFans(fans, names)
  {
  }

  /**
   A Save that fails changes nothing about the next one, although it has changed the caller's
   config; and what a Save has returned is saved again unchanged.
   */
  lemma {:induction false} SaveAgain(doc: Doc, env: Env)
    ensures Saved(Prepared(doc, env.names), env) == Saved(doc, env)
    ensures Saved(doc, env).Ok? ==> Saved(Saved(doc, env).value, env) == Saved(doc, env)
  {
    var cs := doc.curves;
    MigrateSettles(cs);
    EnrichSettles(doc.sensors, doc.fans, env.names);
    CyclesAreConstant(cs, 2);
    assert Cycles(cs, 2) == Cycle(Cycle(cs)) by { assert Cycles(cs, 1) == Cycle(Cycles(cs, 0)); }
  }

  /** Saving names every chip whose name can be read, so the file needs no filling in while names stay. */
  lemma SavedFileIsNamed(doc: Doc, env: Env, f: Fan)
    requires Saved(doc, env).Ok? && f in Saved(doc, env).value.fans && f.kind == "hwmon" && f.pwm != ""
    ensures f.chip != "" || env.names(f.pwm) == ""
  {
    var fans := H.EnrichFans(doc.fans, env.names);
    var i :| 0 <= i < |fans| && fans[i] == f;
    assert f == H.EnrichFan(doc.fans[i], env.names);
  }
}
