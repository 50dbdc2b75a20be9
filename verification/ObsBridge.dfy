/** The observation bridge from controller ticks to the three learning layers (cmd/ventd/smart_obs_bridge.go). */
module ObsBridge {
  import opened Common

  type Channel = Path

  /** A float64 sensor value. */
  datatype Reading = NaN | PosInf | NegInf | Finite(value: real)

  datatype Record = Record(ts: int, channel: Channel, pwm: int, rpm: int, signature: string, readings: map<string, Reading>)

  /**
   A record, the channels whose coupling shard is registered when it arrives, and the hottest of
   its readings if it has a finite one.
   */
  datatype Tick = Tick(rec: Record, shards: set<Channel>, temp: Option<real>)

  datatype LayerAFeed = LayerAFeed(channel: Channel, pwm: int, rpm: int, predictedRPM: int, now: int)
  datatype CouplingFeed = CouplingFeed(channel: Channel, now: int, tPrev: real, pwm: int, tNow: real)
  datatype MarginalFeed = MarginalFeed(channel: Channel, now: int, signature: string, pwm: int, deltaT: real, load: real)

  datatype ChannelState = ChannelState(lastTemp: real, seen: bool)

  /** Which layers the bridge was built with. */
  datatype Wiring = Wiring(coupling: bool, marginal: bool, layerA: bool)

  datatype State = State(
    channels: map<Channel, ChannelState>,
    persisted: seq<Record>,
    layerA: seq<LayerAFeed>,
    coupling: seq<CouplingFeed>,
    marginal: seq<MarginalFeed>
  )

  const Start := State(map[], [], [], [], [])

  // ---------------------------------------------------------------- the hottest reading

  /** `r` is the largest finite reading, if there is one. */
  ghost predicate IsHottest(readings: map<string, Reading>, r: Option<real>) {
    && (r.Some? ==> exists k :: k in readings && readings[k] == Finite(r.value))
    && (forall k :: k in readings && readings[k].Finite? ==> r.Some? && readings[k].value <= r.value)
  }

  /** In whatever order the map is visited, the result is the largest finite reading. */
  method MaxTempReading(readings: map<string, Reading>) returns (r: Option<real>)
    ensures IsHottest(readings, r)
    ensures r == Hottest(readings)
  {
    if |readings| == 0 {
      HottestIsHottest(readings, None);
      return None;
    }
    r := None;
    var rest := readings.Keys;
    while rest != {}
      invariant rest <= readings.Keys
      invariant r.Some? ==> exists k :: k in readings && readings[k] == Finite(r.value)
      invariant forall k :: k in readings && k !in rest && readings[k].Finite? ==> r.Some? && readings[k].value <= r.value
    {
      var k :| k in rest;
      var v := readings[k];
      if v.Finite? && (r.None? || v.value > r.value) {
        r := Some(v.value);
      }
      rest := rest - {k};
    }
    HottestIsHottest(readings, r);
  }

  lemma {:induction false} HottestExists(readings: map<string, Reading>, keys: set<string>) returns (r: Option<real>)
    requires keys <= readings.Keys
    ensures r.Some? ==> exists k :: k in readings && readings[k] == Finite(r.value)
    ensures forall k :: k in keys && readings[k].Finite? ==> r.Some? && readings[k].value <= r.value
    decreases |keys|
  {
    r := None;
    if k :| k in keys {
      r := HottestExists(readings, keys - {k});
      if readings[k].Finite? && (r.None? || readings[k].value > r.value) { r := Some(readings[k].value); }
    }
  }

  lemma HottestIsUnique(readings: map<string, Reading>, r: Option<real>, q: Option<real>)
    requires IsHottest(readings, r) && IsHottest(readings, q)
    ensures r == q
  {
  }

  ghost function Hottest(readings: map<string, Reading>): Option<real> {
    assert exists r :: IsHottest(readings, r) by {
      var r := HottestExists(readings, readings.Keys);
      assert IsHottest(readings, r);
    }
    var r :| IsHottest(readings, r);
    r
  }

  lemma HottestIsHottest(readings: map<string, Reading>, r: Option<real>)
    requires IsHottest(readings, r)
    ensures Hottest(readings) == r
  {
    HottestIsUnique(readings, Hottest(readings), r);
  }

  // ---------------------------------------------------------------- one tick

  function Marginal(t: Tick, tNow: real, tPrev: real): MarginalFeed {
    MarginalFeed(t.rec.channel, t.rec.ts, t.rec.signature, t.rec.pwm, tNow - tPrev, 0.0)
  }

  function Coupling(t: Tick, tNow: real, tPrev: real): CouplingFeed {
    CouplingFeed(t.rec.channel, t.rec.ts, tPrev, t.rec.pwm, tNow)
  }

  /** feedCouplingAndMarginal. */
  function Feed(w: Wiring, s: State, t: Tick, tNow: real, tPrev: real): State {
    s.(coupling := s.coupling + (if w.coupling && t.rec.channel in t.shards then [Coupling(t, tNow, tPrev)] else []),
       marginal := s.marginal + (if w.marginal then [Marginal(t, tNow, tPrev)] else []))
  }

  function Step(w: Wiring, s: State, t: Tick): State {
    var s1 := s.(persisted := s.persisted + [t.rec]);
    if w == Wiring(false, false, false) then s1
    else
      var s2 := if w.layerA then s1.(layerA := s1.layerA + [LayerAFeed(t.rec.channel, t.rec.pwm, t.rec.rpm, 0, t.rec.ts)]) else s1;
      match t.temp
      case None => s2
      case Some(tNow) =>
        var c := t.rec.channel;
        var s3 := if c in s2.channels && s2.channels[c].seen then Feed(w, s2, t, tNow, s2.channels[c].lastTemp) else s2;
        s3.(channels := s3.channels[c := ChannelState(tNow, true)])
  }

  class Bridge {
    const wiring: Wiring
    var channels: map<Channel, ChannelState>
    var persisted: seq<Record>
    var layerA: seq<LayerAFeed>
    var coupling: seq<CouplingFeed>
    var marginal: seq<MarginalFeed>

    ghost function View(): State
      reads this
    {
      State(channels, persisted, layerA, coupling, marginal)
    }

    constructor (w: Wiring)
      ensures wiring == w && View() == Start
    {
      wiring := w;
      channels, persisted, layerA, coupling, marginal := map[], [], [], [], [];
    }

    method FeedCouplingAndMarginal(t: Tick, tNow: real, tPrev: real)
      modifies this
      ensures View() == Feed(wiring, old(View()), t, tNow, tPrev)
    {
      if wiring.coupling {
        if t.rec.channel in t.shards {
          coupling := coupling + [Coupling(t, tNow, tPrev)];
        }
      }
      if wiring.marginal {
        marginal := marginal + [Marginal(t, tNow, tPrev)];
      }
    }

    /** One controller tick; `shards` are the channels with a coupling shard at that moment. */
    method Observe(rec: Record, shards: set<Channel>)
      modifies this
      ensures View() == Step(wiring, old(View()), Tick(rec, shards, Hottest(rec.readings)))
    {
      persisted := persisted + [rec];
      if !wiring.coupling && !wiring.marginal && !wiring.layerA {
        return;
      }
      if wiring.layerA {
        layerA := layerA + [LayerAFeed(rec.channel, rec.pwm, rec.rpm, 0, rec.ts)];
      }
      var tNow := MaxTempReading(rec.readings);
      if tNow.None? {
        return;
      }
      var c := rec.channel;
      var s := if c in channels then channels[c] else ChannelState(0.0, false);
      if s.seen {
        FeedCouplingAndMarginal(Tick(rec, shards, tNow), tNow.value, s.lastTemp);
      }
      channels := channels[c := ChannelState(tNow.value, true)];
    }
  }

  // ---------------------------------------------------------------- a stream

  function Run(w: Wiring, ticks: seq<Tick>): State {
    if ticks == [] then Start else Step(w, Run(w, ticks[..|ticks| - 1]), ticks[|ticks| - 1])
  }

  /** The ticks of one channel. */
  function Substream(ticks: seq<Tick>, c: Channel): (sub: seq<Tick>)
    ensures forall t | t in sub :: t.rec.channel == c
  {
    if ticks == [] then []
    else
      var last := ticks[|ticks| - 1];
      Substream(ticks[..|ticks| - 1], c) + if last.rec.channel == c then [last] else []
  }

  /** Its ticks that carry a finite reading. */
  function Usable(ticks: seq<Tick>, c: Channel): (sub: seq<Tick>)
    ensures forall t | t in sub :: t.rec.channel == c && t.temp.Some?
  {
    if ticks == [] then []
    else
      var last := ticks[|ticks| - 1];
      Usable(ticks[..|ticks| - 1], c) + if last.rec.channel == c && last.temp.Some? then [last] else []
  }

  function CouplingOf(feeds: seq<CouplingFeed>, c: Channel): seq<CouplingFeed> {
    if feeds == [] then []
    else CouplingOf(feeds[..|feeds| - 1], c) + if feeds[|feeds| - 1].channel == c then [feeds[|feeds| - 1]] else []
  }

  function MarginalOf(feeds: seq<MarginalFeed>, c: Channel): seq<MarginalFeed> {
    if feeds == [] then []
    else MarginalOf(feeds[..|feeds| - 1], c) + if feeds[|feeds| - 1].channel == c then [feeds[|feeds| - 1]] else []
  }

  predicate AllUsable(u: seq<Tick>) { forall i | 0 <= i < |u| :: u[i].temp.Some? }

  /** What the marginal layer should see of a channel: one feed per usable tick but the first. */
  function ExpectedMarginal(u: seq<Tick>): (feeds: seq<MarginalFeed>)
    requires AllUsable(u)
    ensures |feeds| == if |u| == 0 then 0 else |u| - 1
  {
    if |u| < 2 then []
    else
      var n := |u| - 1;
      ExpectedMarginal(u[..n]) + [Marginal(u[n], u[n].temp.value, u[n - 1].temp.value)]
  }

  /** The same for the coupling layer, for the ticks at which the channel's shard exists. */
  function ExpectedCoupling(u: seq<Tick>): seq<CouplingFeed>
    requires AllUsable(u)
  {
    if |u| < 2 then []
    else
      var n := |u| - 1;
      ExpectedCoupling(u[..n]) +
      if u[n].rec.channel in u[n].shards then [Coupling(u[n], u[n].temp.value, u[n - 1].temp.value)] else []
  }

  /** What the bridge knows about channel `c` after its usable ticks `u`. */
  predicate ChannelKnows(w: Wiring, s: State, u: seq<Tick>, c: Channel) {
    && AllUsable(u)
    && (u == [] <==> c !in s.channels)
    && (u != [] ==> s.channels[c] == ChannelState(u[|u| - 1].temp.value, true))
    && CouplingOf(s.coupling, c) == (if w.coupling then ExpectedCoupling(u) else [])
    && MarginalOf(s.marginal, c) == (if w.marginal then ExpectedMarginal(u) else [])
  }

  lemma FeedOf(w: Wiring, s: State, t: Tick, tNow: real, tPrev: real, c: Channel)
    ensures var f := Feed(w, s, t, tNow, tPrev);
            && CouplingOf(f.coupling, c) == CouplingOf(s.coupling, c)
                 + (if t.rec.channel == c && w.coupling && c in t.shards then [Coupling(t, tNow, tPrev)] else [])
            && MarginalOf(f.marginal, c) == MarginalOf(s.marginal, c)
                 + (if t.rec.channel == c && w.marginal then [Marginal(t, tNow, tPrev)] else [])
  {
    CouplingAppend(s.coupling, Coupling(t, tNow, tPrev), c);
    MarginalAppend(s.marginal, Marginal(t, tNow, tPrev), c);
    assert s.coupling + [] == s.coupling && s.marginal + [] == s.marginal;
    assert CouplingOf(s.coupling, c) + [] == CouplingOf(s.coupling, c);
    assert MarginalOf(s.marginal, c) + [] == MarginalOf(s.marginal, c);
  }

  lemma CouplingAppend(feeds: seq<CouplingFeed>, f: CouplingFeed, c: Channel)
    ensures CouplingOf(feeds + [f], c) == CouplingOf(feeds, c) + if f.channel == c then [f] else []
  {
    assert (feeds + [f])[..|feeds|] == feeds;
  }

  lemma MarginalAppend(feeds: seq<MarginalFeed>, f: MarginalFeed, c: Channel)
    ensures MarginalOf(feeds + [f], c) == MarginalOf(feeds, c) + if f.channel == c then [f] else []
  {
    assert (feeds + [f])[..|feeds|] == feeds;
  }

  lemma UsableLast(ticks: seq<Tick>, c: Channel)
    requires ticks != []
    ensures var init, t := Usable(ticks[..|ticks| - 1], c), ticks[|ticks| - 1];
            Usable(ticks, c) == (if t.rec.channel == c && t.temp.Some? then (if init == [] then [t] else init + [t]) else init)
  {
    var init, t := Usable(ticks[..|ticks| - 1], c), ticks[|ticks| - 1];
    assert init + [] == init && [] + [t] == [t];
  }

  lemma ExpectedAppend(u: seq<Tick>, t: Tick)
    requires u != [] && AllUsable(u + [t])
    ensures AllUsable(u)
    ensures var tNow, tPrev := t.temp, u[|u| - 1].temp;
            && tNow.Some? && tPrev.Some?
            && ExpectedMarginal(u + [t]) == ExpectedMarginal(u) + [Marginal(t, tNow.value, tPrev.value)]
            && ExpectedCoupling(u + [t]) ==
                 ExpectedCoupling(u) + if t.rec.channel in t.shards then [Coupling(t, tNow.value, tPrev.value)] else []
  {
    var v := u + [t];
    assert v[..|u|] == u && v[|u|] == t && v[|u| - 1] == u[|u| - 1];
    assert v[|u|].temp.Some?;
    assert forall i | 0 <= i < |u| :: u[i] == v[i];
  }

  /** A step changes what is known about the tick's own channel only. */
  lemma StepElsewhere(w: Wiring, s: State, t: Tick, c: Channel)
    requires t.rec.channel != c || t.temp.None?
    ensures var e := Step(w, s, t);
            && CouplingOf(e.coupling, c) == CouplingOf(s.coupling, c) && MarginalOf(e.marginal, c) == MarginalOf(s.marginal, c)
            && (c in e.channels <==> c in s.channels) && (c in s.channels ==> e.channels[c] == s.channels[c])
  {
    var d := t.rec.channel;
    if t.temp.Some? && d in s.channels {
      FeedOf(w, s, t, t.temp.value, s.channels[d].lastTemp, c);
      assert CouplingOf(s.coupling, c) + [] == CouplingOf(s.coupling, c) && MarginalOf(s.marginal, c) + [] == MarginalOf(s.marginal, c);
    }
  }

  lemma OtherChannel(w: Wiring, s: State, u: seq<Tick>, t: Tick, c: Channel)
    requires ChannelKnows(w, s, u, c) && (t.rec.channel != c || t.temp.None?)
    ensures ChannelKnows(w, Step(w, s, t), u, c)
  {
    StepElsewhere(w, s, t, c);
  }

  lemma FirstTick(w: Wiring, s: State, t: Tick)
    requires w != Wiring(false, false, false) && t.temp.Some? && ChannelKnows(w, s, [], t.rec.channel)
    ensures ChannelKnows(w, Step(w, s, t), [t], t.rec.channel)
  {
  }

  lemma NextTick(w: Wiring, s: State, u: seq<Tick>, t: Tick)
    requires w != Wiring(false, false, false) && t.temp.Some? && u != [] && ChannelKnows(w, s, u, t.rec.channel)
    ensures ChannelKnows(w, Step(w, s, t), u + [t], t.rec.channel)
  {
    var c := t.rec.channel;
    assert AllUsable(u + [t]);
    ExpectedAppend(u, t);
    FeedOf(w, s, t, t.temp.value, s.channels[c].lastTemp, c);
  }

  lemma {:induction false} RunKnowsChannel(w: Wiring, ticks: seq<Tick>, c: Channel)
    requires w != Wiring(false, false, false)
    ensures ChannelKnows(w, Run(w, ticks), Usable(ticks, c), c)
  {
    if ticks != [] {
      var n := |ticks| - 1;
      var s, u, t := Run(w, ticks[..n]), Usable(ticks[..n], c), ticks[n];
      RunKnowsChannel(w, ticks[..n], c);
      UsableLast(ticks, c);
      if t.rec.channel != c || t.temp.None? {
        OtherChannel(w, s, u, t, c);
      } else if u == [] {
        FirstTick(w, s, t);
      } else {
        NextTick(w, s, u, t);
      }
    }
  }

  lemma SubstreamLast(ticks: seq<Tick>, c: Channel)
    requires ticks != []
    ensures var init, t := Substream(ticks[..|ticks| - 1], c), ticks[|ticks| - 1];
            Substream(ticks, c) == if t.rec.channel == c then init + [t] else init
  {
    assert Substream(ticks[..|ticks| - 1], c) + [] == Substream(ticks[..|ticks| - 1], c);
  }

  lemma {:induction false} UsableOfSubstream(ticks: seq<Tick>, c: Channel)
    ensures Usable(Substream(ticks, c), c) == Usable(ticks, c)
  {
    if ticks != [] {
      var n := |ticks| - 1;
      UsableOfSubstream(ticks[..n], c);
      SubstreamLast(ticks, c);
      UsableLast(ticks, c);
      if ticks[n].rec.channel == c {
        var sub := Substream(ticks, c);
        assert sub[..|sub| - 1] == Substream(ticks[..n], c);
        UsableLast(sub, c);
      }
    }
  }

  /**
   Whatever the interleaving, a channel's feeds are those of its own sub-stream alone: one
   marginal feed for each usable tick after the first, and one coupling feed for each of those at
   which its shard exists, each pairing the tick with the usable tick before it.
   */
  lemma FeedsOfChannel(w: Wiring, ticks: seq<Tick>, c: Channel)
    ensures AllUsable(Usable(ticks, c))
    ensures MarginalOf(Run(w, ticks).marginal, c) == MarginalOf(Run(w, Substream(ticks, c)).marginal, c)
              == if w.marginal then ExpectedMarginal(Usable(ticks, c)) else []
    ensures CouplingOf(Run(w, ticks).coupling, c) == CouplingOf(Run(w, Substream(ticks, c)).coupling, c)
              == if w.coupling then ExpectedCoupling(Usable(ticks, c)) else []
  {
    UsableOfSubstream(ticks, c);
    if w == Wiring(false, false, false) {
      UnwiredRun(ticks);
      UnwiredRun(Substream(ticks, c));
    } else {
      RunKnowsChannel(w, ticks, c);
      RunKnowsChannel(w, Substream(ticks, c), c);
    }
  }

  lemma {:induction false} UnwiredRun(ticks: seq<Tick>)
    ensures Run(Wiring(false, false, false), ticks).coupling == [] && Run(Wiring(false, false, false), ticks).marginal == []
  {
    if ticks != [] { UnwiredRun(ticks[..|ticks| - 1]); }
  }

  /** Every record is persisted, and reaches layer A whether or not it has a usable reading. */
  lemma {:induction false} EveryTickIsPersisted(w: Wiring, ticks: seq<Tick>)
    ensures var s := Run(w, ticks);
            && |s.persisted| == |ticks| && |s.layerA| == (if w.layerA then |ticks| else 0)
            && (forall i | 0 <= i < |ticks| :: s.persisted[i] == ticks[i].rec)
            && (w.layerA ==> forall i | 0 <= i < |ticks| ::
                  s.layerA[i] == LayerAFeed(ticks[i].rec.channel, ticks[i].rec.pwm, ticks[i].rec.rpm, 0, ticks[i].rec.ts))
  {
    if ticks != [] { EveryTickIsPersisted(w, ticks[..|ticks| - 1]); }
  }

  function TotalDelta(feeds: seq<MarginalFeed>): real {
    if feeds == [] then 0.0 else TotalDelta(feeds[..|feeds| - 1]) + feeds[|feeds| - 1].deltaT
  }

  lemma {:induction false} ExpectedTelescopes(u: seq<Tick>)
    requires AllUsable(u) && u != []
    ensures TotalDelta(ExpectedMarginal(u)) == u[|u| - 1].temp.value - u[0].temp.value
  {
    if |u| > 1 {
      var n := |u| - 1;
      ExpectedTelescopes(u[..n]);
      var feeds := ExpectedMarginal(u);
      assert feeds[..|feeds| - 1] == ExpectedMarginal(u[..n]);
    }
  }

  /** The temperature differences fed for a channel add up to its last usable temperature less its first. */
  lemma DeltasTelescope(w: Wiring, ticks: seq<Tick>, c: Channel)
    requires w.marginal && Usable(ticks, c) != []
    ensures var u := Usable(ticks, c);
            && u[0].temp.Some? && u[|u| - 1].temp.Some?
            && |MarginalOf(Run(w, ticks).marginal, c)| == |u| - 1
            && TotalDelta(MarginalOf(Run(w, ticks).marginal, c)) == u[|u| - 1].temp.value - u[0].temp.value
  {
    FeedsOfChannel(w, ticks, c);
    ExpectedTelescopes(Usable(ticks, c));
  }

  /** The usable ticks after the first at which the channel has a shard, by index. */
  function FedAt(u: seq<Tick>): (ks: seq<nat>) {
    if |u| < 2 then []
    else
      var n := |u| - 1;
      FedAt(u[..n]) + if u[n].rec.channel in u[n].shards then [n] else []
  }

  ghost predicate Increasing(ks: seq<nat>) { forall i, j | 0 <= i < j < |ks| :: ks[i] < ks[j] }

  lemma {:induction false} FedAtExact(u: seq<Tick>, j: nat)
    ensures j in FedAt(u) <==> 0 < j < |u| && u[j].rec.channel in u[j].shards
  {
    if |u| > 1 {
      var n := |u| - 1;
      FedAtExact(u[..n], j);
      assert j < n ==> u[..n][j] == u[j];
    }
  }

  lemma {:induction false} FedAtIncreases(u: seq<Tick>)
    ensures Increasing(FedAt(u))
  {
    if |u| > 1 {
      var n := |u| - 1;
      FedAtIncreases(u[..n]);
      forall j | j in FedAt(u[..n]) ensures j < n { FedAtExact(u[..n], j); }
      IncreasingAppend(FedAt(u[..n]), n);
      assert FedAt(u[..n]) + [] == FedAt(u[..n]);
    }
  }

  lemma IncreasingAppend(ks: seq<nat>, n: nat)
    requires Increasing(ks) && forall j :: j in ks ==> j < n
    ensures Increasing(ks + [n])
  {
    assert forall i | 0 <= i < |ks| :: ks[i] in ks;
  }

  /** Feed i comes from tick ks[i] and the usable tick before it. */
  ghost predicate FedFrom(feeds: seq<CouplingFeed>, u: seq<Tick>, ks: seq<nat>) {
    && AllUsable(u) && |feeds| == |ks|
    && (forall i | 0 <= i < |ks| :: 0 < ks[i] < |u|)
    && (forall i | 0 <= i < |ks| :: feeds[i] == Coupling(u[ks[i]], u[ks[i]].temp.value, u[ks[i] - 1].temp.value))
  }

  lemma {:induction false} ExpectedAtFed(u: seq<Tick>)
    requires AllUsable(u)
    ensures FedFrom(ExpectedCoupling(u), u, FedAt(u))
  {
    if |u| > 1 {
      var n := |u| - 1;
      var feeds, ks := ExpectedCoupling(u[..n]), FedAt(u[..n]);
      ExpectedAtFed(u[..n]);
      FedFromLonger(feeds, u, n, ks);
      if u[n].rec.channel in u[n].shards { FedFromAppend(feeds, u, n, ks); }
      assert feeds + [] == feeds && ks + [] == ks;
    }
  }

  lemma FedFromAppend(feeds: seq<CouplingFeed>, u: seq<Tick>, n: nat, ks: seq<nat>)
    requires 0 < n < |u| && FedFrom(feeds, u, ks)
    ensures FedFrom(feeds + [Coupling(u[n], u[n].temp.value, u[n - 1].temp.value)], u, ks + [n])
  {
  }

  lemma FedFromLonger(feeds: seq<CouplingFeed>, u: seq<Tick>, n: nat, ks: seq<nat>)
    requires n <= |u| && AllUsable(u) && FedFrom(feeds, u[..n], ks)
    ensures FedFrom(feeds, u, ks)
  {
    forall i | 0 <= i < |ks| ensures 0 < ks[i] < n && u[..n][ks[i]] == u[ks[i]] && u[..n][ks[i] - 1] == u[ks[i] - 1] {}
  }

  lemma OrderOf(ks: seq<nat>, i: nat, j: nat)
    requires Increasing(ks) && i < |ks| && j < |ks|
    ensures ks[i] < ks[j] <==> i < j
  {
    if j < i { assert ks[j] < ks[i]; }
  }

  /** Of two fed indices, one right after the other, nothing lies between. */
  lemma NextFed(ks: seq<nat>, i: nat)
    requires Increasing(ks) && 0 < i < |ks| && ks[i] > 0 && ks[i] - 1 in ks
    ensures ks[i - 1] == ks[i] - 1
  {
    var j :| 0 <= j < |ks| && ks[j] == ks[i] - 1;
    OrderOf(ks, i - 1, i);
    OrderOf(ks, j, i);
    OrderOf(ks, i - 1, j);
  }

  /**
   The coupling feeds of a channel come from exactly those usable ticks after the first at which
   its shard is registered, in order, and each starts from the temperature the feed before it ended
   with unless the shard was missing at the usable tick before.
   */
  lemma CouplingChains(w: Wiring, ticks: seq<Tick>, c: Channel)
    requires w.coupling
    ensures var feeds, u, ks := CouplingOf(Run(w, ticks).coupling, c), Usable(ticks, c), FedAt(Usable(ticks, c));
            && FedFrom(feeds, u, ks) && Increasing(ks)
            && (forall j :: j in ks <==> 0 < j < |u| && c in u[j].shards)
            && (forall i | 0 < i < |feeds| && c in u[ks[i] - 1].shards :: feeds[i].tPrev == feeds[i - 1].tNow)
  {
    var u, ks := Usable(ticks, c), FedAt(Usable(ticks, c));
    FeedsOfChannel(w, ticks, c);
    ExpectedAtFed(u);
    FedAtIncreases(u);
    forall j: nat ensures j in ks <==> 0 < j < |u| && u[j].rec.channel in u[j].shards { FedAtExact(u, j); }
    assert forall j | 0 <= j < |u| :: u[j] in u && u[j].rec.channel == c;
    FedTicksChain(ExpectedCoupling(u), u, ks, c);
  }

  lemma FedTicksChain(feeds: seq<CouplingFeed>, u: seq<Tick>, ks: seq<nat>, c: Channel)
    requires FedFrom(feeds, u, ks) && Increasing(ks) && forall j :: j in ks <==> 0 < j < |u| && c in u[j].shards
    ensures forall i | 0 < i < |feeds| && c in u[ks[i] - 1].shards :: feeds[i].tPrev == feeds[i - 1].tNow
  {
    forall i | 0 < i < |feeds| && c in u[ks[i] - 1].shards ensures feeds[i].tPrev == feeds[i - 1].tNow {
      assert ks[i] > ks[i - 1] > 0;
      NextFed(ks, i);
      assert feeds[i - 1] == Coupling(u[ks[i - 1]], u[ks[i - 1]].temp.value, u[ks[i - 1] - 1].temp.value);
    }
  }

  /** The coupling layer is fed time, duty and temperature of `t` and the temperature at `before`. */
  predicate CouplingTells(m: CouplingFeed, c: Channel, before: Tick, t: Tick) {
    && before.temp.Some? && t.temp.Some?
    && m.channel == c && m.now == t.rec.ts && m.pwm == t.rec.pwm && m.tNow == t.temp.value && m.tPrev == before.temp.value
  }

  /** The marginal layer is fed time, signature and duty of `t` and how much warmer it is than `before`, at no load. */
  predicate MarginalTells(m: MarginalFeed, c: Channel, before: Tick, t: Tick) {
    && before.temp.Some? && t.temp.Some?
    && m.channel == c && m.now == t.rec.ts && m.signature == t.rec.signature && m.pwm == t.rec.pwm
    && m.deltaT == t.temp.value - before.temp.value && m.load == 0.0
  }

  lemma {:induction false} MarginalFields(u: seq<Tick>, c: Channel)
    requires AllUsable(u) && forall j | 0 <= j < |u| :: u[j].rec.channel == c
    ensures forall i | 0 <= i < |ExpectedMarginal(u)| :: MarginalTells(ExpectedMarginal(u)[i], c, u[i], u[i + 1])
  {
    if |u| > 1 {
      var n := |u| - 1;
      MarginalFields(u[..n], c);
      assert forall j | 0 <= j < n :: u[..n][j] == u[j];
    }
  }

  lemma CouplingFields(u: seq<Tick>, c: Channel)
    requires AllUsable(u) && forall j | 0 <= j < |u| :: u[j].rec.channel == c
    ensures var feeds, ks := ExpectedCoupling(u), FedAt(u);
            && |feeds| == |ks| && (forall i | 0 <= i < |ks| :: 0 < ks[i] < |u|)
            && forall i | 0 <= i < |ks| :: CouplingTells(feeds[i], c, u[ks[i] - 1], u[ks[i]])
  {
    ExpectedAtFed(u);
  }

  /**
   What each layer is fed for a channel, field by field, over any stream: the marginal layer at every
   usable tick after the first, the coupling layer at those with a shard.
   */
  lemma FeedsTellTheTicks(w: Wiring, ticks: seq<Tick>, c: Channel)
    ensures var feeds, u, ks := CouplingOf(Run(w, ticks).coupling, c), Usable(ticks, c), FedAt(Usable(ticks, c));
            w.coupling ==>
              && |feeds| == |ks| && (forall i | 0 <= i < |ks| :: 0 < ks[i] < |u|)
              && forall i | 0 <= i < |ks| :: CouplingTells(feeds[i], c, u[ks[i] - 1], u[ks[i]])
    ensures var feeds, u := MarginalOf(Run(w, ticks).marginal, c), Usable(ticks, c);
            w.marginal ==>
              && |feeds| == (if u == [] then 0 else |u| - 1)
              && forall i | 0 <= i < |feeds| :: MarginalTells(feeds[i], c, u[i], u[i + 1])
  {
    var u := Usable(ticks, c);
    FeedsOfChannel(w, ticks, c);
    assert forall j | 0 <= j < |u| :: u[j] in u && u[j].rec.channel == c;
    CouplingFields(u, c);
    MarginalFields(u, c);
  }
}
