/** The online packet sectorizer (src/engine/extraction_engine.cpp, with its inputs from
    src/data/feature_map.cpp): derived channels, eight event components per bar, their
    normalized vector, the distance between neighbouring vectors, and the change points. */
module Sectorizer {
  import opened Windows
  import opened ChangeGate
  import opened Reals

  /** One bar of the market state: log open, high, low, close and log volume. */
  datatype Bar = Bar(x0: real, x1: real, x2: real, x3: real, x4: real)

  datatype Config = Config(rollingWindow: int, gapSigma: real, rangeSigma: real, bodySigma: real, volumeSigma: real,
                           wickSigma: real, compressionSigma: real, driftSigma: real, exhaustionSigma: real,
                           weights: seq<real>, madEps: real, gate: GateConfig)

  predicate ValidConfig(cfg: Config) {
    |cfg.weights| == 8 && cfg.madEps >= 0.0
  }

  function WindowOf(cfg: Config): (w: nat)
    ensures w >= 4
  {
    if cfg.rollingWindow > 4 then cfg.rollingWindow else 4
  }

  // ---------------------------------------------------------------- derived channels

  datatype Channels = Channels(ret1: seq<real>, range: seq<real>, body: seq<real>, gap: seq<real>, wick: seq<real>,
                               shock: seq<real>)

  function Ret1(b: seq<Bar>, i: nat): real
    requires i < |b|
  {
    if i > 0 then b[i].x3 - b[i - 1].x3 else 0.0
  }

  function Gap(b: seq<Bar>, i: nat): real
    requires i < |b|
  {
    if i > 0 then b[i].x0 - b[i - 1].x3 else 0.0
  }

  /** Upper wick minus lower wick. */
  function Wick(a: Bar): real {
    (a.x1 - MaxReal(a.x0, a.x3)) - (MinReal(a.x0, a.x3) - a.x2)
  }

  function Volumes(b: seq<Bar>): (v: seq<real>)
    ensures |v| == |b| && forall i :: 0 <= i < |b| ==> v[i] == b[i].x4
  {
    seq(|b|, i requires 0 <= i < |b| => b[i].x4)
  }

  function Shock(v: seq<real>, i: nat, w: nat, sqrt: real -> real): real
    requires i < |v|
  {
    if i < w then 0.0
    else
      var win := Window(v, i, w);
      var s := Deviation(win, Mean(win), sqrt);
      if s > 0.0 then (v[i] - Mean(win)) / s else 0.0
  }

  ghost predicate DerivedFrom(d: Channels, b: seq<Bar>, w: nat, sqrt: real -> real) {
    && |d.ret1| == |d.range| == |d.body| == |d.gap| == |d.wick| == |d.shock| == |b|
    && forall i: nat :: i < |b| ==> PricesAt(d, b, i) && d.shock[i] == Shock(Volumes(b), i, w, sqrt)
  }

  ghost predicate PricesAt(d: Channels, b: seq<Bar>, i: nat) {
    && i < |b| && i < |d.ret1| && i < |d.range| && i < |d.body| && i < |d.gap| && i < |d.wick|
    && d.ret1[i] == Ret1(b, i) && d.range[i] == b[i].x1 - b[i].x2 && d.body[i] == b[i].x3 - b[i].x0
    && d.gap[i] == Gap(b, i) && d.wick[i] == Wick(b[i])
  }

  function Zeros(n: nat): (z: seq<real>)
    ensures |z| == n && forall i :: 0 <= i < n ==> z[i] == 0.0
  {
    seq(n, i => 0.0)
  }

  /** The mean of the w volumes before bar i, summed from the newest back. */
  method BackMean(v: seq<real>, i: nat, w: nat) returns (mean: real)
    requires 0 < w <= i < |v|
    ensures mean == Mean(Window(v, i, w))
  {
    hide Total, Window;
    ghost var win := Window(v, i, w);
    FullWindow(v, i, w);
    TotalNone();
    mean := 0.0;
    var k := 1;
    while k <= w
      invariant 1 <= k <= w + 1 && mean == Total(win[w + 1 - k..])
    {
      BackStep(win, w - k);
      mean := mean + v[i - k];
      k := k + 1;
    }
    assert win[0..] == win;
    mean := mean / w as real;
  }

  lemma {:induction false} FullWindow(v: seq<real>, i: nat, w: nat)
    requires w <= i <= |v|
    ensures |Window(v, i, w)| == w && forall j :: 0 <= j < w ==> Window(v, i, w)[j] == v[i - w + j]
  {
  }

  method BackVariance(v: seq<real>, i: nat, w: nat, mean: real) returns (variance: real)
    requires 0 < w <= i < |v|
    ensures variance == Total(Squares(Window(v, i, w), mean))
  {
    hide Total, Squared, Window;
    ghost var sq := Squares(Window(v, i, w), mean);
    FullWindow(v, i, w);
    TotalNone();
    variance := 0.0;
    var k := 1;
    while k <= w
      invariant 1 <= k <= w + 1 && variance == Total(sq[w + 1 - k..])
    {
      BackStep(sq, w - k);
      var e := v[i - k] - mean;
      variance := variance + Squared(e);
      k := k + 1;
    }
    assert sq[0..] == sq;
  }

  method ShockAt(v: seq<real>, i: nat, w: nat, sqrt: real -> real) returns (z: real)
    requires 1 < w <= i < |v|
    ensures z == Shock(v, i, w, sqrt)
  {
    hide Total, Squares;
    var mean := BackMean(v, i, w);
    var variance := BackVariance(v, i, w, mean);
    var s := sqrt(variance / w as real);
    z := if s > 0.0 then (v[i] - mean) / s else 0.0;
  }

  method ShockChannel(v: seq<real>, w: nat, sqrt: real -> real) returns (shock: seq<real>)
    requires w > 1
    ensures |shock| == |v| && forall k :: 0 <= k < |v| ==> shock[k] == Shock(v, k, w, sqrt)
  {
    hide Shock;
    shock := Zeros(|v|);
    NoShockYet(v, w, sqrt);
    var i := w;
    while i < |v|
      invariant w <= i && |shock| == |v|
      invariant forall k :: 0 <= k < |v| && k < i ==> shock[k] == Shock(v, k, w, sqrt)
      invariant forall k :: i <= k < |v| ==> shock[k] == 0.0
    {
      var z := ShockAt(v, i, w, sqrt);
      shock := shock[i := z];
      i := i + 1;
    }
  }

  lemma {:induction false} BackStep(s: seq<real>, j: nat)
    requires j < |s|
    ensures Total(s[j..]) == s[j] + Total(s[j + 1..])
  {
    TotalCons(s[j], s[j + 1..]);
    assert s[j..] == [s[j]] + s[j + 1..];
  }

  /** The channels of `build_derived_channels` that the sectorizer reads. */
  method DerivedChannels(b: seq<Bar>, w: nat, sqrt: real -> real) returns (d: Channels)
    requires w > 1
    ensures DerivedFrom(d, b, w, sqrt)
  {
    hide Shock;
    var n := |b|;
    var ret1, range, body, gap, wick := Zeros(n), Zeros(n), Zeros(n), Zeros(n), Zeros(n);
    var i := 0;
    while i < n
      invariant 0 <= i <= n && |ret1| == |range| == |body| == |gap| == |wick| == n
      invariant forall k: nat :: k < i ==> PricesAt(Channels(ret1, range, body, gap, wick, []), b, k)
      invariant forall k :: i <= k < n ==> ret1[k] == gap[k] == 0.0
    {
      ghost var before := Channels(ret1, range, body, gap, wick, []);
      if i > 0 {
        ret1 := ret1[i := b[i].x3 - b[i - 1].x3];
      }
      range := range[i := b[i].x1 - b[i].x2];
      body := body[i := b[i].x3 - b[i].x0];
      if i > 0 {
        gap := gap[i := b[i].x0 - b[i - 1].x3];
      }
      var upper := b[i].x1 - MaxReal(b[i].x0, b[i].x3);
      var lower := MinReal(b[i].x0, b[i].x3) - b[i].x2;
      wick := wick[i := upper - lower];
      forall k: nat | k < i
        ensures PricesAt(Channels(ret1, range, body, gap, wick, []), b, k)
      {
        assert PricesAt(before, b, k);
      }
      i := i + 1;
    }
    var shock := ShockChannel(Volumes(b), w, sqrt);
    d := Channels(ret1, range, body, gap, wick, shock);
    forall k: nat | k < n
      ensures PricesAt(d, b, k)
    {
      assert PricesAt(Channels(ret1, range, body, gap, wick, []), b, k);
    }
  }

  lemma {:induction false} NoShockYet(v: seq<real>, w: nat, sqrt: real -> real)
    ensures forall i :: 0 <= i < |v| && i < w ==> Shock(v, i, w, sqrt) == 0.0
  {
  }

  function Cut(d: Channels, m: nat): Channels
    requires m <= |d.ret1| && m <= |d.range| && m <= |d.body| && m <= |d.gap| && m <= |d.wick| && m <= |d.shock|
  {
    Channels(d.ret1[..m], d.range[..m], d.body[..m], d.gap[..m], d.wick[..m], d.shock[..m])
  }

  /** Derived channels look back only: a prefix of the bars has a prefix of the channels. */
  lemma {:induction false} DerivedCausal(d: Channels, e: Channels, b: seq<Bar>, m: nat, w: nat, sqrt: real -> real)
    requires DerivedFrom(d, b, w, sqrt) && m <= |b| && DerivedFrom(e, b[..m], w, sqrt)
    ensures e == Cut(d, m)
  {
    hide Shock, PricesAt;
    forall i: nat | i < m
      ensures PricesAt(e, b[..m], i) && PricesAt(d, b, i) && e.shock[i] == d.shock[i]
    {
      ShockCausal(Volumes(b[..m]), Volumes(b), i, w, sqrt);
    }
    forall i: nat | i < m
      ensures e.ret1[i] == d.ret1[i] && e.range[i] == d.range[i] && e.body[i] == d.body[i]
      ensures e.gap[i] == d.gap[i] && e.wick[i] == d.wick[i]
    {
      PricesCausal(d, e, b, m, i);
    }
    SameColumns(e, d, m);
  }

  lemma {:induction false} PricesCausal(d: Channels, e: Channels, b: seq<Bar>, m: nat, i: nat)
    requires i < m <= |b| && PricesAt(d, b, i) && PricesAt(e, b[..m], i)
    ensures e.ret1[i] == d.ret1[i] && e.range[i] == d.range[i] && e.body[i] == d.body[i]
    ensures e.gap[i] == d.gap[i] && e.wick[i] == d.wick[i]
  {
  }

  lemma {:induction false} SameColumns(e: Channels, d: Channels, m: nat)
    requires SameLength(d, |d.ret1|) && m <= |d.ret1| && SameLength(e, m)
    requires forall i: nat :: i < m ==> e.ret1[i] == d.ret1[i]
    requires forall i: nat :: i < m ==> e.range[i] == d.range[i]
    requires forall i: nat :: i < m ==> e.body[i] == d.body[i]
    requires forall i: nat :: i < m ==> e.gap[i] == d.gap[i]
    requires forall i: nat :: i < m ==> e.wick[i] == d.wick[i]
    requires forall i: nat :: i < m ==> e.shock[i] == d.shock[i]
    ensures e == Cut(d, m)
  {
    assert e.ret1 == d.ret1[..m];
    assert e.range == d.range[..m];
    assert e.body == d.body[..m];
    assert e.gap == d.gap[..m];
    assert e.wick == d.wick[..m];
    assert e.shock == d.shock[..m];
  }

  lemma {:induction false} ShockCausal(u: seq<real>, v: seq<real>, i: nat, w: nat, sqrt: real -> real)
    requires i < |u| <= |v| && u == v[..|u|]
    ensures Shock(u, i, w, sqrt) == Shock(v, i, w, sqrt)
  {
    hide Window;
    WindowPrefix(u, v, i, w);
  }

  // ---------------------------------------------------------------- event components

  /** `packet_component`: the excess over sigma in units of sigma, never negative. */
  function Component(deviation: real, sigma: real): real {
    if sigma <= 0.0 then 0.0
    else if Abs(deviation) <= sigma then 0.0
    else (Abs(deviation) - sigma) / sigma
  }

  function Positive(x: real): real {
    MaxReal(0.0, x)
  }

  predicate SameLength(d: Channels, n: nat) {
    |d.ret1| == |d.range| == |d.body| == |d.gap| == |d.wick| == |d.shock| == n
  }

  function BodyFlip(d: Channels, i: nat): bool
    requires i < |d.body|
  {
    i > 0 && d.body[i - 1] * d.body[i] < 0.0
  }

  function Compression(d: Channels, i: nat, w: nat, sigma: real, sqrt: real -> real): real
    requires i < |d.range|
  {
    var win := Window(d.range, i, w);
    var m := Mean(win);
    var s := Deviation(win, m, sqrt);
    if i > 0 && s > 0.0 && d.range[i - 1] < m - sigma * s && d.range[i] > m + sigma * s then 1.0 else 0.0
  }

  function Drift(d: Channels, i: nat, w: nat, sigma: real, sqrt: real -> real): real
    requires i < |d.ret1|
  {
    var win := Window(d.ret1, i, w);
    var m := Mean(win);
    var s := Deviation(win, m, sqrt);
    if s > 0.0 && Abs(m) > sigma * s then Positive(Abs(m) / MaxReal(0.000000000001, s)) else 0.0
  }

  function Exhaustion(d: Channels, i: nat, w: nat, sigma: real, sqrt: real -> real): real
    requires i < |d.ret1|
  {
    var m := Mean(Window(d.ret1, i, w));
    var z := Score(d.ret1, i, w, sqrt);
    if i > 0 && d.ret1[i] * m < 0.0 && Abs(z) > sigma then Positive(Component(z, sigma)) else 0.0
  }

  /** The eight event components of bar i. */
  function Raw(d: Channels, i: nat, cfg: Config, sqrt: real -> real): (r: seq<real>)
    requires SameLength(d, |d.ret1|) && i < |d.ret1|
    ensures |r| == 8
  {
    var w := WindowOf(cfg);
    [Positive(Component(Score(d.gap, i, w, sqrt), cfg.gapSigma)),
     Positive(Component(Score(d.range, i, w, sqrt), cfg.rangeSigma)),
     if BodyFlip(d, i) then Positive(Component(Score(d.body, i, w, sqrt), cfg.bodySigma)) else 0.0,
     Positive(Component(d.shock[i], cfg.volumeSigma)),
     Positive(Component(Score(d.wick, i, w, sqrt), cfg.wickSigma)),
     Compression(d, i, w, cfg.compressionSigma, sqrt),
     Drift(d, i, w, cfg.driftSigma, sqrt),
     Exhaustion(d, i, w, cfg.exhaustionSigma, sqrt)]
  }

  method EventComponents(d: Channels, i: nat, cfg: Config, sqrt: real -> real) returns (raw: seq<real>)
    requires SameLength(d, |d.ret1|) && i < |d.ret1|
    ensures raw == Raw(d, i, cfg, sqrt)
  {
    hide Window, Mean, Deviation, Component, Abs, Positive, Compression, Drift, Score, BodyFlip;
    var w := WindowOf(cfg);
    var devGap := NormalizedDeviation(d.gap, i, w, sqrt);
    var devRange := NormalizedDeviation(d.range, i, w, sqrt);
    var devBody := NormalizedDeviation(d.body, i, w, sqrt);
    var devWick := NormalizedDeviation(d.wick, i, w, sqrt);
    var devRet := NormalizedDeviation(d.ret1, i, w, sqrt);
    var inversion := if BodyFlip(d, i) then Positive(Component(devBody, cfg.bodySigma)) else 0.0;
    var compression := CompressionBreak(d, i, w, cfg.compressionSigma, sqrt);
    var driftMean, drift := PersistentDrift(d, i, w, cfg.driftSigma, sqrt);
    var exhausted := false;
    if i > 0 {
      exhausted := d.ret1[i] * driftMean < 0.0 && Abs(devRet) > cfg.exhaustionSigma;
    }
    raw := [Positive(Component(devGap, cfg.gapSigma)), Positive(Component(devRange, cfg.rangeSigma)), inversion,
            Positive(Component(d.shock[i], cfg.volumeSigma)), Positive(Component(devWick, cfg.wickSigma)),
            compression, drift, if exhausted then Positive(Component(devRet, cfg.exhaustionSigma)) else 0.0];
  }

  method CompressionBreak(d: Channels, i: nat, w: nat, sigma: real, sqrt: real -> real) returns (r: real)
    requires i < |d.range|
    ensures r == Compression(d, i, w, sigma, sqrt)
  {
    hide Window, Mean, Deviation;
    var m := MeanPrev(d.range, i, w);
    var s := StdPrev(d.range, i, w, m, sqrt);
    var broke := false;
    if i > 0 && s > 0.0 {
      broke := d.range[i - 1] < m - sigma * s && d.range[i] > m + sigma * s;
    }
    r := if broke then 1.0 else 0.0;
  }

  method PersistentDrift(d: Channels, i: nat, w: nat, sigma: real, sqrt: real -> real) returns (m: real, r: real)
    requires i < |d.ret1|
    ensures m == Mean(Window(d.ret1, i, w)) && r == Drift(d, i, w, sigma, sqrt)
  {
    hide Window, Mean, Deviation, Positive;
    m := MeanPrev(d.ret1, i, w);
    var s := StdPrev(d.ret1, i, w, m, sqrt);
    r := if s > 0.0 && Abs(m) > sigma * s then Positive(Abs(m) / MaxReal(0.000000000001, s)) else 0.0;
  }

  lemma {:induction false} ScoreCausal(u: seq<real>, v: seq<real>, i: nat, w: nat, sqrt: real -> real)
    requires i < |u| <= |v| && u == v[..|u|]
    ensures Window(u, i, w) == Window(v, i, w) && Score(u, i, w, sqrt) == Score(v, i, w, sqrt)
  {
    hide Window, Mean, Deviation;
    WindowPrefix(u, v, i, w);
    assert u[i] == v[i];
  }

  lemma {:induction false} RawCausal(d: Channels, m: nat, i: nat, cfg: Config, sqrt: real -> real)
    requires SameLength(d, |d.ret1|) && i < m <= |d.ret1|
    ensures SameLength(Cut(d, m), m)
    ensures Raw(Cut(d, m), i, cfg, sqrt) == Raw(d, i, cfg, sqrt)
  {
    hide Window, Mean, Deviation, Component, Score, Abs, Positive;
    var e, w := Cut(d, m), WindowOf(cfg);
    ScoreCausal(e.gap, d.gap, i, w, sqrt);
    ScoreCausal(e.range, d.range, i, w, sqrt);
    ScoreCausal(e.body, d.body, i, w, sqrt);
    ScoreCausal(e.wick, d.wick, i, w, sqrt);
    ScoreCausal(e.ret1, d.ret1, i, w, sqrt);
  }

  // ---------------------------------------------------------------- packet vectors

  /** Component k of bars 0..n-1. */
  function RawColumn(d: Channels, k: nat, n: nat, cfg: Config, sqrt: real -> real): (c: seq<real>)
    requires SameLength(d, |d.ret1|) && k < 8 && n <= |d.ret1|
    ensures |c| == n
  {
    seq(n, j requires 0 <= j < n => Raw(d, j, cfg, sqrt)[k])
  }

  /** Entry k of the vector at bar i: the component in units of its own recent spread, capped
      at twenty and weighted. */
  function Entry(d: Channels, i: nat, k: nat, cfg: Config, sqrt: real -> real): real
    requires SameLength(d, |d.ret1|) && i < |d.ret1| && k < 8 && ValidConfig(cfg)
  {
    var mad := Mad(Window(RawColumn(d, k, i, cfg, sqrt), i, WindowOf(cfg)), i);
    cfg.weights[k] * MinReal(20.0, Raw(d, i, cfg, sqrt)[k] / (cfg.madEps + mad))
  }

  function VectorAt(d: Channels, i: nat, cfg: Config, sqrt: real -> real): (v: seq<real>)
    requires SameLength(d, |d.ret1|) && i < |d.ret1| && ValidConfig(cfg)
    ensures |v| == 8 && forall k :: 0 <= k < 8 ==> v[k] == Entry(d, i, k, cfg, sqrt)
  {
    seq(8, k requires 0 <= k < 8 => Entry(d, i, k, cfg, sqrt))
  }

  function Difference(a: seq<real>, b: seq<real>): (c: seq<real>)
    requires |a| == |b|
    ensures |c| == |a| && forall k :: 0 <= k < |a| ==> c[k] == a[k] - b[k]
  {
    seq(|a|, k requires 0 <= k < |a| => a[k] - b[k])
  }

  function Norm(a: seq<real>, sqrt: real -> real): real {
    sqrt(Total(Squares(a, 0.0)))
  }

  /** `l2_norm`, and through the difference `l2_distance`. */
  method L2Norm(a: seq<real>, sqrt: real -> real) returns (r: real)
    ensures r == Norm(a, sqrt)
  {
    hide Total, Squared;
    TotalNone();
    ghost var sq := Squares(a, 0.0);
    var acc := 0.0;
    var k := 0;
    while k < |a|
      invariant 0 <= k <= |a| && acc == Total(sq[..k])
    {
      TotalNext(sq, k);
      assert a[k] - 0.0 == a[k];
      acc := acc + Squared(a[k]);
      k := k + 1;
    }
    assert sq[..k] == sq;
    r := sqrt(acc);
  }

  function TransitionAt(d: Channels, i: nat, cfg: Config, sqrt: real -> real): real
    requires SameLength(d, |d.ret1|) && i < |d.ret1| && ValidConfig(cfg)
  {
    if i > 0 then Norm(Difference(VectorAt(d, i, cfg, sqrt), VectorAt(d, i - 1, cfg, sqrt)), sqrt) else 0.0
  }

  function ScoreOf(d: Channels, i: nat, joint: real): real
    requires i < |d.ret1| && i < |d.body|
  {
    (if d.ret1[i] + d.body[i] >= 0.0 then 1.0 else -1.0) * joint
  }

  datatype EventPacket = EventPacket(index: nat, components: seq<real>, joint: real)

  function PacketAt(d: Channels, i: nat, cfg: Config, sqrt: real -> real): EventPacket
    requires SameLength(d, |d.ret1|) && i < |d.ret1| && ValidConfig(cfg)
  {
    EventPacket(i, Raw(d, i, cfg, sqrt), Norm(VectorAt(d, i, cfg, sqrt), sqrt))
  }

  datatype Build = Build(packets: seq<EventPacket>, scores: seq<real>, distances: seq<real>, points: seq<int>)

  ghost predicate BuildOf(out: Build, d: Channels, cfg: Config, sqrt: real -> real)
    requires SameLength(d, |d.ret1|) && ValidConfig(cfg)
  {
    && |out.packets| == |out.scores| == |out.distances| == |d.ret1|
    && (forall i :: 0 <= i < |d.ret1| ==>
          && out.packets[i] == PacketAt(d, i, cfg, sqrt)
          && out.scores[i] == ScoreOf(d, i, out.packets[i].joint)
          && out.distances[i] == TransitionAt(d, i, cfg, sqrt))
    && out.points == After(out.distances, |d.ret1|, cfg.gate).points
  }

  /** The outcome for the bars b: that of their derived channels. */
  ghost predicate Sectorized(out: Build, b: seq<Bar>, cfg: Config, sqrt: real -> real)
    requires ValidConfig(cfg)
  {
    exists d :: DerivedFrom(d, b, WindowOf(cfg), sqrt) && SameLength(d, |d.ret1|) && BuildOf(out, d, cfg, sqrt)
  }

  method PacketVector(hist: seq<seq<real>>, raw: seq<real>, i: nat, cfg: Config, ghost d: Channels, sqrt: real -> real)
    returns (v: seq<real>)
    requires ValidConfig(cfg) && SameLength(d, |d.ret1|) && i < |d.ret1| && raw == Raw(d, i, cfg, sqrt)
    requires |hist| == 8
    requires forall k :: 0 <= k < 8 ==> |hist[k]| == |d.ret1| && hist[k][..i] == RawColumn(d, k, i, cfg, sqrt)
    ensures v == VectorAt(d, i, cfg, sqrt)
  {
    hide Window, Mad, Raw, RawColumn;
    var w := WindowOf(cfg);
    v := [];
    var k := 0;
    while k < 8
      invariant 0 <= k <= 8 && |v| == k
      invariant forall j :: 0 <= j < k ==> v[j] == Entry(d, i, j, cfg, sqrt)
    {
      var mad := MadPrev(hist[k], i, w);
      WindowPrefix(hist[k][..i], hist[k], i, w);
      var normalized := raw[k] / (cfg.madEps + mad);
      v := v + [cfg.weights[k] * MinReal(20.0, normalized)];
      k := k + 1;
    }
    assert v == VectorAt(d, i, cfg, sqrt);
  }

  /** Bar i's components are written into the eight histories. */
  method Record(hist: seq<seq<real>>, raw: seq<real>, i: nat, cfg: Config, ghost d: Channels, sqrt: real -> real)
    returns (out: seq<seq<real>>)
    requires SameLength(d, |d.ret1|) && i < |d.ret1| && raw == Raw(d, i, cfg, sqrt) && |hist| == 8
    requires forall k :: 0 <= k < 8 ==> |hist[k]| == |d.ret1| && hist[k][..i] == RawColumn(d, k, i, cfg, sqrt)
    ensures |out| == 8
    ensures forall k :: 0 <= k < 8 ==>
      |out[k]| == |d.ret1| && out[k][..i] == hist[k][..i] && out[k][..i + 1] == RawColumn(d, k, i + 1, cfg, sqrt)
  {
    hide Raw;
    out := hist;
    var k := 0;
    while k < 8
      invariant 0 <= k <= 8 && |out| == 8
      invariant forall j :: k <= j < 8 ==> out[j] == hist[j]
      invariant forall j :: 0 <= j < k ==>
        |out[j]| == |d.ret1| && out[j][..i] == hist[j][..i] && out[j][..i + 1] == RawColumn(d, j, i + 1, cfg, sqrt)
    {
      var column := hist[k][i := raw[k]];
      ColumnGrows(hist[k], column, d, k, i, cfg, sqrt);
      out := out[k := column];
      k := k + 1;
    }
  }

  lemma {:induction false} ColumnGrows(h: seq<real>, column: seq<real>, d: Channels, k: nat, i: nat, cfg: Config,
                                       sqrt: real -> real)
    requires SameLength(d, |d.ret1|) && i < |d.ret1| == |h| && k < 8
    requires h[..i] == RawColumn(d, k, i, cfg, sqrt) && column == h[i := Raw(d, i, cfg, sqrt)[k]]
    ensures column[..i] == h[..i] && column[..i + 1] == RawColumn(d, k, i + 1, cfg, sqrt)
  {
    hide Raw;
    var c := RawColumn(d, k, i + 1, cfg, sqrt);
    forall j | 0 <= j <= i
      ensures column[j] == c[j]
    {
      if j < i {
        assert h[..i][j] == RawColumn(d, k, i, cfg, sqrt)[j];
      }
    }
  }

  /** `build_event_packets`. */
  method BuildEventPackets(b: seq<Bar>, cfg: Config, sqrt: real -> real) returns (out: Build)
    requires ValidConfig(cfg)
    ensures Sectorized(out, b, cfg, sqrt)
  {
    hide DerivedFrom, Raw, Entry, Norm, After, Step;
    var w := WindowOf(cfg);
    var d := DerivedChannels(b, w, sqrt);
    DerivedLength(d, b, w, sqrt);
    var n := |b|;
    var packets, scores, distances := [], [], [];
    var hist := seq(8, k => Zeros(n));
    var prev := Zeros(8);
    var gate := Start(cfg.gate);
    var i := 0;
    AfterStart(cfg.gate);
    while i < n
      invariant 0 <= i <= n && |packets| == |scores| == |distances| == i && |hist| == 8
      invariant forall k :: 0 <= k < 8 ==> |hist[k]| == n && hist[k][..i] == RawColumn(d, k, i, cfg, sqrt)
      invariant forall j :: 0 <= j < i ==>
        packets[j] == PacketAt(d, j, cfg, sqrt) && scores[j] == ScoreOf(d, j, packets[j].joint)
      invariant forall j :: 0 <= j < i ==> distances[j] == TransitionAt(d, j, cfg, sqrt)
      invariant |prev| == 8 && (i > 0 ==> prev == VectorAt(d, i - 1, cfg, sqrt))
      invariant gate == After(distances, i, cfg.gate)
    {
      var raw := EventComponents(d, i, cfg, sqrt);
      hist := Record(hist, raw, i, cfg, d, sqrt);
      var vec := PacketVector(hist, raw, i, cfg, d, sqrt);
      var joint := L2Norm(vec, sqrt);
      var transition := 0.0;
      if i > 0 {
        transition := L2Norm(Difference(vec, prev), sqrt);
      }
      ghost var before := distances;
      distances := distances + [transition];
      prev := vec;
      scores := scores + [ScoreOf(d, i, joint)];
      AfterNext(before, distances, i, cfg.gate);
      if i > 0 {
        gate := Step(gate, i, transition, cfg.gate);
      }
      packets := packets + [EventPacket(i, raw, joint)];
      i := i + 1;
    }
    out := Build(packets, scores, distances, gate.points);
    assert BuildOf(out, d, cfg, sqrt);
  }

  lemma {:induction false} DerivedLength(d: Channels, b: seq<Bar>, w: nat, sqrt: real -> real)
    requires DerivedFrom(d, b, w, sqrt)
    ensures SameLength(d, |b|) && |d.ret1| == |b|
  {
  }

  lemma {:induction false} AfterStart(gate: GateConfig)
    ensures After([], 0, gate) == Start(gate)
  {
  }

  lemma {:induction false} AfterNext(before: seq<real>, distances: seq<real>, i: nat, gate: GateConfig)
    requires |before| == i && |distances| == i + 1 && before == distances[..i]
    ensures After(distances, i + 1, gate)
         == if i > 0 then Step(After(before, i, gate), i, distances[i], gate) else After(before, i, gate)
  {
    if i > 0 {
      GateAgrees(before, distances, i, gate);
    }
  }

  // ---------------------------------------------------------------- causality

  lemma {:induction false} VectorCausal(d: Channels, m: nat, i: nat, cfg: Config, sqrt: real -> real)
    requires SameLength(d, |d.ret1|) && i < m <= |d.ret1| && ValidConfig(cfg)
    ensures SameLength(Cut(d, m), m)
    ensures VectorAt(Cut(d, m), i, cfg, sqrt) == VectorAt(d, i, cfg, sqrt)
  {
    hide Raw, Window, Mad;
    var e := Cut(d, m);
    RawCausal(d, m, i, cfg, sqrt);
    forall k | 0 <= k < 8
      ensures Entry(e, i, k, cfg, sqrt) == Entry(d, i, k, cfg, sqrt)
    {
      forall j | 0 <= j < i
        ensures Raw(e, j, cfg, sqrt)[k] == Raw(d, j, cfg, sqrt)[k]
      {
        RawCausal(d, m, j, cfg, sqrt);
      }
      assert RawColumn(e, k, i, cfg, sqrt) == RawColumn(d, k, i, cfg, sqrt);
    }
    assert VectorAt(e, i, cfg, sqrt) == VectorAt(d, i, cfg, sqrt);
  }

  lemma {:induction false} BarCausal(d: Channels, m: nat, i: nat, cfg: Config, sqrt: real -> real)
    requires SameLength(d, |d.ret1|) && i < m <= |d.ret1| && ValidConfig(cfg)
    ensures SameLength(Cut(d, m), m)
    ensures PacketAt(Cut(d, m), i, cfg, sqrt) == PacketAt(d, i, cfg, sqrt)
    ensures TransitionAt(Cut(d, m), i, cfg, sqrt) == TransitionAt(d, i, cfg, sqrt)
    ensures forall joint :: ScoreOf(Cut(d, m), i, joint) == ScoreOf(d, i, joint)
  {
    hide Raw, VectorAt, Norm;
    RawCausal(d, m, i, cfg, sqrt);
    VectorCausal(d, m, i, cfg, sqrt);
    if i > 0 {
      VectorCausal(d, m, i - 1, cfg, sqrt);
    }
  }

  /** Main result, causality: run on any prefix of the bars, the sectorizer produces exactly
      the prefix of the packets, scores and distances, and the change points lying in it. */
  lemma {:induction false} SectorizerCausal(b: seq<Bar>, m: nat, cfg: Config, sqrt: real -> real, whole: Build,
                                            part: Build)
    requires m <= |b| && ValidConfig(cfg)
    requires Sectorized(whole, b, cfg, sqrt) && Sectorized(part, b[..m], cfg, sqrt)
    ensures |whole.packets| == |whole.scores| == |whole.distances| == |b|
    ensures part.packets == whole.packets[..m]
    ensures part.scores == whole.scores[..m]
    ensures part.distances == whole.distances[..m]
    ensures part.points <= whole.points
    ensures forall c :: c in part.points <==> c in whole.points && c < m
  {
    hide PacketAt, TransitionAt, ScoreOf, DerivedFrom, After;
    var w := WindowOf(cfg);
    var d :| DerivedFrom(d, b, w, sqrt) && SameLength(d, |d.ret1|) && BuildOf(whole, d, cfg, sqrt);
    var e :| DerivedFrom(e, b[..m], w, sqrt) && SameLength(e, |e.ret1|) && BuildOf(part, e, cfg, sqrt);
    DerivedLength(d, b, w, sqrt);
    DerivedLength(e, b[..m], w, sqrt);
    DerivedCausal(d, e, b, m, w, sqrt);
    forall i: nat | i < m
      ensures part.packets[i] == whole.packets[i]
      ensures part.scores[i] == whole.scores[i] && part.distances[i] == whole.distances[i]
    {
      BarCausal(d, m, i, cfg, sqrt);
    }
    assert part.distances == whole.distances[..m];
    GateCausal(whole.distances, m, |b|, cfg.gate);
    PrefixPoints(whole.distances, m, |b|, cfg.gate);
  }

  /** Main result, spacing: the change points of every run increase, are at least the
      configured separation and persistence apart, and each ends a run of that many
      over-threshold distances. */
  lemma {:induction false} SectorizerSpacing(b: seq<Bar>, cfg: Config, sqrt: real -> real, out: Build)
    requires ValidConfig(cfg) && Sectorized(out, b, cfg, sqrt)
    ensures GoodPoints(out.points, out.distances, |b|, cfg.gate)
  {
    hide PacketAt, TransitionAt, ScoreOf, DerivedFrom, After, GoodPoints;
    var d :| DerivedFrom(d, b, WindowOf(cfg), sqrt) && SameLength(d, |d.ret1|) && BuildOf(out, d, cfg, sqrt);
    DerivedLength(d, b, WindowOf(cfg), sqrt);
    RunProperties(out.distances, |b|, cfg.gate);
  }
}
