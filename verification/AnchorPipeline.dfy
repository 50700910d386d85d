/** One anchor from bars to verdict (src/engine/pipeline.cpp): every stage of `run_anchor` but
    the transported trajectory, on the bars up to the anchor only. */
module AnchorPipeline {
  import opened ComplexField
  import opened Polynomials
  import opened MultiIndex
  import opened PhaseTorus
  import opened JetLattice
  import opened Extractors
  import opened LinearAlgebra
  import R = Recurrence
  import opened Spectral
  import opened RecurrenceEngine
  import opened Anchor
  import opened DiagonalJet
  import opened FutureSection
  import opened PolynomialCarrier
  import opened Evolution
  import opened Sector
  import opened Authority
  import Sectorizer

  /** The five columns of the market state. */
  function Columns(bars: seq<Sectorizer.Bar>): (xs: seq<seq<real>>)
    ensures |xs| == CHANNELS && forall q :: 0 <= q < 5 ==> |xs[q]| == |bars|
  {
    [seq(|bars|, i requires 0 <= i < |bars| => bars[i].x0), seq(|bars|, i requires 0 <= i < |bars| => bars[i].x1),
     seq(|bars|, i requires 0 <= i < |bars| => bars[i].x2), seq(|bars|, i requires 0 <= i < |bars| => bars[i].x3),
     seq(|bars|, i requires 0 <= i < |bars| => bars[i].x4)]
  }

  /** How many samples the recurrence is fitted to. */
  function CarrierCount(cfg: EngineConfig): (n: nat)
    ensures n >= 2
  {
    Max(2, Min(cfg.window, cfg.H + 1))
  }

  /** How many past samples Newton's carrier gets. */
  function PastCount(cfg: EngineConfig, t: nat): (n: nat)
    ensures n >= 2
  {
    Max(2, Min(cfg.window, t + 1))
  }

  function Horizons(H: nat): (grid: seq<nat>)
    ensures |grid| == H + 1 && forall i :: 0 <= i <= H ==> grid[i] == i
  {
    seq(H + 1, i requires i >= 0 => i)
  }

  method SampleSection(sec: Section, n: nat) returns (u: seq<Complex>)
    ensures |u| == n && forall k: nat :: k < n ==> u[k] == AtHorizon(sec.smooth, k)
  {
    hide PolyValue;
    u := [];
    var k := 0;
    while k < n
      invariant 0 <= k <= n && |u| == k
      invariant forall j: nat :: j < k ==> u[j] == AtHorizon(sec.smooth, j)
    {
      var v := EvaluateSmooth(sec, k as real);
      u := u + [v];
      k := k + 1;
    }
  }

  method SamplePast(sec: Section, n: nat) returns (u: seq<Complex>)
    ensures |u| == n && PastOfPolynomial(u, sec.smooth)
  {
    hide PolyValue;
    u := [];
    var k := 0;
    while k < n
      invariant 0 <= k <= n && |u| == k
      invariant forall j: nat :: j < k ==> u[j] == PolyValue(sec.smooth, OfReal(-(j as real)))
    {
      var v := EvaluateSmooth(sec, -(k as real));
      u := u + [v];
      k := k + 1;
    }
  }

  // ---------------------------------------------------------------- the stages

  /** The jet holds the channels' Taylor coefficients, or extraction has thrown. */
  ghost predicate JetStage(J: Jet, view: seq<Sectorizer.Bar>, cfg: TorusConfig, w: Complex)
    requires |view| > 0
  {
    if cfg.rho > 0.0 then
      J.Q == CHANNELS && J.order == OrderMax(|view| - 1, cfg.order) && SupportedJet(J) && J.coeff != [] &&
      (Primitive(w, RingSize(cfg.M)) && J.order < RingSize(cfg.M) ==>
       TaylorJet(J, AnchorGerms(Columns(view), |view|, |view| - 1, J.order)))
    else J == Jet(0, 0, [])
  }

  /** What the gate reads about the way the jet came about. */
  ghost predicate ProvenanceStage(art: Artifacts, view: seq<Sectorizer.Bar>, cfg: EngineConfig, w: Complex)
    requires |view| > 0 && w != ZERO
  {
    var t := |view| - 1;
    && art.t == t && art.jetFromTorus == (art.jet.coeff != [])
    && (if cfg.torus.rho > 0.0
        then IsNormalized(art.jet, art.extracted) &&
             ExtractionOf(art.extracted, Columns(view), |view|, t, cfg.torus, w)
        else art.extracted == NothingExtracted())
    && art.evolution.fromJet == art.evolution.onTorus == (art.jet.coeff != [])
    && PiecewiseOf(art.piecewise, art.events.points, art.events.distances, t, cfg.singleSector, cfg.allowSynthetic)
  }

  ghost predicate SectionStage(sec: Section, J: Jet, x0: seq<real>, t: nat, points: seq<int>, cfg: EngineConfig)
    requires t < |x0|
  {
    && |sec.smooth| == Max(1, cfg.nPhi) && (sec.valid <==> J.coeff != [])
    && (if sec.valid then sec.smooth == SmoothList(J, cfg.nPhi)
        else forall n :: 0 <= n < |sec.smooth| ==> sec.smooth[n] == ZERO)
    && exists bs ::
         LatestBoundaries(bs, points, t, cfg.lMax) && PacketsOf(sec.sigma, sec.packets, bs, x0, t, cfg.nPi, sec.valid)
  }

  ghost predicate CarrierStage(art: Artifacts, t: nat, cfg: EngineConfig, find: R.Rational -> seq<Complex>) {
    && |art.u| == CarrierCount(cfg) && (forall n: nat :: n < |art.u| ==> art.u[n] == AtHorizon(art.section.smooth, n))
    && (art.recurrence == NoPipeline() ||
        (R.Detected(art.u, cfg.window, cfg.tolRank, |art.recurrence.rec|) &&
         Built(art.recurrence, art.u, find, cfg.tolRank)))
    && (art.recurrence == NoPipeline() ==> MayFail(art.u, cfg.window, find, cfg.tolRank))
    && EngineOutcome(art.recurrence, art.u, cfg.window, cfg.tolRank, find)
    && |art.uPast| == PastCount(cfg, t) && PastOfPolynomial(art.uPast, art.section.smooth)
  }

  ghost predicate EvolutionStage(art: Artifacts, cfg: EngineConfig) {
    && PipelineShape(art.recurrence)
    && FirstFour(art.evolution, art.section.smooth, art.jet, art.recurrence, art.uPast, Horizons(cfg.H))
    && LastTwo(art.evolution, art.recurrence, Horizons(cfg.H)) && GapsOf(art.evolution)
    && (art.evolutionOk <==> AssertEvolution(art.evolution, cfg.tolEvolution))
  }

  ghost predicate Stages(art: Artifacts, view: seq<Sectorizer.Bar>, cfg: EngineConfig, w: Complex,
                         find: R.Rational -> seq<Complex>, sqrt: real -> real)
    requires |view| > 0 && Sectorizer.ValidConfig(cfg.sectorizer) && w != ZERO
  {
    && Sectorizer.Sectorized(art.events, view, cfg.sectorizer, sqrt)
    && JetStage(art.jet, view, cfg.torus, w)
    && ProvenanceStage(art, view, cfg, w)
    && SectionStage(art.section, art.jet, Columns(view)[0], |view| - 1, art.piecewise.boundaries, cfg)
    && CarrierStage(art, |view| - 1, cfg, find)
    && EvolutionStage(art, cfg)
  }

  /** The configuration, a root of unity, and what stands for code that is not modelled. */
  datatype Setting = Setting(cfg: EngineConfig, w: Complex, find: R.Rational -> seq<Complex>, sqrt: real -> real,
                             radius: Section -> Bound, condition: Pipeline -> Bound,
                             transport: Pipeline -> Transport, self: SelfTest)

  /** art and st are what one run of the anchor pipeline leaves on the bars of view. */
  ghost predicate Outcome(art: Artifacts, st: Status, view: seq<Sectorizer.Bar>, x: Setting) {
    && |view| > 0 && Sectorizer.ValidConfig(x.cfg.sectorizer) && x.w != ZERO
    && Stages(art, view, x.cfg, x.w, x.find, x.sqrt)
    && GateOf(st, art, x.cfg, x.transport(art.recurrence), x.self)
    && st.certificate.coefficientCap == CoefficientCap(x.radius(art.section), x.cfg.H)
    && st.certificate.conditionCap == ConditionCap(x.condition(art.recurrence), x.cfg.H)
  }

  /** `run_anchor`: only bars 0..t are read. */
  method RunAnchor(bars: seq<Sectorizer.Bar>, t: nat, x: Setting) returns (art: Artifacts, st: Status)
    requires t < |bars| && x.w != ZERO && Sectorizer.ValidConfig(x.cfg.sectorizer)
    ensures Outcome(art, st, bars[..t + 1], x)
  {
    var Setting(cfg, w, find, sqrt, radius, condition, transport, self) := x;
    hide Sectorizer.Sectorized, TaylorJet, SupportedJet, Primitive, AnchorGerms, LatestBoundaries, PacketsOf, SmoothAt,
         R.Detected, Built, MayFail, PastOfPolynomial, FirstFour, LastTwo, GapsOf, AssertEvolution, AtHorizon,
         PipelineShape, Dense, GateOf, IsNormalized, PiecewiseOf, ExtractionOf, EngineOutcome, CoefficientCap,
         ConditionCap;
    var view := bars[..t + 1];
    var xs := Columns(view);
    var events := Sectorizer.BuildEventPackets(view, cfg.sectorizer, sqrt);
    var piecewise := BuildPiecewise(events.points, events.distances, t, cfg.singleSector, cfg.allowSynthetic);
    var result, extracted := AnchorJet(xs, t + 1, t, cfg.torus, w);
    var jet := if result.Ok? then result.value else Jet(0, 0, []);
    if result.Ok? {
      SupportedNotEmpty(jet);
    }
    var section := BuildPast(jet, xs[0], piecewise.boundaries, t, cfg.nPhi, cfg.nPi, cfg.lMax);
    if section.valid {
      SameSmooth(section.smooth, jet, cfg.nPhi);
    }
    var u := SampleSection(section, CarrierCount(cfg));
    var recurrence := BuildRecurrencePipeline(u, cfg.window, cfg.tolRank, find);
    EngineShape(recurrence, u, find, cfg.tolRank);
    var uPast := SamplePast(section, PastCount(cfg, t));
    var evolution, _ := ComputeEvolution(section, jet, recurrence, uPast, Horizons(cfg.H));
    var ok := AssertEvolution(evolution, cfg.tolEvolution);
    art := Artifacts(t, extracted, jet, jet.coeff != [], events, piecewise, section, u, recurrence, uPast, evolution,
      ok);
    assert JetStage(art.jet, view, cfg.torus, w);
    assert SectionStage(art.section, art.jet, xs[0], t, piecewise.boundaries, cfg);
    assert ProvenanceStage(art, view, cfg, w);
    st := ValidateAnchor(art, cfg, radius(section), condition(recurrence), transport(recurrence), self);
  }

  lemma {:induction false} SupportedNotEmpty(J: Jet)
    requires SupportedJet(J)
    ensures Dense(J) && J.coeff != []
  {
    hide Volume;
    DensePositive(J);
  }

  lemma {:induction false} SameSmooth(A: seq<Complex>, J: Jet, nPhi: int)
    requires |A| == Max(1, nPhi) && forall n: nat :: n < |A| ==> A[n] == SmoothAt(J, nPhi, n)
    ensures A == SmoothList(J, nPhi)
  {
    hide SmoothAt;
  }

  /** Main result, soundness at every anchor, with no condition on the bars: wherever the
      certificate reaches, the carriers agree within tolerance, no packet is active and the
      full section is the smooth one. */
  lemma {:induction false} AnchorSectorSound(art: Artifacts, st: Status, view: seq<Sectorizer.Bar>, x: Setting, h: nat)
    requires Outcome(art, st, view, x) && h <= st.certificate.validMax
    ensures WellShaped(art.section) && Passes(art.evolution, h, x.cfg.tolEvolution, x.cfg.tolClosure)
    ensures NoPacketActive(art.section, h as real) && Full(art.section, h as real) == Smooth(art.section, h as real)
  {
    hide Sectorizer.Sectorized, JetStage, ProvenanceStage, CarrierStage, EvolutionStage, LatestBoundaries,
         CertificateOf, ResidualsOf, ReportedBelow, Passes, NoPacketActive, Full, Smooth;
    var x0, t, points := Columns(view)[0], |view| - 1, art.piecewise.boundaries;
    var bs :|
      LatestBoundaries(bs, points, t, x.cfg.lMax) &&
      PacketsOf(art.section.sigma, art.section.packets, bs, x0, t, x.cfg.nPi, art.section.valid);
    OnsetsIncrease(art.section, bs, points, x0, t, x.cfg.nPi, x.cfg.lMax);
    SectorSound(st.certificate, art.section, art.evolution, x.cfg.H, x.cfg.tolEvolution, x.cfg.tolClosure, h);
  }

  // ---------------------------------------------------------------- causality

  lemma {:induction false} SectionOnce(a: Section, b: Section, J: Jet, x0: seq<real>, t: nat, points: seq<int>,
                                       cfg: EngineConfig)
    requires t < |x0| && SectionStage(a, J, x0, t, points, cfg) && SectionStage(b, J, x0, t, points, cfg)
    ensures a == b
  {
    hide LatestBoundaries, PacketsOf, SmoothList;
    var bs :| LatestBoundaries(bs, points, t, cfg.lMax) && PacketsOf(a.sigma, a.packets, bs, x0, t, cfg.nPi, a.valid);
    var cs :| LatestBoundaries(cs, points, t, cfg.lMax) && PacketsOf(b.sigma, b.packets, cs, x0, t, cfg.nPi, b.valid);
    LatestOnce(bs, cs, points, t, cfg.lMax);
    PacketsOnce(a.sigma, a.packets, b.sigma, b.packets, bs, x0, t, cfg.nPi, a.valid);
    assert a.smooth == b.smooth;
  }

  lemma {:induction false} EventsOnce(a: Sectorizer.Build, b: Sectorizer.Build, view: seq<Sectorizer.Bar>,
                                      cfg: Sectorizer.Config, sqrt: real -> real)
    requires Sectorizer.ValidConfig(cfg)
    requires Sectorizer.Sectorized(a, view, cfg, sqrt) && Sectorizer.Sectorized(b, view, cfg, sqrt)
    ensures a == b
  {
    hide Sectorizer.DerivedFrom, Sectorizer.PacketAt, Sectorizer.TransitionAt, Sectorizer.ScoreOf, Sectorizer.Raw;
    var w := Sectorizer.WindowOf(cfg);
    var d :|
      Sectorizer.DerivedFrom(d, view, w, sqrt) && Sectorizer.SameLength(d, |d.ret1|) &&
      Sectorizer.BuildOf(a, d, cfg, sqrt);
    var e :|
      Sectorizer.DerivedFrom(e, view, w, sqrt) && Sectorizer.SameLength(e, |e.ret1|) &&
      Sectorizer.BuildOf(b, e, cfg, sqrt);
    ChannelsOnce(d, e, view, w, sqrt);
    assert a.packets == b.packets && a.scores == b.scores && a.distances == b.distances;
  }

  lemma {:induction false} ChannelsOnce(d: Sectorizer.Channels, e: Sectorizer.Channels, view: seq<Sectorizer.Bar>,
                                        w: nat, sqrt: real -> real)
    requires Sectorizer.DerivedFrom(d, view, w, sqrt) && Sectorizer.DerivedFrom(e, view, w, sqrt)
    ensures d == e
  {
    hide Sectorizer.Shock, Sectorizer.Wick;
    forall i: nat | i < |view|
      ensures d.ret1[i] == e.ret1[i] && d.range[i] == e.range[i] && d.body[i] == e.body[i]
      ensures d.gap[i] == e.gap[i] && d.wick[i] == e.wick[i] && d.shock[i] == e.shock[i]
    {
      assert Sectorizer.PricesAt(d, view, i) && Sectorizer.PricesAt(e, view, i);
    }
    assert d.ret1 == e.ret1 && d.range == e.range && d.body == e.body;
    assert d.gap == e.gap && d.wick == e.wick && d.shock == e.shock;
  }

  /** The artifacts of two runs on the same bars agree up to the section. */
  lemma {:induction false} SourceOnce(a: Artifacts, b: Artifacts, view: seq<Sectorizer.Bar>, cfg: EngineConfig,
                                      w: Complex, find: R.Rational -> seq<Complex>, sqrt: real -> real)
    requires |view| > 0 && Sectorizer.ValidConfig(cfg.sectorizer) && w != ZERO
    requires Stages(a, view, cfg, w, find, sqrt) && Stages(b, view, cfg, w, find, sqrt)
    ensures a.t == b.t && a.events == b.events && a.extracted == b.extracted && a.jet == b.jet
    ensures a.jetFromTorus == b.jetFromTorus && a.piecewise == b.piecewise && a.section == b.section
  {
    hide Sectorizer.Sectorized, TaylorJet, SupportedJet, Primitive, AnchorGerms, SectionStage, CarrierStage,
         EvolutionStage, ExtractionOf, IsNormalized, PiecewiseOf;
    var t := |view| - 1;
    EventsOnce(a.events, b.events, view, cfg.sectorizer, sqrt);
    PiecewiseOnce(a.piecewise, b.piecewise, a.events.points, a.events.distances, t, cfg.singleSector,
      cfg.allowSynthetic);
    if cfg.torus.rho > 0.0 {
      ExtractionOnce(a.extracted, b.extracted, Columns(view), |view|, t, cfg.torus, w);
      NormalizedOnce(a.jet, b.jet, a.extracted);
    }
    SectionOnce(a.section, b.section, a.jet, Columns(view)[0], t, a.piecewise.boundaries, cfg);
  }

  lemma {:induction false} SamplesOnce(a: Artifacts, b: Artifacts, t: nat, cfg: EngineConfig,
                                       find: R.Rational -> seq<Complex>)
    requires CarrierStage(a, t, cfg, find) && CarrierStage(b, t, cfg, find) && a.section == b.section
    ensures a.u == b.u && a.uPast == b.uPast && a.recurrence == b.recurrence
  {
    hide R.Detected, Built, MayFail, EngineOutcome, AtHorizon, PolyValue;
    assert a.u == b.u && a.uPast == b.uPast;
    EngineOnce(a.recurrence, b.recurrence, a.u, cfg.window, cfg.tolRank, find);
  }

  /** Main result, causality of a whole anchor: everything the pipeline leaves behind, verdict
      included, is determined by the bars up to the anchor. */
  lemma {:induction false} AnchorCausal(bars: seq<Sectorizer.Bar>, others: seq<Sectorizer.Bar>, t: nat, x: Setting,
                                        art: Artifacts, st: Status, art': Artifacts, st': Status)
    requires t < |bars| && t < |others| && forall i :: 0 <= i <= t ==> bars[i] == others[i]
    requires Outcome(art, st, bars[..t + 1], x) && Outcome(art', st', others[..t + 1], x)
    ensures art == art' && st == st'
  {
    hide Stages, GateOf, CoefficientCap, ConditionCap;
    var view := bars[..t + 1];
    assert others[..t + 1] == view;
    ArtifactsOnce(art, art', view, x.cfg, x.w, x.find, x.sqrt);
    VerdictOnce(st, st', art, x.cfg, x.transport(art.recurrence), x.self);
  }

  lemma {:induction false} ArtifactsOnce(a: Artifacts, b: Artifacts, view: seq<Sectorizer.Bar>, cfg: EngineConfig,
                                         w: Complex, find: R.Rational -> seq<Complex>, sqrt: real -> real)
    requires |view| > 0 && Sectorizer.ValidConfig(cfg.sectorizer) && w != ZERO
    requires Stages(a, view, cfg, w, find, sqrt) && Stages(b, view, cfg, w, find, sqrt)
    ensures a == b
  {
    hide Sectorizer.Sectorized, JetStage, SectionStage, CarrierStage, FirstFour, LastTwo, GapsOf, AssertEvolution,
         PipelineShape, ExtractionOf, IsNormalized, PiecewiseOf;
    SourceOnce(a, b, view, cfg, w, find, sqrt);
    SamplesOnce(a, b, |view| - 1, cfg, find);
    ShapeParts(a.recurrence);
    CarriersOnce(a.evolution, b.evolution, a.section.smooth, a.jet, a.recurrence, a.uPast, Horizons(cfg.H));
  }

  // ---------------------------------------------------------------- the clauses of a run

  /** The clauses about how the artifacts were built, for every run: they depend on the radius
      and the tolerance alone, never on the bars. */
  lemma {:induction false} ConstructionClauses(art: Artifacts, st: Status, view: seq<Sectorizer.Bar>, x: Setting)
    requires Outcome(art, st, view, x)
    ensures AnchorTruncation !in st.failed && SpectralNonempty !in st.failed
    ensures CarrierFromPastJet in st.failed <==> x.cfg.tolEvolution <= 0.0
    ensures NormalizationIdentity in st.failed <==> x.cfg.torus.rho <= 0.0 || x.cfg.tolEvolution <= 0.0
    ensures ExtractionExecuted in st.failed <==> x.cfg.torus.rho <= 0.0
    ensures NormalizedJetBuilt in st.failed <==> x.cfg.torus.rho <= 0.0
    ensures SemigroupPath in st.failed <==> x.cfg.torus.rho <= 0.0
    ensures ResidualEvaluated in st.failed <==> x.cfg.torus.rho <= 0.0
    ensures PastJetInvalid in st.failed <==> x.cfg.torus.rho <= 0.0
  {
    hide Sectorizer.Sectorized, ReportedBelow, CertificateOf, ResidualsOf, Reported, FirstFour, GapsOf, AssertEvolution,
         AtHorizon, PacketsOf, LatestBoundaries, CarrierWithin, IsNormalized, PiecewiseOf, TaylorJet, SupportedJet,
         NormalizedWithin, PipelineShape, Primitive, SmoothList, R.Detected, Built, MayFail, PastOfPolynomial, LastTwo;
    var ev := EvidenceOf(st, art, x.cfg, x.transport(art.recurrence), x.self);
    AllPlaces(st.failed, ev);
    ConstructionReports(ev);
    CarrierIsItsSection(art, |view| - 1, x.cfg, x.find);
    BothSpectral(art.evolution, art.recurrence, Horizons(x.cfg.H));
    if x.cfg.torus.rho > 0.0 {
      NormalizedShape(art.jet, art.extracted);
      NormalizedIsWithin(art.extracted, art.jet, x.cfg.tolEvolution);
    } else {
      NothingIsWithin(art.extracted, art.jet, x.cfg.tolEvolution);
    }
  }

  lemma {:induction false} ConstructionReports(ev: Evidence)
    ensures Reported(AnchorTruncation, ev) <==> ev.art.t < 0
    ensures Reported(CarrierFromPastJet, ev) <==> !CarrierWithin(ev.art.u, ev.art.section, ev.cfg.tolEvolution)
    ensures var e := ev.art.extracted;
      Reported(ExtractionExecuted, ev) <==> e.A == [] || e.Q == 0 || e.rho <= 0.0
    ensures var e, J := ev.art.extracted, ev.art.jet;
      Reported(NormalizedJetBuilt, ev) <==> !ev.art.jetFromTorus || J.coeff == [] || J.Q != e.Q || J.order != e.order
    ensures Reported(NormalizationIdentity, ev) <==>
      !NormalizedWithin(ev.art.extracted, ev.art.jet, ev.cfg.tolEvolution)
    ensures Reported(SemigroupPath, ev) <==> !ev.art.evolution.fromJet
    ensures Reported(ResidualEvaluated, ev) <==> !ev.art.evolution.onTorus
    ensures Reported(PastJetInvalid, ev) <==> !ev.art.section.valid
    ensures var ee := ev.art.evolution;
      Reported(SpectralNonempty, ev) <==> ee.closed && (ee.rational == [] || ee.spectral == [])
  {
    hide CarrierWithin, NormalizedWithin;
  }

  lemma {:induction false} CarrierIsItsSection(art: Artifacts, t: nat, cfg: EngineConfig,
                                               find: R.Rational -> seq<Complex>)
    requires CarrierStage(art, t, cfg, find)
    ensures CarrierWithin(art.u, art.section, cfg.tolEvolution) <==> cfg.tolEvolution > 0.0
  {
    hide R.Detected, Built, MayFail, PastOfPolynomial, PolyValue, Close;
    if cfg.tolEvolution > 0.0 {
      forall k: nat | k < |art.u|
        ensures Close(art.u[k], Smooth(art.section, k as real), cfg.tolEvolution)
      {
        assert art.u[k] == AtHorizon(art.section.smooth, k);
        CloseToItself(art.u[k], cfg.tolEvolution);
      }
    }
  }

  lemma {:induction false} BothSpectral(ee: Carriers, rp: Pipeline, grid: seq<nat>)
    requires LastTwo(ee, rp, grid) && grid != []
    ensures ee.closed ==> ee.rational != [] && ee.spectral != []
  {
    hide R.Series, SpectrumSequence;
  }

  lemma {:induction false} NormalizedShape(J: Jet, e: Extracted)
    requires IsNormalized(J, e) && J.Q > 0
    ensures Comparable(e, J) && e.A != [] && e.Q == J.Q && e.order == J.order && e.rho > 0.0
  {
    hide Volume, Mul, Degree;
    DensePositive(J);
  }

  lemma {:induction false} NothingIsWithin(e: Extracted, J: Jet, tol: real)
    requires e == NothingExtracted()
    ensures !NormalizedWithin(e, J, tol)
  {
    hide Volume;
  }

  /** The event clauses of every run.  A synthetic boundary can silence the first of them but
      never the second, which asks for a detected change point up to the anchor. */
  lemma {:induction false} EventClausesExactly(art: Artifacts, st: Status, view: seq<Sectorizer.Bar>, x: Setting)
    requires Outcome(art, st, view, x)
    ensures EventStateNonempty in st.failed <==>
      && !x.cfg.singleSector && !Inside(art.events.points, |view| - 1)
      && (!x.cfg.allowSynthetic || Quiet(art.events.distances, |view| - 1))
    ensures GenuinePacketDynamics in st.failed <==> !x.cfg.singleSector && !Inside(art.events.points, |view| - 1)
    ensures EmptyStructure in st.failed <==>
      !x.cfg.singleSector && (x.cfg.lMax == 0 || art.piecewise.boundaries == [])
    ensures NontrivialClosure in st.failed <==>
      && |art.recurrence.rec| == 1 && |art.recurrence.spectrum.modes| <= 1
      && (|view| > 1 || art.piecewise.boundaries != [])
  {
    hide Sectorizer.Sectorized, ReportedBelow, CertificateOf, ResidualsOf, Reported, JetStage, SectionStage,
         CarrierStage, EvolutionStage, IsNormalized, Inside, Quiet, PiecewiseOf;
    var ev := EvidenceOf(st, art, x.cfg, x.transport(art.recurrence), x.self);
    var t := |view| - 1;
    AllPlaces(st.failed, ev);
    EventReports(ev);
    PiecewiseBoundaries(art.piecewise, art.events.points, art.events.distances, t, x.cfg.singleSector,
      x.cfg.allowSynthetic);
    PacketCount(art.events, view, x.cfg.sectorizer, x.sqrt);
    SectionEvents(art.section, art.jet, Columns(view)[0], t, art.piecewise.boundaries, x.cfg);
  }

  lemma {:induction false} EventReports(ev: Evidence)
    ensures var p := ev.art.piecewise;
      && (Reported(EventStateNonempty, ev) <==> p.boundaries == [] && !p.singleSector)
      && (Reported(GenuinePacketDynamics, ev) <==>
            !p.singleSector && !(p.genuine && p.boundaries != [] && ev.art.events.packets != []))
    ensures Reported(NontrivialClosure, ev) <==> TrivialClosure(ev.art)
    ensures var sec := ev.art.section;
      Reported(EmptyStructure, ev) <==>
        sec.smooth != [] && sec.sigma == [] && sec.packets == [] && !ev.art.piecewise.singleSector
  {
    hide TrivialClosure;
  }

  /** Where the boundaries come from, and that all of them lie at or before the anchor. */
  lemma {:induction false} PiecewiseBoundaries(p: Piecewise, points: seq<int>, distances: seq<real>, t: nat,
                                               singleSector: bool, allowSynthetic: bool)
    requires PiecewiseOf(p, points, distances, t, singleSector, allowSynthetic)
    ensures p.singleSector == singleSector && (p.genuine <==> Inside(points, t))
    ensures p.boundaries == [] <==>
      !Inside(points, t) && (singleSector || !allowSynthetic || Quiet(distances, t))
    ensures forall b :: b in p.boundaries ==> 0 <= b <= t
  {
    if Inside(points, t) {
      var b :| b in points && 0 <= b <= t;
      assert b in p.boundaries;
    }
  }

  lemma {:induction false} PacketCount(events: Sectorizer.Build, view: seq<Sectorizer.Bar>, cfg: Sectorizer.Config,
                                       sqrt: real -> real)
    requires Sectorizer.ValidConfig(cfg) && Sectorizer.Sectorized(events, view, cfg, sqrt)
    ensures |events.packets| == |view|
  {
    hide Sectorizer.DerivedFrom;
    var d :|
      Sectorizer.DerivedFrom(d, view, Sectorizer.WindowOf(cfg), sqrt) && Sectorizer.SameLength(d, |d.ret1|) &&
      Sectorizer.BuildOf(events, d, cfg, sqrt);
    Sectorizer.DerivedLength(d, view, Sectorizer.WindowOf(cfg), sqrt);
  }

  lemma {:induction false} SectionEvents(sec: Section, J: Jet, x0: seq<real>, t: nat, points: seq<int>,
                                         cfg: EngineConfig)
    requires t < |x0| && SectionStage(sec, J, x0, t, points, cfg) && forall b :: b in points ==> 0 <= b <= t
    ensures |sec.smooth| > 0 && |sec.packets| == |sec.sigma|
    ensures sec.sigma == [] <==> cfg.lMax == 0 || points == []
  {
    hide PacketIs, SmoothList;
    var bs :|
      LatestBoundaries(bs, points, t, cfg.lMax) && PacketsOf(sec.sigma, sec.packets, bs, x0, t, cfg.nPi, sec.valid);
    BoundariesLeft(bs, points, t, cfg.lMax);
    assert |sec.sigma| == |bs|;
  }

  lemma {:induction false} BoundariesLeft(bs: seq<int>, points: seq<int>, t: nat, lMax: nat)
    requires LatestBoundaries(bs, points, t, lMax) && forall b :: b in points ==> 0 <= b <= t
    ensures |bs| == 0 <==> lMax == 0 || points == []
  {
    if points != [] && |bs| == 0 {
      var b := points[0];
      assert b in points && b !in bs && 0 <= b <= t;
    }
    if |bs| > 0 {
      assert bs[0] in points;
    }
  }

  /** The regime of a run: rejection exactly when some clause is listed, and otherwise only
      the carriers decide. */
  lemma {:induction false} RegimeExactly(art: Artifacts, st: Status, view: seq<Sectorizer.Bar>, x: Setting)
    requires Outcome(art, st, view, x)
    ensures st.regime
         == if st.failed != [] then Rejected else if art.evolution.closed then FiniteClosed else OpenInterstice
  {
    hide Sectorizer.Sectorized, ReportedBelow, CertificateOf, ResidualsOf, JetStage, SectionStage, CarrierStage,
         ProvenanceStage, FirstFour, GapsOf, AssertEvolution, PipelineShape, R.Series, SpectrumSequence;
  }

  // ---------------------------------------------------------------- what a good anchor yields

  /** For an anchor jet the condition of the evolution identity is that the other channels
      cancel, degree by degree. */
  lemma {:induction false} AnchorMatches(J: Jet, coeffs: seq<seq<Complex>>, nPhi: int)
    requires TaylorJet(J, coeffs) && J.Q > 0
    ensures Dense(J)
    ensures JetMatches(J, SmoothList(J, nPhi), nPhi) <==>
      forall n: nat :: n <= J.order ==> ChannelsCancel(coeffs, nPhi, n)
  {
    hide TaylorJet, ChannelsCancel, DegreeSums, SmoothAt, SmoothList, ContinuousIsJet;
    AnchorContinuousIsJet(J, coeffs, nPhi);
    ContinuousIsJetExactly(J, nPhi);
  }

  /** The recovery conditions at this anchor, for a section of degree d - 1. */
  ghost predicate Recoverable(art: Artifacts, cfg: EngineConfig, d: nat, find: R.Rational -> seq<Complex>) {
    && 1 <= d <= cfg.window && 2 * d <= |art.u| && d <= |art.uPast|
    && DegreeBelow(art.section.smooth, d) && SampleAt(art.section.smooth, d - 1) != ZERO
    && (forall m: nat :: 2 <= m < d ==> !Singular(R.Hankel(art.u, m)))
    && cfg.tolRank == 0.0 && FindsOnes(find, art.u, d)
  }

  /** The root finder is exact on the one denominator (1 - z)^d. */
  ghost predicate FindsOnes(find: R.Rational -> seq<Complex>, u: seq<Complex>, d: nat)
    requires d <= |u|
  {
    forall rm: R.Rational :: R.FromRecurrence(rm, BinomialRecurrence(d), u[..d]) ==> find(rm) == Ones(d)
  }

  /** Main result, end to end: when the other channels cancel and the samples are recoverable,
      the engine cannot fail, all six carriers are one polynomial on the whole horizon grid,
      the evolution check passes, the certificate reaches as far as its structural caps, and
      the closure is verified as soon as those allow one horizon. */
  lemma {:induction false} AnchorCertified(art: Artifacts, st: Status, view: seq<Sectorizer.Bar>, x: Setting, d: nat)
    requires Outcome(art, st, view, x)
    requires x.cfg.torus.rho > 0.0 && Primitive(x.w, RingSize(x.cfg.torus.M)) && art.jet.order < RingSize(x.cfg.torus.M)
    requires var coeffs := AnchorGerms(Columns(view), |view|, |view| - 1, art.jet.order);
      forall n: nat :: n <= art.jet.order ==> ChannelsCancel(coeffs, x.cfg.nPhi, n)
    requires Recoverable(art, x.cfg, d, x.find) && x.cfg.tolEvolution > 0.0 && x.cfg.tolClosure > 0.0
    ensures AllEqual(art.evolution, Horizons(x.cfg.H), art.section.smooth) && art.evolutionOk
    ensures st.certificate.residualCap == x.cfg.H && st.certificate.validMax == st.certificate.structuralCap
    ensures st.closureVerified <==> st.certificate.structuralCap >= 0
  {
    hide Sectorizer.Sectorized, TaylorJet, SupportedJet, Primitive, AnchorGerms, LatestBoundaries, PacketsOf,
         R.Detected, Built, MayFail, PastOfPolynomial, FirstFour, GapsOf, CertificateOf, AssertEvolution, AtHorizon,
         PipelineShape, Dense, ChannelsCancel, JetMatches, AllEqual, EngineOnPolynomial, DegreeBelow, R.Hankel,
         Singular, SmoothList, GateOf, ProvenanceStage, LastTwo, IsNormalized, Recoverable;
    var cfg := x.cfg;
    RecoverablePast(art, cfg, d, x.find);
    AnchorMatches(art.jet, AnchorGerms(Columns(view), |view|, |view| - 1, art.jet.order), cfg.nPhi);
    EngineRan(art, |view| - 1, cfg, d, x.find);
    EvolutionIdentity(art.evolution, art.section, art.jet, art.recurrence, art.uPast, Horizons(cfg.H), art.u, d,
      cfg.window, x.find, cfg.nPhi, cfg.tolEvolution);
    ClosedRun(art, d, cfg, x.find);
    CertificateIn(st, art, cfg, x.transport(art.recurrence), x.self);
    FullyCertified(st.certificate, art.section, art.evolution, cfg.H, cfg.tolEvolution, cfg.tolClosure,
      art.section.smooth);
    SectorClausesExactly(st, art, cfg, x.transport(art.recurrence), x.self);
  }

  lemma {:induction false} RecoverablePast(art: Artifacts, cfg: EngineConfig, d: nat, find: R.Rational -> seq<Complex>)
    requires Recoverable(art, cfg, d, find)
    ensures |art.uPast| >= d
  {
    hide R.Hankel, Singular, DegreeBelow;
  }

  lemma {:induction false} ClosedRun(art: Artifacts, d: nat, cfg: EngineConfig, find: R.Rational -> seq<Complex>)
    requires EngineOnPolynomial(art.recurrence, art.u, art.section.smooth, d, cfg.window, find)
    requires LastTwo(art.evolution, art.recurrence, Horizons(cfg.H))
    ensures art.evolution.closed
  {
    hide EngineOnPolynomial, R.Series, SpectrumSequence;
    EngineCloses(art.recurrence, art.u, art.section.smooth, d, cfg.window, find);
  }

  lemma {:induction false} CertificateIn(st: Status, art: Artifacts, cfg: EngineConfig, tr: Transport, self: SelfTest)
    requires GateOf(st, art, cfg, tr, self)
    ensures CertificateOf(st.certificate, art.section, art.evolution, cfg.H, cfg.tolEvolution, cfg.tolClosure)
  {
    hide CertificateOf, ResidualsOf, ReportedBelow;
  }

  lemma {:induction false} EngineRan(art: Artifacts, t: nat, cfg: EngineConfig, d: nat,
                                     find: R.Rational -> seq<Complex>)
    requires CarrierStage(art, t, cfg, find) && Recoverable(art, cfg, d, find)
    ensures EngineOnPolynomial(art.recurrence, art.u, art.section.smooth, d, cfg.window, find)
  {
    hide R.Detected, PastOfPolynomial, AtHorizon, R.Hankel, Singular, DegreeBelow, R.Obeys, EngineOutcome;
    var s, c := HorizonSamples(art.section.smooth), BinomialRecurrence(d);
    forall n: nat
      ensures R.Obeys(s, c, n)
    {
      PolynomialObeys(art.section.smooth, d, n);
    }
    forall n: nat | n < |art.u|
      ensures art.u[n] == s(n)
    {
      assert art.u[n] == AtHorizon(art.section.smooth, n);
    }
    SamplesObey(s, art.u, c);
    HankelOfPolynomial(art.u, art.section.smooth, d);
    forall rm: R.Rational | R.FromRecurrence(rm, c, art.u[..d])
      ensures FindsRoots(find, rm, 0.0)
    {
      OnesAreExact(rm, art.u[..d], d);
    }
    RecoveryDoesNotFail(art.u, c, cfg.window, find);
    assert R.Detected(art.u, cfg.window, 0.0, |art.recurrence.rec|) && Built(art.recurrence, art.u, find, 0.0);
    R.Recovery(art.u, c, cfg.window, |art.recurrence.rec|, art.recurrence.rec);
  }

  /** Equal carriers pass everywhere, so only the structural caps remain. */
  lemma {:induction false} FullyCertified(c: Certificate, sec: Section, ee: Carriers, H: nat, tolEvolution: real,
                                          tolClosure: real, a: seq<Complex>)
    requires CertificateOf(c, sec, ee, H, tolEvolution, tolClosure) && AllEqual(ee, Horizons(H), a)
    requires tolEvolution > 0.0 && tolClosure > 0.0
    ensures c.residualCap == H && c.validMax == c.structuralCap
  {
    hide AtHorizon, Close, FirstOnset;
    forall h: nat | h <= H
      ensures Passes(ee, h, tolEvolution, tolClosure)
    {
      CloseToItself(ee.continuous[h], tolEvolution);
      CloseToItself(ee.continuous[h], tolClosure);
    }
    assert !Missing(ee) && Horizon(ee, H) == H;
  }
}
