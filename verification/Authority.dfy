/** The authority gate (src/engine/pipeline.cpp): every clause of an anchor's verdict computed
    from the artifacts, and what the verdict then means.  The clauses about the transported
    trajectory and the start-up self tests come in as flags. */
module Authority {
  import opened ComplexField
  import opened MultiIndex
  import opened JetLattice
  import opened Extractors
  import opened Elimination
  import opened Spectral
  import opened RecurrenceEngine
  import opened Anchor
  import opened FutureSection
  import opened Evolution
  import opened Sector
  import Sectorizer

  datatype EngineConfig = EngineConfig(torus: TorusConfig, sectorizer: Sectorizer.Config, singleSector: bool,
                                       allowSynthetic: bool, nPhi: int, nPi: int, lMax: nat, H: nat, window: int,
                                       tolRank: real, tolEvolution: real, tolClosure: real)

  datatype Artifacts = Artifacts(t: int, extracted: Extracted, jet: Jet, jetFromTorus: bool, events: Sectorizer.Build,
                                 piecewise: Piecewise, section: Section, u: seq<Complex>, recurrence: Pipeline,
                                 uPast: seq<Complex>, evolution: Carriers, evolutionOk: bool)

  /** fields and moves: the transported fields and the price path are not trivial; pde and
      recurrence: the residuals of the trajectory are below tolerance. */
  datatype Transport = Transport(fields: bool, moves: bool, pde: bool, recurrence: bool)

  datatype SelfTest = SelfTest(normalization: bool, projection: bool)

  datatype Clause =
    | AnchorTruncation | CarrierFromPastJet | ExtractionExecuted | NormalizedJetBuilt | NormalizationIdentity
    | SemigroupPath | ResidualEvaluated | LocalValidSector | ContinuousEqualsJet | JetEqualsNewton
    | NewtonEqualsMatrix | FutureSectionResidual | NontrivialFuture | NontrivialInterstice | EventStateNonempty
    | GenuinePacketDynamics | NontrivialClosure | SpectralNonempty | NotConstantIdentity | EmptyStructure
    | PastJetInvalid | MatrixEqualsRational | RationalEqualsSpectral | PdeTransport | IntersticeRecurrence
    | OperatorNormalization | OperatorProjection

  datatype Regime = FiniteClosed | OpenInterstice | Rejected

  datatype Status = Status(certificate: Certificate, residuals: Residuals, failed: seq<Clause>, closureClaimed: bool,
                           closureVerified: bool, torusVerified: bool, intersticeVerified: bool, gpuMode: string,
                           theoremAuthoritative: bool, implementationAuthoritative: bool, regime: Regime,
                           productionReady: bool)

  // ---------------------------------------------------------------- residuals of the artifacts

  /** The extraction and the jet have the shape the normalization identity speaks about. */
  predicate Comparable(e: Extracted, J: Jet) {
    && e.A != [] && J.coeff != [] && e.Q > 0 && e.rho > 0.0 && J.Q == e.Q && J.order == e.order
    && |e.A| >= DenseSize(e.Q, e.order) && |J.coeff| >= DenseSize(e.Q, e.order)
  }

  ghost function Defect(e: Extracted, J: Jet, a: Index): real
    requires Comparable(e, J) && InSimplex(a, e.Q, e.order)
  {
    var n := DenseSize(e.Q, e.order);
    var expected := Mul(Coef(e.A[..n], e.Q, e.order, a), InverseRadius(e.rho, Degree(a)));
    Norm2(Sub(Coef(J.coeff[..n], e.Q, e.order, a), expected))
  }

  /** m is the largest squared defect over the simplex, zero when there is none. */
  ghost predicate LargestDefect(m: real, e: Extracted, J: Jet, listed: seq<Index>)
    requires Comparable(e, J) && forall a :: a in listed ==> InSimplex(a, e.Q, e.order)
  {
    && m >= 0.0
    && (forall a :: a in listed ==> Defect(e, J, a) <= m)
    && (m == 0.0 || exists a :: a in listed && Defect(e, J, a) == m)
  }

  lemma {:induction false} NoDefectYet(e: Extracted, J: Jet)
    requires Comparable(e, J)
    ensures LargestDefect(0.0, e, J, [])
  {
  }

  lemma {:induction false} RaiseDefect(m: real, e: Extracted, J: Jet, listed: seq<Index>, a: Index)
    requires Comparable(e, J) && InSimplex(a, e.Q, e.order) && forall b :: b in listed ==> InSimplex(b, e.Q, e.order)
    requires LargestDefect(m, e, J, listed)
    ensures forall b :: b in listed + [a] ==> InSimplex(b, e.Q, e.order)
    ensures LargestDefect(if Defect(e, J, a) > m then Defect(e, J, a) else m, e, J, listed + [a])
  {
    hide Defect, Comparable, InSimplex;
    if m != 0.0 {
      var b :| b in listed && Defect(e, J, b) == m;
      assert b in listed + [a];
    }
    assert a in listed + [a];
  }

  /** `max_jet_normalization_residual`, squared. */
  method NormalizationResidual(e: Extracted, J: Jet) returns (m: Bound)
    ensures !Comparable(e, J) ==> m == Infinite
    ensures Comparable(e, J) ==> forall a :: a in Simplex(e.Q, e.order) ==> InSimplex(a, e.Q, e.order)
    ensures Comparable(e, J) ==> m.Finite? && LargestDefect(m.value, e, J, Simplex(e.Q, e.order))
  {
    var size := ComputeDenseSize(e.Q, e.order);
    if |e.A| == 0 || |J.coeff| == 0 || e.Q == 0 || e.rho <= 0.0 || J.Q != e.Q || J.order != e.order || |e.A| < size
       || |J.coeff| < size
    {
      return Infinite;
    }
    hide Mul, Norm2, Simplex, InverseRadius, Degree, LargestDefect;
    var layout := MakeLayout(e.Q, e.order);
    var idx := EnumerateMultiIndices(e.Q, e.order);
    forall a | a in idx
      ensures InSimplex(a, e.Q, e.order)
    {
      SimplexMembers(e.Q, e.order, a);
    }
    NoDefectYet(e, J);
    var worst := 0.0;
    var i := 0;
    while i < |idx|
      invariant 0 <= i <= |idx| && LargestDefect(worst, e, J, idx[..i])
    {
      var alpha := idx[i];
      assert alpha in idx;
      FlatInDense(e.Q, e.order, alpha);
      SimplexInBox(e.Q, e.order, alpha);
      var k := Flatten(alpha, layout);
      var defect := Norm2(Sub(J.coeff[k], Mul(e.A[k], InverseRadius(e.rho, Degree(alpha)))));
      assert defect == Defect(e, J, alpha);
      RaiseDefect(worst, e, J, idx[..i], alpha);
      assert idx[..i + 1] == idx[..i] + [alpha];
      worst := if defect > worst then defect else worst;
      i := i + 1;
    }
    assert idx[..i] == idx;
    m := Finite(worst);
  }

  lemma {:induction false} NoDefectAt(e: Extracted, J: Jet, a: Index)
    requires IsNormalized(J, e) && Comparable(e, J) && InSimplex(a, e.Q, e.order)
    ensures Defect(e, J, a) == 0.0
  {
    hide Mul, Coef, InverseRadius, Degree;
    var n := DenseSize(e.Q, e.order);
    assert J.coeff[..n] == J.coeff && e.A[..n] == e.A;
    assert At(J, a) == Mul(Coef(e.A, e.Q, e.order, a), InverseRadius(e.rho, Degree(a)));
  }

  /** A jet normalized from the extraction is within every positive tolerance of it. */
  lemma {:induction false} NormalizedIsWithin(e: Extracted, J: Jet, tol: real)
    requires IsNormalized(J, e) && Comparable(e, J)
    ensures NormalizedWithin(e, J, tol) <==> tol > 0.0
  {
    hide Defect, IsNormalized, Comparable, InSimplex;
    if tol > 0.0 {
      TolerancePositive(tol);
      forall a: Index | InSimplex(a, e.Q, e.order)
        ensures BelowTolerance(Defect(e, J, a), tol)
      {
        NoDefectAt(e, J, a);
      }
    }
  }

  /** Testing the largest defect is testing them all. */
  lemma {:induction false} DefectMeans(m: Bound, e: Extracted, J: Jet, tol: real)
    requires !Comparable(e, J) ==> m == Infinite
    requires Comparable(e, J) ==> forall a :: a in Simplex(e.Q, e.order) ==> InSimplex(a, e.Q, e.order)
    requires Comparable(e, J) ==> m.Finite? && LargestDefect(m.value, e, J, Simplex(e.Q, e.order))
    ensures Below(m, tol) <==> NormalizedWithin(e, J, tol)
  {
    hide Defect, Comparable, InSimplex, Simplex;
    if Comparable(e, J) && tol > 0.0 {
      TolerancePositive(tol);
      forall a: Index | InSimplex(a, e.Q, e.order)
        ensures a in Simplex(e.Q, e.order)
      {
        SimplexMembers(e.Q, e.order, a);
      }
      if NormalizedWithin(e, J, tol) && m.value != 0.0 {
        var a :| a in Simplex(e.Q, e.order) && Defect(e, J, a) == m.value;
        assert BelowTolerance(Defect(e, J, a), tol);
      }
    }
  }

  ghost predicate LargestCarrierGap(m: real, u: seq<Complex>, sec: Section, n: nat)
    requires n <= |u|
  {
    && m >= 0.0
    && (forall k: nat :: k < n ==> Norm2(Sub(u[k], Smooth(sec, k as real))) <= m)
    && (m == 0.0 || exists k: nat :: k < n && Norm2(Sub(u[k], Smooth(sec, k as real))) == m)
  }

  /** `max_carrier_residual`, squared. */
  method CarrierResidual(u: seq<Complex>, sec: Section) returns (m: Bound)
    ensures u == [] ==> m == Infinite
    ensures u != [] ==> m.Finite? && LargestCarrierGap(m.value, u, sec, |u|)
  {
    hide Norm2, Smooth;
    if |u| == 0 {
      return Infinite;
    }
    var worst := 0.0;
    var n := 0;
    while n < |u|
      invariant 0 <= n <= |u| && LargestCarrierGap(worst, u, sec, n)
    {
      var expected := EvaluateSmooth(sec, n as real);
      var gap := Norm2(Sub(u[n], expected));
      worst := if gap > worst then gap else worst;
      n := n + 1;
    }
    m := Finite(worst);
  }

  lemma {:induction false} CarrierMeans(m: Bound, u: seq<Complex>, sec: Section, tol: real)
    requires u == [] ==> m == Infinite
    requires u != [] ==> m.Finite? && LargestCarrierGap(m.value, u, sec, |u|)
    ensures Below(m, tol) <==> CarrierWithin(u, sec, tol)
  {
    hide Norm2, Smooth, Square;
    if u != [] && tol > 0.0 {
      TolerancePositive(tol);
      if CarrierWithin(u, sec, tol) && m.value != 0.0 {
        var k: nat :| k < |u| && Norm2(Sub(u[k], Smooth(sec, k as real))) == m.value;
        assert Close(u[k], Smooth(sec, k as real), tol);
      }
      if Below(m, tol) {
        forall k: nat | k < |u|
          ensures Close(u[k], Smooth(sec, k as real), tol)
        {
          assert Norm2(Sub(u[k], Smooth(sec, k as real))) <= m.value;
        }
      }
    }
  }

  const TRIVIAL := 0.000000000001

  /** Some entry is larger than the triviality bound: `max_abs_complex(v) > 1e-12`. */
  method Nontrivial(v: seq<Complex>) returns (b: bool)
    ensures b <==> exists i :: 0 <= i < |v| && Norm2(v[i]) > Square(TRIVIAL)
  {
    hide Norm2, Square;
    var m := 0.0;
    var i := 0;
    while i < |v|
      invariant 0 <= i <= |v| && m >= 0.0 && forall k :: 0 <= k < i ==> Norm2(v[k]) <= m
      invariant m == 0.0 || exists k :: 0 <= k < i && Norm2(v[k]) == m
    {
      m := if Norm2(v[i]) > m then Norm2(v[i]) else m;
      i := i + 1;
    }
    SquarePositive(TRIVIAL);
    b := m > Square(TRIVIAL);
  }

  // ---------------------------------------------------------------- the clauses

  /** The recurrence is of order one with at most one mode although the events ask for more. */
  predicate TrivialClosure(art: Artifacts) {
    && |art.recurrence.rec| == 1 && |art.recurrence.spectrum.modes| <= 1
    && (art.piecewise.boundaries != [] || |art.events.packets| > 1 || |art.section.sigma| > 0)
  }

  ghost predicate NormalizedWithin(e: Extracted, J: Jet, tol: real) {
    && Comparable(e, J) && tol > 0.0
    && forall a: Index :: InSimplex(a, e.Q, e.order) ==> BelowTolerance(Defect(e, J, a), tol)
  }

  ghost predicate CarrierWithin(u: seq<Complex>, sec: Section, tol: real) {
    u != [] && tol > 0.0 && forall k: nat :: k < |u| ==> Close(u[k], Smooth(sec, k as real), tol)
  }

  ghost predicate IsNontrivial(v: seq<Complex>) {
    exists i :: 0 <= i < |v| && Norm2(v[i]) > Square(TRIVIAL)
  }

  /** Everything the gate looks at. */
  datatype Evidence = Evidence(art: Artifacts, cfg: EngineConfig, certificate: Certificate, residuals: Residuals,
                               transport: Transport, self: SelfTest)

  /** Causality and the phase-torus path. */
  ghost predicate TorusReported(x: Clause, ev: Evidence) {
    var Evidence(art, cfg, _, _, _, _) := ev;
    match x
    case AnchorTruncation => art.t < 0
    case CarrierFromPastJet => !CarrierWithin(art.u, art.section, cfg.tolEvolution)
    case ExtractionExecuted => art.extracted.A == [] || art.extracted.Q == 0 || art.extracted.rho <= 0.0
    case NormalizedJetBuilt =>
      !art.jetFromTorus || art.jet.coeff == [] || art.jet.Q != art.extracted.Q || art.jet.order != art.extracted.order
    case NormalizationIdentity => !NormalizedWithin(art.extracted, art.jet, cfg.tolEvolution)
    case SemigroupPath => !art.evolution.fromJet
    case ResidualEvaluated => !art.evolution.onTorus
    case _ => false
  }

  /** The certified sector and the gaps on it. */
  ghost predicate SectorReported(x: Clause, ev: Evidence) {
    var Evidence(_, cfg, certificate, res, _, _) := ev;
    match x
    case LocalValidSector => !certificate.verified
    case ContinuousEqualsJet => !Below(res.cj, cfg.tolEvolution)
    case JetEqualsNewton => !Below(res.jn, cfg.tolEvolution)
    case NewtonEqualsMatrix => !Below(res.nm, cfg.tolEvolution)
    case FutureSectionResidual => !Below(res.cj, cfg.tolEvolution)
    case _ => false
  }

  /** The fields and the event state. */
  ghost predicate EventReported(x: Clause, ev: Evidence) {
    var Evidence(art, _, _, _, tr, _) := ev;
    match x
    case NontrivialFuture => !IsNontrivial(art.evolution.continuous)
    case NontrivialInterstice => !tr.fields || !tr.moves
    case EventStateNonempty => art.piecewise.boundaries == [] && !art.piecewise.singleSector
    case GenuinePacketDynamics =>
      !art.piecewise.singleSector &&
      !(art.piecewise.genuine && art.piecewise.boundaries != [] && art.events.packets != [])
    case NontrivialClosure => TrivialClosure(art)
    case SpectralNonempty => art.evolution.closed && (art.evolution.rational == [] || art.evolution.spectral == [])
    case NotConstantIdentity => !tr.moves
    case EmptyStructure =>
      art.section.smooth != [] && art.section.sigma == [] && art.section.packets == [] && !art.piecewise.singleSector
    case PastJetInvalid => !art.section.valid
    case _ => false
  }

  /** The closing carriers, the trajectory and the self tests. */
  ghost predicate ClosureReported(x: Clause, ev: Evidence) {
    var Evidence(art, cfg, _, res, tr, self) := ev;
    match x
    case MatrixEqualsRational => art.evolution.closed && !Below(res.mr, cfg.tolClosure)
    case RationalEqualsSpectral => art.evolution.closed && !Below(res.rs, cfg.tolClosure)
    case PdeTransport => !tr.pde
    case IntersticeRecurrence => |art.recurrence.rec| > 0 && !tr.recurrence
    case OperatorNormalization => !self.normalization
    case OperatorProjection => !self.projection
    case _ => false
  }

  /** When the gate reports a clause. */
  ghost predicate Reported(x: Clause, ev: Evidence) {
    TorusReported(x, ev) || SectorReported(x, ev) || EventReported(x, ev) || ClosureReported(x, ev)
  }

  /** The place of a clause in the order in which the gate tests them. */
  function Place(x: Clause): nat {
    match x
    case AnchorTruncation => 0
    case CarrierFromPastJet => 1
    case ExtractionExecuted => 2
    case NormalizedJetBuilt => 3
    case NormalizationIdentity => 4
    case SemigroupPath => 5
    case ResidualEvaluated => 6
    case LocalValidSector => 7
    case ContinuousEqualsJet => 8
    case JetEqualsNewton => 9
    case NewtonEqualsMatrix => 10
    case FutureSectionResidual => 11
    case NontrivialFuture => 12
    case NontrivialInterstice => 13
    case EventStateNonempty => 14
    case GenuinePacketDynamics => 15
    case NontrivialClosure => 16
    case SpectralNonempty => 17
    case NotConstantIdentity => 18
    case EmptyStructure => 19
    case PastJetInvalid => 20
    case MatrixEqualsRational => 21
    case RationalEqualsSpectral => 22
    case PdeTransport => 23
    case IntersticeRecurrence => 24
    case OperatorNormalization => 25
    case OperatorProjection => 26
  }

  /** In the gate's order, without repeats, none at place n or later. */
  ghost predicate InOrder(failed: seq<Clause>, n: nat) {
    && (forall i, j :: 0 <= i < j < |failed| ==> Place(failed[i]) < Place(failed[j]))
    && forall i :: 0 <= i < |failed| ==> Place(failed[i]) < n
  }

  /** The clauses tested so far: those at places below n, each listed exactly when reported. */
  ghost predicate ReportedBelow(failed: seq<Clause>, n: nat, ev: Evidence) {
    InOrder(failed, n) && forall x: Clause :: x in failed <==> Place(x) < n && Reported(x, ev)
  }

  /** One test of the gate. */
  method Test(failed: seq<Clause>, x: Clause, ok: bool, ghost ev: Evidence) returns (out: seq<Clause>)
    requires ReportedBelow(failed, Place(x), ev) && (ok <==> !Reported(x, ev))
    ensures ReportedBelow(out, Place(x) + 1, ev)
  {
    hide Reported;
    out := failed;
    if !ok {
      out := failed + [x];
    }
    forall y: Clause
      ensures y in out <==> Place(y) < Place(x) + 1 && Reported(y, ev)
    {
      PlaceInjective(x, y);
    }
  }

  lemma {:induction false} PlaceInjective(x: Clause, y: Clause)
    ensures Place(x) == Place(y) <==> x == y
  {
  }

  // ---------------------------------------------------------------- the gate

  method IdentityHolds(e: Extracted, J: Jet, tol: real) returns (ok: bool)
    ensures ok <==> NormalizedWithin(e, J, tol)
  {
    hide NormalizedWithin, LargestDefect;
    var defect := NormalizationResidual(e, J);
    DefectMeans(defect, e, J, tol);
    ok := Below(defect, tol);
  }

  method CarrierHolds(u: seq<Complex>, sec: Section, tol: real) returns (ok: bool)
    ensures ok <==> CarrierWithin(u, sec, tol)
  {
    hide CarrierWithin, LargestCarrierGap;
    var gap := CarrierResidual(u, sec);
    CarrierMeans(gap, u, sec, tol);
    ok := Below(gap, tol);
  }

  /** No clause of the phase-torus path is reported. */
  ghost predicate TorusSilent(ev: Evidence) {
    && !Reported(ExtractionExecuted, ev) && !Reported(NormalizedJetBuilt, ev) && !Reported(NormalizationIdentity, ev)
    && !Reported(SemigroupPath, ev) && !Reported(ResidualEvaluated, ev)
  }

  /** Causality and the phase-torus path. */
  method TorusClauses(art: Artifacts, cfg: EngineConfig, ghost ev: Evidence)
    returns (failed: seq<Clause>, carrierVerified: bool, torusVerified: bool)
    requires ev.art == art && ev.cfg == cfg
    ensures ReportedBelow(failed, Place(LocalValidSector), ev)
    ensures carrierVerified <==> !Reported(CarrierFromPastJet, ev)
    ensures torusVerified <==> TorusSilent(ev)
  {
    hide ReportedBelow, NormalizedWithin, CarrierWithin;
    var e, J := art.extracted, art.jet;
    var executed := e.A != [] && e.Q > 0 && e.rho > 0.0;
    var built := art.jetFromTorus && J.coeff != [] && J.Q == e.Q && J.order == e.order;
    var identity := IdentityHolds(e, J, cfg.tolEvolution);
    carrierVerified := CarrierHolds(art.u, art.section, cfg.tolEvolution);
    torusVerified := executed && built && identity && art.evolution.fromJet && art.evolution.onTorus;
    NothingReported(ev);
    failed := Test([], AnchorTruncation, art.t >= 0, ev);
    failed := Test(failed, CarrierFromPastJet, carrierVerified, ev);
    failed := Test(failed, ExtractionExecuted, executed, ev);
    failed := Test(failed, NormalizedJetBuilt, built, ev);
    failed := Test(failed, NormalizationIdentity, identity, ev);
    failed := Test(failed, SemigroupPath, art.evolution.fromJet, ev);
    failed := Test(failed, ResidualEvaluated, art.evolution.onTorus, ev);
  }

  lemma {:induction false} NothingReported(ev: Evidence)
    ensures ReportedBelow([], 0, ev)
  {
    hide Reported;
  }

  /** The certified sector and the gaps on it. */
  method SectorClauses(before: seq<Clause>, c: Certificate, res: Residuals, cfg: EngineConfig, ghost ev: Evidence)
    returns (failed: seq<Clause>)
    requires ReportedBelow(before, Place(LocalValidSector), ev)
    requires ev.cfg == cfg && ev.certificate == c && ev.residuals == res
    ensures ReportedBelow(failed, Place(NontrivialFuture), ev)
  {
    hide ReportedBelow, Below;
    failed := Test(before, LocalValidSector, c.verified, ev);
    failed := Test(failed, ContinuousEqualsJet, Below(res.cj, cfg.tolEvolution), ev);
    failed := Test(failed, JetEqualsNewton, Below(res.jn, cfg.tolEvolution), ev);
    failed := Test(failed, NewtonEqualsMatrix, Below(res.nm, cfg.tolEvolution), ev);
    failed := Test(failed, FutureSectionResidual, Below(res.cj, cfg.tolEvolution), ev);
  }

  /** The fields and the events. */
  method EventClauses(before: seq<Clause>, art: Artifacts, tr: Transport, nontrivial: bool, ghost ev: Evidence)
    returns (failed: seq<Clause>)
    requires ReportedBelow(before, Place(NontrivialFuture), ev) && ev.art == art && ev.transport == tr
    requires nontrivial <==> IsNontrivial(art.evolution.continuous)
    ensures ReportedBelow(failed, Place(SpectralNonempty), ev)
  {
    hide ReportedBelow, IsNontrivial, TrivialClosure;
    var p := art.piecewise;
    failed := Test(before, NontrivialFuture, nontrivial, ev);
    failed := Test(failed, NontrivialInterstice, tr.fields && tr.moves, ev);
    failed := Test(failed, EventStateNonempty, p.boundaries != [] || p.singleSector, ev);
    failed := Test(failed, GenuinePacketDynamics,
      p.singleSector || (p.genuine && p.boundaries != [] && art.events.packets != []), ev);
    failed := Test(failed, NontrivialClosure, !TrivialClosure(art), ev);
  }

  /** The structure behind the carriers. */
  method StructureClauses(before: seq<Clause>, art: Artifacts, tr: Transport, ghost ev: Evidence)
    returns (failed: seq<Clause>)
    requires ReportedBelow(before, Place(SpectralNonempty), ev) && ev.art == art && ev.transport == tr
    ensures ReportedBelow(failed, Place(MatrixEqualsRational), ev)
  {
    hide ReportedBelow;
    var p, closed := art.piecewise, art.evolution.closed;
    failed := Test(before, SpectralNonempty,
      !closed || (art.evolution.rational != [] && art.evolution.spectral != []), ev);
    failed := Test(failed, NotConstantIdentity, tr.moves, ev);
    var empty := art.section.smooth != [] && art.section.sigma == [] && art.section.packets == [];
    failed := Test(failed, EmptyStructure, !(empty && !p.singleSector), ev);
    failed := Test(failed, PastJetInvalid, art.section.valid, ev);
  }

  /** The closing carriers. */
  method ClosureClauses(before: seq<Clause>, closed: bool, res: Residuals, cfg: EngineConfig, ghost ev: Evidence)
    returns (failed: seq<Clause>, closureVerified: bool)
    requires ReportedBelow(before, Place(MatrixEqualsRational), ev)
    requires ev.art.evolution.closed == closed && ev.cfg == cfg && ev.residuals == res
    ensures ReportedBelow(failed, Place(PdeTransport), ev)
    ensures closureVerified <==> closed && !Reported(MatrixEqualsRational, ev) && !Reported(RationalEqualsSpectral, ev)
  {
    hide ReportedBelow, Below;
    var matrix, spectral := Below(res.mr, cfg.tolClosure), Below(res.rs, cfg.tolClosure);
    closureVerified := closed && matrix && spectral;
    failed := Test(before, MatrixEqualsRational, !closed || matrix, ev);
    failed := Test(failed, RationalEqualsSpectral, !closed || spectral, ev);
  }

  /** The trajectory and the self tests. */
  method TrajectoryClauses(before: seq<Clause>, r: nat, tr: Transport, self: SelfTest, ghost ev: Evidence)
    returns (failed: seq<Clause>, intersticeVerified: bool)
    requires ReportedBelow(before, Place(PdeTransport), ev)
    requires |ev.art.recurrence.rec| == r && ev.transport == tr && ev.self == self
    ensures ReportedBelow(failed, PLACES, ev)
    ensures intersticeVerified <==> !Reported(PdeTransport, ev) && !Reported(IntersticeRecurrence, ev)
  {
    hide ReportedBelow;
    var recurrenceOk := r == 0 || tr.recurrence;
    intersticeVerified := tr.pde && recurrenceOk;
    failed := Test(before, PdeTransport, tr.pde, ev);
    failed := Test(failed, IntersticeRecurrence, !(r > 0 && !recurrenceOk), ev);
    failed := Test(failed, OperatorNormalization, self.normalization, ev);
    failed := Test(failed, OperatorProjection, self.projection, ev);
  }

  const PLACES: nat := 27

  function EvidenceOf(st: Status, art: Artifacts, cfg: EngineConfig, tr: Transport, self: SelfTest): Evidence {
    Evidence(art, cfg, st.certificate, st.residuals, tr, self)
  }

  /** The verdict of the gate on these artifacts. */
  ghost predicate GateOf(st: Status, art: Artifacts, cfg: EngineConfig, tr: Transport, self: SelfTest) {
    && CertificateOf(st.certificate, art.section, art.evolution, cfg.H, cfg.tolEvolution, cfg.tolClosure)
    && ResidualsOf(st.residuals, art.evolution, st.certificate.validMax)
    && ReportedBelow(st.failed, PLACES, EvidenceOf(st, art, cfg, tr, self))
    && (st.theoremAuthoritative <==> st.failed == [])
    && st.closureClaimed == art.evolution.closed
    && (st.closureVerified <==>
          art.evolution.closed && MatrixEqualsRational !in st.failed && RationalEqualsSpectral !in st.failed)
    && (st.torusVerified <==> TorusSilent(EvidenceOf(st, art, cfg, tr, self)))
    && (st.intersticeVerified <==> PdeTransport !in st.failed && IntersticeRecurrence !in st.failed)
    && st.gpuMode == "cpu_authoritative" && (st.implementationAuthoritative <==> st.gpuMode == "authoritative")
    && st.regime == RegimeOf(art, st.failed == [])
    && (st.productionReady <==> art.evolutionOk && st.failed == [] && st.implementationAuthoritative)
  }

  lemma {:induction false} InOrderOnce(a: seq<Clause>, b: seq<Clause>, n: nat)
    requires InOrder(a, n) && InOrder(b, n) && forall x: Clause :: x in a <==> x in b
    ensures a == b
    decreases |a|
  {
    hide Place, InOrder;
    if a == [] {
      if b != [] {
        FirstMember(b);
      }
    } else {
      assert a[|a| - 1] in b && b[|b| - 1] in a;
      LastIsLargest(a, n, b[|b| - 1]);
      LastIsLargest(b, n, a[|a| - 1]);
      PlaceInjective(a[|a| - 1], b[|b| - 1]);
      var x, y := a[..|a| - 1], b[..|b| - 1];
      InitMembers(a, n, a[0]);
      InitMembers(b, n, b[0]);
      forall c: Clause
        ensures c in x <==> c in y
      {
        InitMembers(a, n, c);
        InitMembers(b, n, c);
      }
      InOrderOnce(x, y, n);
      assert a == x + [a[|a| - 1]] && b == y + [b[|b| - 1]];
    }
  }

  lemma {:induction false} LastIsLargest(a: seq<Clause>, n: nat, c: Clause)
    requires InOrder(a, n) && c in a
    ensures Place(c) <= Place(a[|a| - 1])
  {
    hide Place;
  }

  lemma {:induction false} InitMembers(a: seq<Clause>, n: nat, c: Clause)
    requires InOrder(a, n) && a != []
    ensures c in a[..|a| - 1] <==> c in a && c != a[|a| - 1]
    ensures InOrder(a[..|a| - 1], n)
  {
    hide Place;
    var init, last := a[..|a| - 1], a[|a| - 1];
    assert a == init + [last];
    assert forall i :: 0 <= i < |init| ==> Place(init[i]) < Place(last);
  }

  lemma {:induction false} ReportedOnce(a: seq<Clause>, b: seq<Clause>, ev: Evidence)
    requires ReportedBelow(a, PLACES, ev) && ReportedBelow(b, PLACES, ev)
    ensures a == b
  {
    hide Reported;
    InOrderOnce(a, b, PLACES);
  }

  /** Artifacts, configuration, flags and the two estimates determine the verdict. */
  lemma {:induction false} VerdictOnce(st: Status, su: Status, art: Artifacts, cfg: EngineConfig, tr: Transport,
                                       self: SelfTest)
    requires GateOf(st, art, cfg, tr, self) && GateOf(su, art, cfg, tr, self)
    requires st.certificate.coefficientCap == su.certificate.coefficientCap
    requires st.certificate.conditionCap == su.certificate.conditionCap
    ensures st == su
  {
    hide CertificateOf, ResidualsOf, ReportedBelow, TorusSilent;
    CertificateOnce(st.certificate, su.certificate, art.section, art.evolution, cfg.H, cfg.tolEvolution,
      cfg.tolClosure);
    ResidualsOnce(st.residuals, su.residuals, art.evolution, st.certificate.validMax);
    ReportedOnce(st.failed, su.failed, EvidenceOf(st, art, cfg, tr, self));
  }

  /** What an empty clause list leaves to decide is only whether the regime is closed. */
  function RegimeOf(art: Artifacts, authoritative: bool): Regime {
    if !authoritative then Rejected
    else if art.evolution.closed && |art.recurrence.rec| > 0 && art.recurrence.spectrum.modes != [] then FiniteClosed
    else OpenInterstice
  }

  /** `validate_anchor_authoritativeness`.  Of the long readiness conjunction everything but
      three flags follows from an empty clause list. */
  method ValidateAnchor(art: Artifacts, cfg: EngineConfig, radius: Bound, condition: Bound, tr: Transport,
                        self: SelfTest)
    returns (st: Status)
    ensures GateOf(st, art, cfg, tr, self)
    ensures st.certificate.coefficientCap == CoefficientCap(radius, cfg.H)
    ensures st.certificate.conditionCap == ConditionCap(condition, cfg.H)
  {
    hide CertificateOf, ResidualsOf, ReportedBelow, Reported, TrivialClosure, Below;
    var c := BuildSector(art.section, art.evolution, radius, condition, cfg.H, cfg.tolEvolution, cfg.tolClosure);
    var res := SummarizeResiduals(art.evolution, c.validMax);
    ghost var ev := Evidence(art, cfg, c, res, tr, self);
    var gpuMode := "cpu_authoritative";
    var nontrivial := Nontrivial(art.evolution.continuous);
    var torus, carrierVerified, torusVerified := TorusClauses(art, cfg, ev);
    var sector := SectorClauses(torus, c, res, cfg, ev);
    var events := EventClauses(sector, art, tr, nontrivial, ev);
    var structure := StructureClauses(events, art, tr, ev);
    var closure, closureVerified := ClosureClauses(structure, art.evolution.closed, res, cfg, ev);
    var failed, intersticeVerified := TrajectoryClauses(closure, |art.recurrence.rec|, tr, self, ev);
    AllPlaces(failed, ev);
    var authoritative, implementation := failed == [], gpuMode == "authoritative";
    var regime :=
      if authoritative && |art.recurrence.rec| > 0 && art.evolution.closed && closureVerified
         && art.recurrence.spectrum.modes != []
      then FiniteClosed
      else if authoritative && intersticeVerified && torusVerified && nontrivial then OpenInterstice
      else Rejected;
    var p, closed := art.piecewise, art.evolution.closed;
    var eventState := (p.boundaries != [] || p.singleSector)
      && (p.singleSector || (p.genuine && p.boundaries != [] && art.events.packets != []));
    var carriers := !closed || (art.evolution.rational != [] && art.evolution.spectral != []);
    var ready := art.evolutionOk && authoritative && implementation && (!closed || closureVerified)
      && intersticeVerified && art.t >= 0 && carrierVerified && torusVerified && self.projection && nontrivial
      && tr.fields && tr.moves && eventState && !TrivialClosure(art) && carriers;
    if failed == [] {
      NoneReported(failed, ev);
    }
    st := Status(c, res, failed, art.evolution.closed, closureVerified, torusVerified, intersticeVerified, gpuMode,
                 authoritative, implementation, regime, ready);
  }

  /** With nothing reported every flag behind the readiness conjunction holds. */
  lemma {:induction false} NoneReported(failed: seq<Clause>, ev: Evidence)
    requires failed == [] && forall x: Clause :: x in failed <==> Reported(x, ev)
    ensures ev.art.t >= 0 && ev.self.projection && ev.transport.fields && ev.transport.moves
    ensures IsNontrivial(ev.art.evolution.continuous) && !TrivialClosure(ev.art)
    ensures var p := ev.art.piecewise;
      p.singleSector || (p.genuine && p.boundaries != [] && ev.art.events.packets != [])
    ensures var ee := ev.art.evolution;
      !ee.closed || (ee.rational != [] && ee.spectral != [])
    ensures forall x: Clause :: !Reported(x, ev)
  {
    hide TrivialClosure, IsNontrivial;
    assert forall x: Clause {:trigger Reported(x, ev)} :: !Reported(x, ev);
    assert !Reported(AnchorTruncation, ev) && !Reported(OperatorProjection, ev);
    assert !Reported(NontrivialInterstice, ev) && !Reported(NontrivialFuture, ev);
    assert !Reported(NontrivialClosure, ev) && !Reported(GenuinePacketDynamics, ev);
    assert !Reported(SpectralNonempty, ev);
  }

  lemma {:induction false} AllPlaces(failed: seq<Clause>, ev: Evidence)
    requires ReportedBelow(failed, PLACES, ev)
    ensures forall x: Clause :: x in failed <==> Reported(x, ev)
  {
    hide Reported;
  }

  // ---------------------------------------------------------------- what the verdict means

  /** Main result: in every verdict the certificate alone decides the sector clauses.  The
      equality clauses are listed exactly when no horizon is certified, the closure clauses
      exactly when moreover the regime is closed, and a verified sector lists none of them. */
  lemma {:induction false} SectorClausesExactly(st: Status, art: Artifacts, cfg: EngineConfig, tr: Transport,
                                                self: SelfTest)
    requires GateOf(st, art, cfg, tr, self)
    ensures LocalValidSector in st.failed <==> st.certificate.validMax < 1
    ensures ContinuousEqualsJet in st.failed <==> st.certificate.validMax < 0
    ensures JetEqualsNewton in st.failed <==> st.certificate.validMax < 0
    ensures NewtonEqualsMatrix in st.failed <==> st.certificate.validMax < 0
    ensures FutureSectionResidual in st.failed <==> st.certificate.validMax < 0
    ensures MatrixEqualsRational in st.failed <==> art.evolution.closed && st.certificate.validMax < 0
    ensures RationalEqualsSpectral in st.failed <==> art.evolution.closed && st.certificate.validMax < 0
    ensures st.closureVerified <==> art.evolution.closed && st.certificate.validMax >= 0
  {
    hide Below, LongestPrefix, FirstOnset, Missing, ResidualsOf, Reported;
    ResidualsExactly(st.certificate, art.section, art.evolution, cfg.H, cfg.tolEvolution, cfg.tolClosure, st.residuals);
    AllPlaces(st.failed, EvidenceOf(st, art, cfg, tr, self));
    SectorReports(EvidenceOf(st, art, cfg, tr, self));
  }

  lemma {:induction false} SectorReports(ev: Evidence)
    ensures Reported(LocalValidSector, ev) <==> !ev.certificate.verified
    ensures Reported(ContinuousEqualsJet, ev) <==> !Below(ev.residuals.cj, ev.cfg.tolEvolution)
    ensures Reported(JetEqualsNewton, ev) <==> !Below(ev.residuals.jn, ev.cfg.tolEvolution)
    ensures Reported(NewtonEqualsMatrix, ev) <==> !Below(ev.residuals.nm, ev.cfg.tolEvolution)
    ensures Reported(FutureSectionResidual, ev) <==> !Below(ev.residuals.cj, ev.cfg.tolEvolution)
    ensures Reported(MatrixEqualsRational, ev) <==>
      ev.art.evolution.closed && !Below(ev.residuals.mr, ev.cfg.tolClosure)
    ensures Reported(RationalEqualsSpectral, ev) <==>
      ev.art.evolution.closed && !Below(ev.residuals.rs, ev.cfg.tolClosure)
  {
    hide Below;
  }

  /** A verdict other than rejection is sound: the first two horizons at least are certified
      and all required carriers agree on every certified one. */
  lemma {:induction false} RegimeSound(st: Status, art: Artifacts, cfg: EngineConfig, tr: Transport, self: SelfTest,
                                       h: nat)
    requires GateOf(st, art, cfg, tr, self) && st.regime != Rejected && h <= st.certificate.validMax
    ensures st.failed == [] && st.certificate.validMax >= 1
    ensures Passes(art.evolution, h, cfg.tolEvolution, cfg.tolClosure)
    ensures st.regime == FiniteClosed ==> art.evolution.closed && st.closureVerified
  {
    hide Below, LongestPrefix, FirstOnset, Missing, ResidualsOf, ReportedBelow, Passes, Horizon;
    SectorClausesExactly(st, art, cfg, tr, self);
    StructuralBelowPacket(st.certificate, cfg.H);
    PrefixPasses(st.certificate, art.evolution, cfg.H, cfg.tolEvolution, cfg.tolClosure);
  }

  /** The object for an unanchored grid passes the evolution check, and the gate still fails
      closed: it reports the provenance clauses and an empty future. */
  lemma {:induction false} UnanchoredFailsClosed(st: Status, art: Artifacts, cfg: EngineConfig, tr: Transport,
                                                 self: SelfTest, n: nat)
    requires GateOf(st, art, cfg, tr, self) && art.evolution == Unanchored(n)
    ensures AssertEvolution(art.evolution, cfg.tolEvolution) <==> cfg.tolEvolution > 0.0
    ensures SemigroupPath in st.failed && ResidualEvaluated in st.failed && NontrivialFuture in st.failed
    ensures st.regime == Rejected && !st.productionReady
  {
    hide CertificateOf, ResidualsOf, Reported, AssertEvolution, Unanchored;
    var ev := EvidenceOf(st, art, cfg, tr, self);
    UnanchoredPasses(n, cfg.tolEvolution);
    UnanchoredReported(ev, n);
    AllPlaces(st.failed, ev);
  }

  lemma {:induction false} UnanchoredReported(ev: Evidence, n: nat)
    requires ev.art.evolution == Unanchored(n)
    ensures Reported(SemigroupPath, ev) && Reported(ResidualEvaluated, ev) && Reported(NontrivialFuture, ev)
  {
    hide IsNontrivial, SectorReported, ClosureReported;
    ZerosAreTrivial(Unanchored(n).continuous);
  }

  lemma {:induction false} ZerosAreTrivial(v: seq<Complex>)
    requires forall i :: 0 <= i < |v| ==> v[i] == ZERO
    ensures !IsNontrivial(v)
  {
    hide Square;
    SquarePositive(TRIVIAL);
    SquarePositive(0.0);
    assert Norm2(ZERO) == 0.0 by {
      Norm2Zero(ZERO);
    }
  }

  /** No artifacts at all are production ready: the gate compares the mode name it has just
      written with the name of another mode. */
  lemma {:induction false} NeverProductionReady(st: Status, art: Artifacts, cfg: EngineConfig, tr: Transport,
                                                self: SelfTest)
    requires GateOf(st, art, cfg, tr, self)
    ensures !st.implementationAuthoritative && !st.productionReady
  {
    hide CertificateOf, ResidualsOf, ReportedBelow;
    assert |"cpu_authoritative"| != |"authoritative"|;
  }
}
