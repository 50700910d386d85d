/** The comparison of the carriers (src/engine/trajectorizer_engine.cpp): every carrier is
    evaluated on one horizon grid and the largest gaps between neighbours are recorded.
    Gaps are squared moduli; horizons are whole numbers, as the pipeline builds them. */
module Evolution {
  import opened ComplexField
  import opened MultiIndex
  import opened Polynomials
  import opened JetLattice
  import opened JetSemigroup
  import opened LinearAlgebra
  import opened Elimination
  import opened NewtonGregory
  import R = Recurrence
  import opened Modes
  import opened Spectral
  import opened RecurrenceEngine
  import opened Anchor
  import opened DiagonalJet
  import opened FutureSection
  import opened PolynomialCarrier
  import opened Reals

  datatype Carriers = Carriers(continuous: seq<Complex>, jet: seq<Complex>, newton: seq<Complex>,
                               matrix: seq<Complex>, rational: seq<Complex>, spectral: seq<Complex>,
                               closed: bool, fromJet: bool, onTorus: bool,
                               gapCJ: real, gapJN: real, gapNM: real, gapMR: real, gapRS: real, gapMax: real)

  // ---------------------------------------------------------------- gaps

  function Gap(a: seq<Complex>, b: seq<Complex>, i: nat): real
    requires i < |a| && i < |b|
  {
    Norm2(Sub(a[i], b[i]))
  }

  function Common(a: seq<Complex>, b: seq<Complex>): nat {
    if |a| < |b| then |a| else |b|
  }

  /** m is the largest gap over the common length, zero when there is none. */
  ghost predicate IsLargestGap(m: real, a: seq<Complex>, b: seq<Complex>) {
    && m >= 0.0
    && (forall i: nat :: i < Common(a, b) ==> Gap(a, b, i) <= m)
    && (m == 0.0 || exists i: nat :: i < Common(a, b) && Gap(a, b, i) == m)
  }

  /** `diff_max`, squared. */
  method DiffMax(a: seq<Complex>, b: seq<Complex>) returns (m: real)
    ensures IsLargestGap(m, a, b)
  {
    hide Norm2;
    var n := Common(a, b);
    m := 0.0;
    var i := 0;
    while i < n
      invariant 0 <= i <= n && m >= 0.0
      invariant forall k: nat :: k < i ==> Gap(a, b, k) <= m
      invariant m == 0.0 || exists k: nat :: k < i && Gap(a, b, k) == m
    {
      if Gap(a, b, i) > m {
        m := Gap(a, b, i);
      }
      i := i + 1;
    }
  }

  ghost predicate WithinEverywhere(a: seq<Complex>, b: seq<Complex>, tol: real) {
    tol > 0.0 && forall i: nat :: i < Common(a, b) ==> Close(a[i], b[i], tol)
  }

  /** Testing the largest gap is testing every horizon. */
  lemma {:induction false} GapMeans(m: real, a: seq<Complex>, b: seq<Complex>, tol: real)
    requires IsLargestGap(m, a, b)
    ensures BelowTolerance(m, tol) <==> WithinEverywhere(a, b, tol)
  {
    hide Norm2, Square;
    if tol > 0.0 {
      TolerancePositive(tol);
      if WithinEverywhere(a, b, tol) && m != 0.0 {
        var i: nat :| i < Common(a, b) && Gap(a, b, i) == m;
        assert Close(a[i], b[i], tol);
      }
      if BelowTolerance(m, tol) {
        forall i: nat | i < Common(a, b)
          ensures Close(a[i], b[i], tol)
        {
          assert Gap(a, b, i) <= m;
        }
      }
    }
  }

  lemma {:induction false} TolerancePositive(tol: real)
    requires tol > 0.0
    ensures Square(tol) > 0.0
  {
    SquarePositive(tol);
  }

  // ---------------------------------------------------------------- the carriers on a grid

  /** What the engine can hand over: either nothing or parts of one recurrence. */
  ghost predicate PipelineShape(rp: Pipeline) {
    && rp.comp.r == |rp.rec| == |rp.comp.Y0| && R.IsCompanion(rp.comp.C, rp.rec) && WellFormed(rp.spectrum.modes)
  }

  lemma {:induction false} EngineShape(rp: Pipeline, u: seq<Complex>, find: R.Rational -> seq<Complex>, tol: real)
    requires rp == NoPipeline() || Built(rp, u, find, tol)
    ensures PipelineShape(rp)
  {
    hide R.Fits, R.FromRecurrence, ExactRoots, R.Series, SpectrumSequence;
  }

  ghost function JetCarrier(J: Jet, h: nat): Complex {
    if |J.coeff| >= DenseSize(J.Q, J.order) then JetValue(FullPart(J), Diagonal(J.Q, OfReal(h as real))) else ZERO
  }

  ghost function NewtonCarrier(uPast: seq<Complex>, r: nat, h: nat): Complex {
    if uPast == [] then ZERO else NewtonValue(Samples(uPast), UsedDifferences(|uPast|, |uPast|, r), h as real)
  }

  /** How many differences Newton's carrier uses. */
  function NewtonOrder(uPast: seq<Complex>, r: nat): nat {
    if uPast == [] then 0 else UsedDifferences(|uPast|, |uPast|, r)
  }

  ghost predicate Anchored(grid: seq<nat>) {
    grid != [] && grid[0] == 0
  }

  predicate Closed(rp: Pipeline) {
    |rp.rec| > 0 && |rp.rational.Q| > 0 && rp.spectrum.modes != []
  }

  ghost predicate FirstFour(ee: Carriers, smooth: seq<Complex>, J: Jet, rp: Pipeline, uPast: seq<Complex>,
                            grid: seq<nat>)
    requires |rp.comp.Y0| == |rp.rec|
  {
    && |ee.continuous| == |ee.jet| == |ee.newton| == |ee.matrix| == |grid|
    && forall i :: 0 <= i < |grid| ==>
         && ee.continuous[i] == AtHorizon(smooth, grid[i])
         && ee.jet[i] == JetCarrier(J, grid[i])
         && ee.newton[i] == NewtonCarrier(uPast, |rp.rec|, grid[i])
         && ee.matrix[i] == R.Continuation(rp.rec, rp.comp.Y0)(grid[i])
  }

  ghost predicate LastTwo(ee: Carriers, rp: Pipeline, grid: seq<nat>)
  {
    && ee.closed == Closed(rp)
    && (!ee.closed ==> ee.rational == [] && ee.spectral == [])
    && (ee.closed ==> |ee.rational| == |ee.spectral| == |grid|)
    && (ee.closed ==> forall i :: 0 <= i < |grid| ==> ee.rational[i] == R.Series(rp.rational)(grid[i]))
    && (ee.closed ==> forall i :: 0 <= i < |grid| ==> ee.spectral[i] == SpectrumSequence(rp.spectrum.modes)(grid[i]))
  }

  ghost predicate GapsOf(ee: Carriers) {
    && IsLargestGap(ee.gapCJ, ee.continuous, ee.jet)
    && IsLargestGap(ee.gapJN, ee.jet, ee.newton)
    && IsLargestGap(ee.gapNM, ee.newton, ee.matrix)
    && IsLargestGap(ee.gapMR, ee.matrix, ee.rational)
    && IsLargestGap(ee.gapRS, ee.rational, ee.spectral)
    && (forall g :: g in [ee.gapCJ, ee.gapJN, ee.gapNM, ee.gapMR, ee.gapRS] ==> g <= ee.gapMax)
    && ee.gapMax in [ee.gapCJ, ee.gapJN, ee.gapNM, ee.gapMR, ee.gapRS]
  }

  function RealGrid(grid: seq<nat>): (g: seq<real>)
    ensures |g| == |grid| && forall i :: 0 <= i < |g| ==> g[i] == grid[i] as real
  {
    seq(|grid|, i requires 0 <= i < |grid| => grid[i] as real)
  }

  method ContinuousOn(sec: Section, grid: seq<nat>) returns (out: seq<Complex>)
    ensures |out| == |grid| && forall i :: 0 <= i < |grid| ==> out[i] == AtHorizon(sec.smooth, grid[i])
  {
    hide PolyValue;
    out := [];
    var i := 0;
    while i < |grid|
      invariant 0 <= i <= |grid| && |out| == i
      invariant forall k :: 0 <= k < i ==> out[k] == AtHorizon(sec.smooth, grid[k])
    {
      var v := EvaluateSmooth(sec, grid[i] as real);
      out := out + [v];
      i := i + 1;
    }
  }

  /** Entry 0 of the jet shifted to each horizon. */
  method JetOn(J: Jet, grid: seq<nat>) returns (out: seq<Complex>)
    ensures |out| == |grid| && forall i :: 0 <= i < |grid| ==> out[i] == JetCarrier(J, grid[i])
  {
    hide JetValue, IsShift, Volume;
    out := [];
    DensePositive(J);
    var i := 0;
    while i < |grid|
      invariant 0 <= i <= |grid| && |out| == i
      invariant forall k :: 0 <= k < i ==> out[k] == JetCarrier(J, grid[k])
    {
      var h := OfReal(grid[i] as real);
      var shifted := ShiftJet(J, h);
      if |J.coeff| >= DenseSize(J.Q, J.order) {
        FrontEntry(shifted, FullPart(J), h);
      }
      out := out + [shifted.coeff[0]];
      i := i + 1;
    }
  }

  lemma {:induction false} DensePositive(J: Jet)
    ensures DenseSize(J.Q, J.order) > 0
  {
    AllZeroDegree(Zeros(J.Q));
    SimplexInBox(J.Q, J.order, Zeros(J.Q));
    RankBound(Uniform(J.Q, J.order + 1), Zeros(J.Q));
  }

  lemma {:induction false} FrontEntry(S: Jet, K: Jet, h: Complex)
    requires IsShift(S, K, h) && |S.coeff| > 0
    ensures S.coeff[0] == JetValue(K, Diagonal(K.Q, h))
  {
    hide JetValue, IsShift;
    ShiftEvaluates(K, S, h);
    ShiftSameShape(S, K, h);
    RankZeros(Uniform(K.Q, K.order + 1));
    AllZeroDegree(Zeros(K.Q));
    FlatInDense(K.Q, K.order, Zeros(K.Q));
    assert Diagonal(K.Q, h) == seq(K.Q, i => h);
    FrontIsZeros(S);
  }

  lemma {:induction false} ShiftSameShape(S: Jet, K: Jet, h: Complex)
    requires IsShift(S, K, h)
    ensures S.Q == K.Q && S.order == K.order
  {
  }

  lemma {:induction false} FrontIsZeros(S: Jet)
    requires Dense(S) && |S.coeff| > 0
    ensures At(S, Zeros(S.Q)) == S.coeff[0]
  {
    RankZeros(Uniform(S.Q, S.order + 1));
    AllZeroDegree(Zeros(S.Q));
    FlatInDense(S.Q, S.order, Zeros(S.Q));
  }

  method CompanionOn(rp: Pipeline, grid: seq<nat>) returns (out: seq<Complex>)
    requires PipelineShape(rp)
    ensures |out| == |grid| && forall i :: 0 <= i < |grid| ==> out[i] == R.Continuation(rp.rec, rp.comp.Y0)(grid[i])
  {
    hide R.Continuation, R.IsCompanion, WellFormed;
    out := [];
    var i := 0;
    while i < |grid|
      invariant 0 <= i <= |grid| && |out| == i
      invariant forall k :: 0 <= k < i ==> out[k] == R.Continuation(rp.rec, rp.comp.Y0)(grid[k])
    {
      var v := R.EvalCompanion(rp.comp, rp.rec, grid[i]);
      out := out + [v];
      i := i + 1;
    }
  }

  /** `eval_resolvent_grid`: one long division up to the largest horizon, then a lookup. */
  method RationalOn(rm: R.Rational, grid: seq<nat>) returns (out: seq<Complex>)
    ensures |out| == |grid| && forall i :: 0 <= i < |grid| ==> out[i] == R.Series(rm)(grid[i])
  {
    hide R.Series, R.Divides, R.Degenerate;
    var H: nat := 0;
    var i := 0;
    while i < |grid|
      invariant 0 <= i <= |grid| && forall k :: 0 <= k < i ==> grid[k] <= H
    {
      if grid[i] > H {
        H := grid[i];
      }
      i := i + 1;
    }
    var u := R.EvalRational(rm, H);
    out := [];
    i := 0;
    while i < |grid|
      invariant 0 <= i <= |grid| && |out| == i
      invariant forall k :: 0 <= k < i ==> out[k] == R.Series(rm)(grid[k])
    {
      out := out + [u[grid[i]]];
      i := i + 1;
    }
  }

  method SpectralOn(modes: seq<Mode>, grid: seq<nat>) returns (out: seq<Complex>)
    requires WellFormed(modes)
    ensures |out| == |grid| && forall i :: 0 <= i < |grid| ==> out[i] == SpectrumSequence(modes)(grid[i])
  {
    hide SpectrumSequence;
    out := [];
    var i := 0;
    while i < |grid|
      invariant 0 <= i <= |grid| && |out| == i
      invariant forall k :: 0 <= k < i ==> out[k] == SpectrumSequence(modes)(grid[k])
    {
      var v := ModeSum(modes, grid[i]);
      out := out + [v];
      i := i + 1;
    }
  }

  method NewtonOn(uPast: seq<Complex>, r: nat, grid: seq<nat>) returns (out: seq<Complex>, trace: NewtonTrace)
    ensures |out| == |grid| && forall i :: 0 <= i < |grid| ==> out[i] == NewtonCarrier(uPast, r, grid[i])
    ensures TraceOf(trace, uPast, NewtonOrder(uPast, r), RealGrid(grid))
  {
    hide NewtonValue, TraceOf;
    out, trace := EvalNewtonAtH(uPast, |uPast|, r, RealGrid(grid));
  }

  function ZeroList(n: nat): (s: seq<Complex>)
    ensures |s| == n && forall i :: 0 <= i < n ==> s[i] == ZERO
  {
    seq(n, i => ZERO)
  }

  /** The result for a grid that does not start at horizon zero. */
  function Unanchored(n: nat): Carriers {
    Carriers(ZeroList(n), ZeroList(n), ZeroList(n), ZeroList(n), [], [], false, false, false,
      0.0, 0.0, 0.0, 0.0, 0.0, 0.0)
  }

  /** `compute_evolution_equality`. */
  method ComputeEvolution(sec: Section, J: Jet, rp: Pipeline, uPast: seq<Complex>, grid: seq<nat>)
    returns (ee: Carriers, trace: NewtonTrace)
    requires PipelineShape(rp)
    ensures !Anchored(grid) ==> ee == Unanchored(|grid|)
    ensures Anchored(grid) ==> FirstFour(ee, sec.smooth, J, rp, uPast, grid) && LastTwo(ee, rp, grid) && GapsOf(ee)
    ensures Anchored(grid) ==> ee.fromJet == ee.onTorus == (J.coeff != [])
    ensures !Anchored(grid) ==> trace == NewtonTrace([], [], [], [], [])
    ensures Anchored(grid) ==> TraceOf(trace, uPast, NewtonOrder(uPast, |rp.rec|), RealGrid(grid))
  {
    hide TraceOf, JetCarrier, NewtonCarrier, R.Continuation, R.Series, SpectrumSequence, AtHorizon, IsLargestGap,
         PipelineShape, R.IsCompanion;
    trace := NewtonTrace([], [], [], [], []);
    if grid == [] || grid[0] != 0 {
      return Unanchored(|grid|), trace;
    }
    ShapeParts(rp);
    var continuous := ContinuousOn(sec, grid);
    var jet := ZeroList(|grid|);
    if J.coeff != [] {
      jet := JetOn(J, grid);
    } else {
      EmptyJet(J, grid);
    }
    var newton;
    newton, trace := NewtonOn(uPast, |rp.rec|, grid);
    var matrix := CompanionOn(rp, grid);
    var closed := Closed(rp);
    var rational, spectral := [], [];
    if closed {
      rational := RationalOn(rp.rational, grid);
      spectral := SpectralOn(rp.spectrum.modes, grid);
    }
    var gapCJ := DiffMax(continuous, jet);
    var gapJN := DiffMax(jet, newton);
    var gapNM := DiffMax(newton, matrix);
    var gapMR, gapRS := 0.0, 0.0;
    if closed {
      gapMR := DiffMax(matrix, rational);
      gapRS := DiffMax(rational, spectral);
    } else {
      NoGap(matrix);
      NoGap([]);
    }
    var gapMax := MaxReal(gapCJ, MaxReal(gapJN, MaxReal(gapNM, MaxReal(gapMR, gapRS))));
    ee := Carriers(continuous, jet, newton, matrix, rational, spectral, closed, J.coeff != [], J.coeff != [],
                   gapCJ, gapJN, gapNM, gapMR, gapRS, gapMax);
  }

  lemma {:induction false} ShapeParts(rp: Pipeline)
    requires PipelineShape(rp)
    ensures |rp.comp.Y0| == |rp.rec| && WellFormed(rp.spectrum.modes)
  {
    hide R.IsCompanion;
  }

  lemma {:induction false} EmptyJet(J: Jet, grid: seq<nat>)
    requires J.coeff == []
    ensures forall i :: 0 <= i < |grid| ==> JetCarrier(J, grid[i]) == ZERO
  {
    hide Volume;
    DensePositive(J);
  }

  lemma {:induction false} NoGap(a: seq<Complex>)
    ensures IsLargestGap(0.0, a, [])
  {
  }

  // ---------------------------------------------------------------- the assertion

  /** `assert_evolution_equality`. */
  predicate AssertEvolution(ee: Carriers, tol: real) {
    && BelowTolerance(ee.gapCJ, tol) && BelowTolerance(ee.gapJN, tol) && BelowTolerance(ee.gapNM, tol)
    && (ee.closed ==> BelowTolerance(ee.gapMR, tol) && BelowTolerance(ee.gapRS, tol))
  }

  /** What the assertion means: neighbours stay within tolerance at every horizon. */
  lemma {:induction false} AssertMeans(ee: Carriers, tol: real)
    requires GapsOf(ee)
    ensures AssertEvolution(ee, tol) <==>
      && WithinEverywhere(ee.continuous, ee.jet, tol)
      && WithinEverywhere(ee.jet, ee.newton, tol)
      && WithinEverywhere(ee.newton, ee.matrix, tol)
      && (ee.closed ==> WithinEverywhere(ee.matrix, ee.rational, tol))
      && (ee.closed ==> WithinEverywhere(ee.rational, ee.spectral, tol))
  {
    hide IsLargestGap, WithinEverywhere, BelowTolerance;
    GapMeans(ee.gapCJ, ee.continuous, ee.jet, tol);
    GapMeans(ee.gapJN, ee.jet, ee.newton, tol);
    GapMeans(ee.gapNM, ee.newton, ee.matrix, tol);
    GapMeans(ee.gapMR, ee.matrix, ee.rational, tol);
    GapMeans(ee.gapRS, ee.rational, ee.spectral, tol);
  }

  /** The result for an unanchored grid is told apart by its provenance flag only: its gaps
      are all zero and the assertion accepts it at every positive tolerance. */
  lemma {:induction false} UnanchoredPasses(n: nat, tol: real)
    ensures AssertEvolution(Unanchored(n), tol) <==> tol > 0.0
    ensures !Unanchored(n).onTorus
  {
    if tol > 0.0 {
      TolerancePositive(tol);
    }
  }

  // ---------------------------------------------------------------- the identity

  ghost predicate AllEqual(ee: Carriers, grid: seq<nat>, a: seq<Complex>) {
    && |ee.continuous| == |ee.jet| == |ee.newton| == |ee.matrix| == |ee.rational| == |ee.spectral| == |grid|
    && forall i :: 0 <= i < |grid| ==>
         ee.continuous[i] == ee.jet[i] == ee.newton[i] == ee.matrix[i] == ee.rational[i] == ee.spectral[i]
           == AtHorizon(a, grid[i])
  }

  lemma {:induction false} EqualCarriersPass(ee: Carriers, grid: seq<nat>, a: seq<Complex>, tol: real)
    requires GapsOf(ee) && AllEqual(ee, grid, a) && tol > 0.0
    ensures AssertEvolution(ee, tol)
  {
    hide IsLargestGap, AtHorizon, BelowTolerance, Close;
    AssertMeans(ee, tol);
    forall x: Complex
      ensures Close(x, x, tol)
    {
      CloseToItself(x, tol);
    }
  }

  lemma {:induction false} LargestGapOnce(x: real, y: real, a: seq<Complex>, b: seq<Complex>)
    requires IsLargestGap(x, a, b) && IsLargestGap(y, a, b)
    ensures x == y
  {
    hide Norm2;
  }

  lemma {:induction false} GapsOnce(x: Carriers, y: Carriers)
    requires GapsOf(x) && GapsOf(y)
    requires x.continuous == y.continuous && x.jet == y.jet && x.newton == y.newton && x.matrix == y.matrix
    requires x.rational == y.rational && x.spectral == y.spectral
    ensures x.gapCJ == y.gapCJ && x.gapJN == y.gapJN && x.gapNM == y.gapNM && x.gapMR == y.gapMR && x.gapRS == y.gapRS
    ensures x.gapMax == y.gapMax
  {
    hide IsLargestGap;
    LargestGapOnce(x.gapCJ, y.gapCJ, x.continuous, x.jet);
    LargestGapOnce(x.gapJN, y.gapJN, x.jet, x.newton);
    LargestGapOnce(x.gapNM, y.gapNM, x.newton, x.matrix);
    LargestGapOnce(x.gapMR, y.gapMR, x.matrix, x.rational);
    LargestGapOnce(x.gapRS, y.gapRS, x.rational, x.spectral);
    var gaps := [x.gapCJ, x.gapJN, x.gapNM, x.gapMR, x.gapRS];
    assert x.gapMax in gaps && y.gapMax in gaps;
    assert (forall g :: g in gaps ==> g <= x.gapMax) && forall g :: g in gaps ==> g <= y.gapMax;
  }

  /** Section, jet, recurrence and past samples determine the comparison. */
  lemma {:induction false} CarriersOnce(x: Carriers, y: Carriers, smooth: seq<Complex>, J: Jet, rp: Pipeline,
                                        uPast: seq<Complex>, grid: seq<nat>)
    requires PipelineShape(rp) && |rp.comp.Y0| == |rp.rec|
    requires FirstFour(x, smooth, J, rp, uPast, grid) && LastTwo(x, rp, grid) && GapsOf(x)
    requires FirstFour(y, smooth, J, rp, uPast, grid) && LastTwo(y, rp, grid) && GapsOf(y)
    requires x.fromJet == y.fromJet && x.onTorus == y.onTorus
    ensures x == y
  {
    hide AtHorizon, JetCarrier, NewtonCarrier, R.Continuation, R.Series, SpectrumSequence, GapsOf, PipelineShape;
    assert x.continuous == y.continuous && x.jet == y.jet && x.newton == y.newton && x.matrix == y.matrix;
    assert x.rational == y.rational && x.spectral == y.spectral;
    GapsOnce(x, y);
  }

  /** The jet behind the section keeps on its first axis what the whole lattice sums to. */
  ghost predicate JetMatches(J: Jet, smooth: seq<Complex>, nPhi: int) {
    && J.Q > 0 && Dense(J) && smooth == SmoothList(J, nPhi)
    && forall n: nat :: n <= J.order ==> DegreeSums(J)[n] == SmoothAt(J, nPhi, n)
  }

  /** Main result, the evolution identity: when the degree sums of the jet are its first-axis
      coefficients, the past samples are those of the section, and the engine ran on the
      section's samples under the recovery conditions, then all six carriers are one
      polynomial on the whole grid, however long, and every positive tolerance accepts. */
  lemma {:induction false} EvolutionIdentity(ee: Carriers, sec: Section, J: Jet, rp: Pipeline, uPast: seq<Complex>,
                                             grid: seq<nat>, u: seq<Complex>, d: nat, N_max: int,
                                             find: R.Rational -> seq<Complex>, nPhi: int, tol: real)
    requires PipelineShape(rp) && Anchored(grid)
    requires FirstFour(ee, sec.smooth, J, rp, uPast, grid) && LastTwo(ee, rp, grid) && GapsOf(ee)
    requires JetMatches(J, sec.smooth, nPhi)
    requires PastOfPolynomial(uPast, sec.smooth) && |uPast| >= d
    requires EngineOnPolynomial(rp, u, sec.smooth, d, N_max, find)
    requires tol > 0.0
    ensures AllEqual(ee, grid, sec.smooth) && AssertEvolution(ee, tol)
  {
    hide GapsOf, AtHorizon, R.Continuation, R.Series, SpectrumSequence, JetCarrier, NewtonCarrier, JetMatches,
         PastOfPolynomial, EngineOnPolynomial, PipelineShape;
    EngineCloses(rp, u, sec.smooth, d, N_max, find);
    ShapeParts(rp);
    forall i | 0 <= i < |grid|
      ensures JetCarrier(J, grid[i]) == AtHorizon(sec.smooth, grid[i])
      ensures NewtonCarrier(uPast, |rp.rec|, grid[i]) == AtHorizon(sec.smooth, grid[i])
      ensures R.Continuation(rp.rec, rp.comp.Y0)(grid[i]) == AtHorizon(sec.smooth, grid[i])
      ensures R.Series(rp.rational)(grid[i]) == AtHorizon(sec.smooth, grid[i])
      ensures SpectrumSequence(rp.spectrum.modes)(grid[i]) == AtHorizon(sec.smooth, grid[i])
    {
      CarriersOfPolynomial(rp, u, sec.smooth, d, N_max, find, grid[i]);
      JetAtHorizon(J, sec.smooth, nPhi, grid[i]);
      NewtonAtHorizon(uPast, sec.smooth, d, grid[i]);
    }
    EqualCarriersPass(ee, grid, sec.smooth, tol);
  }

  lemma {:induction false} EngineCloses(rp: Pipeline, u: seq<Complex>, a: seq<Complex>, d: nat, N_max: int,
                                        find: R.Rational -> seq<Complex>)
    requires EngineOnPolynomial(rp, u, a, d, N_max, find)
    ensures Closed(rp) && |rp.rec| == d >= 1 && DegreeBelow(a, d)
  {
    hide R.Detected, R.Fits, R.IsCompanion, R.Convolution, Singular, R.Hankel, AtHorizon, DegreeBelow, ModeCombination;
    CarriersOfPolynomial(rp, u, a, d, N_max, find, 0);
    if rp.spectrum.modes == [] {
      HankelOfPolynomial(u, a, d);
      forall n: nat | n < |u|
        ensures u[n] == ZERO
      {
        CarriersOfPolynomial(rp, u, a, d, N_max, find, n);
        NoModes(rp.spectrum.modes, n);
        assert u[n] == AtHorizon(a, n);
      }
      ZeroSamplesSingular(u, d);
      assert false;
    }
  }

  lemma {:induction false} NoModes(modes: seq<Mode>, n: nat)
    requires modes == []
    ensures SpectrumSequence(modes)(n) == ZERO
  {
    assert Columns(ClustersOf(modes)) == [];
  }

  lemma {:induction false} ZeroSamplesSingular(u: seq<Complex>, d: nat)
    requires d >= 1 && forall n: nat :: n < |u| ==> u[n] == ZERO
    ensures Singular(R.Hankel(u, d))
  {
    NoPivotSingular(R.Hankel(u, d), 0);
  }

  lemma {:induction false} JetAtHorizon(J: Jet, smooth: seq<Complex>, nPhi: int, h: nat)
    requires JetMatches(J, smooth, nPhi)
    ensures JetCarrier(J, h) == AtHorizon(smooth, h)
  {
    hide JetValue, AtHorizon, At;
    ContinuousIsJetExactly(J, nPhi);
    assert FullPart(J) == J;
  }

  /** On past samples of the section the Newton carrier is the section at every horizon exactly
      when the section's degree is below the number of differences used. */
  lemma {:induction false} NewtonCarrierExactly(uPast: seq<Complex>, a: seq<Complex>, r: nat)
    requires uPast != [] && PastOfPolynomial(uPast, a)
    ensures (forall h: nat :: NewtonCarrier(uPast, r, h) == AtHorizon(a, h)) <==> DegreeBelow(a, NewtonOrder(uPast, r))
  {
    hide NewtonValue, PolyValue, PastOfPolynomial, DegreeBelow;
    NewtonIsSectionExactly(uPast, a, NewtonOrder(uPast, r));
  }

  /** So it leaves a quadratic section when it gets two past samples, whatever the order. */
  lemma {:induction false} TwoSamplesMissQuadratic(uPast: seq<Complex>, a: seq<Complex>, r: nat)
    requires a == [ZERO, ZERO, ONE] && uPast == [ZERO, ONE]
    ensures PastOfPolynomial(uPast, a)
    ensures exists h: nat :: NewtonCarrier(uPast, r, h) != AtHorizon(a, h)
  {
    hide NewtonCarrier, AtHorizon, PastOfPolynomial, DegreeBelow;
    QuadraticPast(uPast, a);
    NewtonCarrierExactly(uPast, a, r);
    QuadraticDegree(a, NewtonOrder(uPast, r));
  }

  lemma {:induction false} QuadraticDegree(a: seq<Complex>, k: nat)
    requires a == [ZERO, ZERO, ONE] && k <= 2
    ensures !DegreeBelow(a, k)
  {
    assert SampleAt(a, 2) == ONE;
  }

  lemma {:induction false} QuadraticPast(uPast: seq<Complex>, a: seq<Complex>)
    requires a == [ZERO, ZERO, ONE] && uPast == [ZERO, ONE]
    ensures PastOfPolynomial(uPast, a)
  {
    hide PolyValue;
    QuadraticValue(a, 0.0);
    QuadraticValue(a, -1.0);
    forall j: nat | j < 2
      ensures uPast[j] == PolyValue(a, OfReal(-(j as real)))
    {
      assert j == 0 || j == 1;
    }
  }

  lemma {:induction false} QuadraticValue(a: seq<Complex>, h: real)
    requires a == [ZERO, ZERO, ONE]
    ensures PolyValue(a, OfReal(h)) == OfReal(h * h)
  {
    hide PolyValue;
    var y := OfReal(h);
    PolyFirst(a, y);
    PolyFirst(a[1..], y);
    PolyFirst(a[2..], y);
    assert a[1..][1..] == a[2..] && a[1..][0] == ZERO && a[2..][0] == ONE;
    NoTerms(a[2..][1..], y);
  }

  lemma {:induction false} NewtonAtHorizon(uPast: seq<Complex>, a: seq<Complex>, d: nat, h: nat)
    requires PastOfPolynomial(uPast, a) && |uPast| >= d >= 1 && DegreeBelow(a, d)
    ensures NewtonCarrier(uPast, d, h) == AtHorizon(a, h)
  {
    hide NewtonValue, PolyValue, PastOfPolynomial, DegreeBelow;
    NewtonOfPolynomial(uPast, a, d, h as real);
  }
}
