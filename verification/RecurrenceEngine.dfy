/** The recurrence engine (src/engine/recurrence_engine.cpp): one pass that detects the order,
    fits the recurrence and builds every carrier from it, or gives everything up. */
module RecurrenceEngine {
  import opened ComplexField
  import opened LinearAlgebra
  import opened Recurrence
  import opened Modes
  import opened Spectral
  import opened Results

  datatype Pipeline = Pipeline(rec: Vector, comp: Companion, rational: Rational, spectrum: Spectrum)

  /** What the engine hands out after any failure. */
  function NoPipeline(): Pipeline {
    Pipeline([], Companion(0, [], []), Rational([], []), Spectrum(0, []))
  }

  /** The root finder, an oracle, factors this denominator exactly. */
  ghost predicate FindsRoots(find: Rational -> seq<Complex>, rm: Rational, tol: real) {
    ExactRoots(rm, find(rm), tol)
  }

  ghost predicate SameSequence(f: nat -> Complex, g: nat -> Complex) {
    forall h: nat :: f(h) == g(h)
  }

  /** Every part belongs to one recurrence that fits u. */
  ghost predicate Built(out: Pipeline, u: seq<Complex>, find: Rational -> seq<Complex>, tol: real) {
    && Fits(u, out.rec)
    && out.comp.r == |out.rec| <= |u| && IsCompanion(out.comp.C, out.rec) && out.comp.Y0 == u[..|out.rec|]
    && FromRecurrence(out.rational, out.rec, u[..|out.rec|]) && !Degenerate(out.rational)
    && WellFormed(out.spectrum.modes) && out.spectrum.r == |out.rec|
    && (FindsRoots(find, out.rational, tol) ==>
        SameSequence(SpectrumSequence(out.spectrum.modes), Series(out.rational)))
  }

  /** The denominator of the fit of the detected order, with roots the finder gets wrong. */
  ghost predicate RootsMissed(u: seq<Complex>, N_max: int, c: Vector, rm: Rational, find: Rational -> seq<Complex>,
                              tol: real) {
    && Detected(u, N_max, tol, |c|) && Fits(u, c) && 0 < |c| <= |u| && FromRecurrence(rm, c, u[..|c|])
    && !FindsRoots(find, rm, tol)
  }

  /** The two ways to fail: order one on a sequence that starts with zero or has one sample,
      or a fitted denominator whose roots the finder does not deliver exactly. */
  ghost predicate MayFail(u: seq<Complex>, N_max: int, find: Rational -> seq<Complex>, tol: real) {
    || (Detected(u, N_max, tol, 1) && (|u| < 2 || u[0] == ZERO))
    || exists c, rm :: RootsMissed(u, N_max, c, rm, find, tol)
  }

  /** The denominator of the fit of order r leads to a singular confluent system. */
  ghost predicate Unfactorable(u: seq<Complex>, r: nat, find: Rational -> seq<Complex>, tol: real) {
    exists c, rm :: FitOf(u, r, c, rm) && !Factorable(rm, find(rm), tol)
  }

  ghost predicate FitOf(u: seq<Complex>, r: nat, c: Vector, rm: Rational) {
    |c| == r <= |u| && Fits(u, c) && FromRecurrence(rm, c, u[..r])
  }

  /** All parts belong to the fit of order r. */
  ghost predicate PartsOf(out: Pipeline, u: seq<Complex>, r: nat, find: Rational -> seq<Complex>, tol: real) {
    && FitOf(u, r, out.rec, out.rational)
    && out.comp.r == r && IsCompanion(out.comp.C, out.rec) && out.comp.Y0 == u[..r]
    && Factored(out.spectrum, out.rational, find(out.rational), tol)
  }

  /** Exactly what the engine hands out: nothing when the fit of the detected order or its
      confluent system is singular, and otherwise the parts of that fit. */
  ghost predicate EngineOutcome(out: Pipeline, u: seq<Complex>, N_max: int, tol: real,
                                find: Rational -> seq<Complex>) {
    exists r: nat :: FirstDeficient(u, N_max, tol, r) &&
      if !Solvable(u, r) || Unfactorable(u, r, find, tol) then out == NoPipeline() else PartsOf(out, u, r, find, tol)
  }

  lemma {:induction false} FitOfOnce(u: seq<Complex>, r: nat, c: Vector, rm: Rational, d: Vector, rn: Rational)
    requires Solvable(u, r) && FitOf(u, r, c, rm) && FitOf(u, r, d, rn)
    ensures c == d && rm == rn
  {
    hide Singular, Hankel, Obeys, Fits, Convolution;
    if r > 0 {
      FitUnique(u, c, d);
    } else {
      assert c == [] == d;
    }
    assert rm.Q == rn.Q && rm.P == rn.P;
  }

  lemma {:induction false} CompanionOnce(C: Matrix, D: Matrix, c: Vector)
    requires IsCompanion(C, c) && IsCompanion(D, c)
    ensures C == D
  {
    var r := |c|;
    forall i, j | 0 <= i < r && 0 <= j < r
      ensures C[i][j] == D[i][j]
    {
      if i == r - 1 {
        assert C[|c| - 1][j] == Neg(c[j]);
        assert D[|c| - 1][j] == Neg(c[j]);
      } else {
        assert 0 <= i < |c| - 1;
      }
    }
    assert forall i :: 0 <= i < r ==> |C[i]| == |D[i]| && C[i] == D[i];
  }

  /** The outcome is determined by the samples, the configuration and the root finder. */
  lemma {:induction false} EngineOnce(x: Pipeline, y: Pipeline, u: seq<Complex>, N_max: int, tol: real,
                                      find: Rational -> seq<Complex>)
    requires EngineOutcome(x, u, N_max, tol, find) && EngineOutcome(y, u, N_max, tol, find)
    ensures x == y
  {
    hide FirstDeficient, Solvable, Unfactorable, FitOf, IsCompanion, Factored;
    var r: nat :| FirstDeficient(u, N_max, tol, r) &&
      if !Solvable(u, r) || Unfactorable(u, r, find, tol) then x == NoPipeline() else PartsOf(x, u, r, find, tol);
    var s: nat :| FirstDeficient(u, N_max, tol, s) &&
      if !Solvable(u, s) || Unfactorable(u, s, find, tol) then y == NoPipeline() else PartsOf(y, u, s, find, tol);
    DetectedOnce(u, N_max, tol, r, s);
    if Solvable(u, r) && !Unfactorable(u, r, find, tol) {
      FitOfOnce(u, r, x.rec, x.rational, y.rec, y.rational);
      CompanionOnce(x.comp.C, y.comp.C, x.rec);
      FactoredOnce(x.spectrum, y.spectrum, x.rational, find(x.rational), tol);
    }
  }

  /** `build_recurrence_pipeline`. */
  method BuildRecurrencePipeline(u: seq<Complex>, N_max: int, tol: real, find: Rational -> seq<Complex>)
    returns (out: Pipeline)
    ensures EngineOutcome(out, u, N_max, tol, find)
    ensures out == NoPipeline() || (Detected(u, N_max, tol, |out.rec|) && Built(out, u, find, tol))
    ensures out == NoPipeline() ==> MayFail(u, N_max, find, tol)
  {
    hide Detected, Fits, FromRecurrence, ExactRoots, IsCompanion, WellFormed, Mul, Convolution, ModeCombination,
         Singular, Series, SpectrumSequence, Factored, Factorable, FirstDeficient;
    out := NoPipeline();
    var r := DetectMinRank(u, N_max, tol);
    DetectedIsSolvable(u, N_max, tol, r);
    var fit := SolveRecurrence(u, r);
    if fit.NumericError? {
      return;
    }
    var c := fit.value;
    FitLength(u, c);
    var init := u[..r];
    var comp := BuildCompanion(c, init);
    assert comp.Y0 == init;
    var quotient := BuildRational(c, init);
    var rm := quotient.value;
    NotDegenerate(rm, c, init);
    var factored := FactorRational(rm, find(rm), tol);
    assert FitOf(u, r, c, rm);
    if factored.NumericError? {
      assert RootsMissed(u, N_max, c, rm, find, tol);
      return;
    }
    OnlyFit(u, r, c, rm, find, tol);
    out := Pipeline(c, comp, rm, factored.value);
  }

  lemma {:induction false} OnlyFit(u: seq<Complex>, r: nat, c: Vector, rm: Rational, find: Rational -> seq<Complex>,
                                   tol: real)
    requires Solvable(u, r) && FitOf(u, r, c, rm) && Factorable(rm, find(rm), tol)
    ensures !Unfactorable(u, r, find, tol)
  {
    hide Solvable, FitOf, Factorable;
    forall d, rn | FitOf(u, r, d, rn)
      ensures Factorable(rn, find(rn), tol)
    {
      FitOfOnce(u, r, c, rm, d, rn);
    }
  }

  lemma {:induction false} FitLength(u: seq<Complex>, c: Vector)
    requires Fits(u, c)
    ensures 2 * |c| <= |u|
  {
  }

  lemma {:induction false} NotDegenerate(rm: Rational, c: Vector, init: seq<Complex>)
    requires FromRecurrence(rm, c, init)
    ensures !Degenerate(rm) && |rm.Q| == |c| + 1
  {
  }

  /** Whatever was built, companion orbit and long division agree at every horizon, and
      with exact roots so do the modes. */
  lemma {:induction false} CarriersOfPipeline(out: Pipeline, u: seq<Complex>, find: Rational -> seq<Complex>,
                                              tol: real, h: nat)
    requires Built(out, u, find, tol)
    ensures Series(out.rational)(h) == Continuation(out.rec, out.comp.Y0)(h)
    ensures FindsRoots(find, out.rational, tol) ==>
      SpectrumSequence(out.spectrum.modes)(h) == Continuation(out.rec, out.comp.Y0)(h)
  {
    hide Fits, IsCompanion, WellFormed, FromRecurrence, ExactRoots, SpectrumSequence, Series, Continuation;
    CarriersAgree(out.rational, out.rec, u[..|out.rec|], h);
    assert u[..|out.rec|][..|out.rec|] == u[..|out.rec|];
  }

  /** Main result: fed enough samples of a sequence with an order-d recurrence and
      nonsingular leading Hankel minors, at tolerance zero the engine finds that recurrence
      and its carriers continue the true sequence for ever. */
  lemma {:induction false} PipelineRecovers(out: Pipeline, s: nat -> Complex, u: seq<Complex>, c: Vector, N_max: int,
                                            find: Rational -> seq<Complex>, h: nat)
    requires 1 <= |c| <= N_max && 2 * |c| <= |u|
    requires forall n: nat :: n < |u| ==> u[n] == s(n)
    requires forall n: nat :: Obeys(s, c, n)
    requires !Singular(Hankel(u, |c|)) && forall m: nat :: 2 <= m < |c| ==> !Singular(Hankel(u, m))
    requires Detected(u, N_max, 0.0, |out.rec|) && Built(out, u, find, 0.0)
    ensures |out.rec| == |c| && Continuation(out.rec, out.comp.Y0)(h) == s(h)
    ensures Series(out.rational)(h) == s(h)
    ensures FindsRoots(find, out.rational, 0.0) ==> SpectrumSequence(out.spectrum.modes)(h) == s(h)
  {
    hide Detected, Fits, IsCompanion, WellFormed, FromRecurrence, ExactRoots, SpectrumSequence, Series, Continuation,
         Singular, Obeys, Hankel;
    RecoveryExtrapolates(s, u, c, N_max, |out.rec|, out.rec, h);
    CarriersOfPipeline(out, u, find, 0.0, h);
  }

  /** Under the same hypotheses, given exact roots of the one denominator that can arise, the
      engine does not fail. */
  lemma {:induction false} RecoveryDoesNotFail(u: seq<Complex>, c: Vector, N_max: int, find: Rational -> seq<Complex>)
    requires 1 <= |c| <= N_max && 2 * |c| <= |u|
    requires forall n: nat :: n + |c| < |u| ==> Obeys(Samples(u), c, n)
    requires !Singular(Hankel(u, |c|)) && forall m: nat :: 2 <= m < |c| ==> !Singular(Hankel(u, m))
    requires forall rm :: FromRecurrence(rm, c, u[..|c|]) ==> FindsRoots(find, rm, 0.0)
    ensures !MayFail(u, N_max, find, 0.0)
  {
    hide Fits, FromRecurrence, ExactRoots, Singular, Hankel, Obeys, Samples;
    if |c| == 1 {
      HankelOne(u);
    } else {
      assert !Singular(Hankel(u, 2));
    }
    forall d, rm
      ensures !RootsMissed(u, N_max, d, rm, find, 0.0)
    {
      if RootsMissed(u, N_max, d, rm, find, 0.0) {
        Recovery(u, c, N_max, |d|, d);
        assert false;
      }
    }
  }
}
