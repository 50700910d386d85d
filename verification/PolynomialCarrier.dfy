/** When the smooth section is a polynomial of degree below d its samples obey the binomial
    recurrence (S - 1)^d = 0, whose only root is one, d times.  Then every carrier of the
    engine extrapolates the same polynomial. */
module PolynomialCarrier {
  import opened ComplexField
  import opened Combinatorics
  import opened Polynomials
  import opened NewtonGregory
  import opened LinearAlgebra
  import opened SampleWindows
  import opened NewtonPolynomial
  import R = Recurrence
  import opened Modes
  import opened Spectral
  import opened RecurrenceEngine

  ghost predicate DegreeBelow(a: seq<Complex>, d: nat) {
    forall n: nat :: n >= d ==> SampleAt(a, n) == ZERO
  }

  ghost function HorizonSamples(a: seq<Complex>): nat -> Complex {
    (h: nat) => AtHorizon(a, h)
  }

  /** (-1)^d x. */
  function SignedBy(d: nat, x: real): real {
    if d % 2 == 0 then x else -x
  }

  lemma {:induction false} SignedProduct(d: nat, x: real)
    ensures OfReal(SignedBy(d, x)) == Mul(OfReal(Sign(d)), OfReal(x))
  {
  }

  /** (-1)^d (-1)^k C(d, k): the coefficients of (x - 1)^d. */
  ghost function RootRow(d: nat): (p: seq<Complex>)
    ensures |p| == d + 1 && forall k: nat :: k <= d ==> p[k] == OfReal(SignedBy(d, SignedBinomial(d, k)))
  {
    seq(d + 1, k requires k >= 0 => OfReal(SignedBy(d, SignedBinomial(d, k))))
  }

  ghost function BinomialRecurrence(d: nat): (c: Vector)
    ensures |c| == d && forall k: nat :: k < d ==> c[k] == RootRow(d)[k]
  {
    RootRow(d)[..d]
  }

  lemma {:induction false} LeadingOne(d: nat)
    ensures RootRow(d)[d] == ONE && Sign(d) * Sign(d) == 1.0
  {
    ChooseAll(d);
    assert SignedBinomial(d, d) == Sign(d);
  }

  // ---------------------------------------------------------------- differences vanish

  ghost function Alternate(a: seq<Complex>): (b: seq<Complex>)
    ensures |b| == |a| && forall k: nat :: k < |a| ==> b[k] == Mul(OfReal(Sign(k)), a[k])
  {
    seq(|a|, k requires 0 <= k < |a| => Mul(OfReal(Sign(k)), a[k]))
  }

  lemma {:induction false} SignFlips(k: nat)
    ensures Sign(0) == 1.0 && Sign(k + 1) == -1.0 * Sign(k)
  {
  }

  lemma {:induction false} PowUnfold(x: Complex, k: nat)
    ensures Pow(x, 0) == ONE && Pow(x, k + 1) == Mul(x, Pow(x, k))
  {
  }

  lemma {:induction false} SignPower(k: nat)
    ensures Pow(OfReal(-1.0), k) == OfReal(Sign(k))
  {
    hide Mul, Pow, Sign;
    if k == 0 {
      PowUnfold(OfReal(-1.0), 0);
      SignFlips(0);
    } else {
      SignPower(k - 1);
      PowUnfold(OfReal(-1.0), k - 1);
      SignFlips(k - 1);
      OfRealHom(-1.0, Sign(k - 1));
    }
  }

  lemma {:induction false} SignTwice(k: nat)
    ensures Mul(OfReal(Sign(k)), OfReal(Sign(k))) == ONE
  {
    LeadingOne(k);
    OfRealHom(Sign(k), Sign(k));
  }

  lemma {:induction false} MirrorPower(j: nat, k: nat)
    ensures Pow(OfReal(-(j as real)), k) == Mul(OfReal(Sign(k)), Pow(OfReal(j as real), k))
  {
    hide Mul, Pow, Sign;
    OfRealHom(-1.0, j as real);
    assert OfReal(-(j as real)) == Mul(OfReal(-1.0), OfReal(j as real));
    PowProduct(OfReal(-1.0), OfReal(j as real), k);
    SignPower(k);
  }

  lemma {:induction false} MirrorTerm(a: seq<Complex>, j: nat, k: nat)
    requires k < |a|
    ensures PolyTerms(Alternate(a), OfReal(-(j as real)))(k) == PolyTerms(a, OfReal(j as real))(k)
  {
    hide Mul, Pow, Sign;
    var s, y := OfReal(Sign(k)), Pow(OfReal(j as real), k);
    MirrorPower(j, k);
    MulMedial(s, a[k], s, y);
    SignTwice(k);
    MulUnits(Mul(a[k], y));
  }

  lemma {:induction false} Mirror(a: seq<Complex>, j: nat)
    ensures PastSamples(Alternate(a))(j) == HorizonSamples(a)(j)
  {
    hide Mul, Pow, Sign;
    var f, g := PolyTerms(Alternate(a), OfReal(-(j as real))), PolyTerms(a, OfReal(j as real));
    forall k: nat | k < |a|
      ensures f(k) == g(k)
    {
      MirrorTerm(a, j, k);
    }
    SumCongruence(|a|, f, g);
  }

  lemma {:induction false} HorizonDifference(a: seq<Complex>, d: nat, n: nat)
    ensures Difference(HorizonSamples(a), d, n) == Difference(MixSamples(RisingCoefficients(Alternate(a))), d, n)
  {
    hide Mul, Difference, Alternate, HorizonSamples, PastSamples, MixSamples, RisingCoefficients;
    var s, t := HorizonSamples(a), MixSamples(RisingCoefficients(Alternate(a)));
    forall j: nat
      ensures s(j) == t(j)
    {
      Mirror(a, j);
      MixOfRising(Alternate(a), j);
    }
    DifferenceCongruence(s, t, d, n);
  }

  /** Differences of order d kill a polynomial with at most d coefficients. */
  lemma {:induction false} DifferenceVanishes(a: seq<Complex>, d: nat, n: nat)
    requires |a| <= d
    ensures Difference(HorizonSamples(a), d, n) == ZERO
  {
    hide Mul, Difference, Alternate, HorizonSamples, PastSamples, MixSamples, RisingCoefficients, BetaSamples;
    var b := RisingCoefficients(Alternate(a));
    HorizonDifference(a, d, n);
    DifferenceLinear(b, d, n);
    forall k: nat | k < |b|
      ensures MixDifferences(b, d, n)(k) == ZERO
    {
      BetaDifference(k, d, n);
      MulUnits(b[k]);
    }
    SumZero(|b|, MixDifferences(b, d, n));
  }

  lemma {:induction false} MixOfRising(a: seq<Complex>, j: nat)
    ensures PastSamples(a)(j) == MixSamples(RisingCoefficients(a))(j)
  {
    hide NewtonSum, PolyValue, RisingCoefficients, MixSamples;
    RisingForm(a, -(j as real));
    MixIsNewton(RisingCoefficients(a), j);
  }

  lemma {:induction false} TrimPolynomial(a: seq<Complex>, d: nat, y: Complex)
    requires DegreeBelow(a, d)
    ensures PolyValue(a, y) == PolyValue(if |a| <= d then a else a[..d], y)
  {
    hide PolyValue;
    if |a| > d {
      forall n: nat | n < |a|
        ensures a[n] == SampleAt(a[..d], n)
      {
        assert n >= d ==> SampleAt(a, n) == ZERO;
      }
      LongerPolynomial(a[..d], a, y);
    }
  }

  // ---------------------------------------------------------------- the recurrence

  ghost function ScaledSigned(s: nat -> Complex, d: nat, n: nat): nat -> Complex {
    (k: nat) => Mul(OfReal(Sign(d)), SignedTerms(s, d, n)(k))
  }

  lemma {:induction false} ScaledSignedTerm(s: nat -> Complex, d: nat, n: nat, k: nat)
    requires k <= d
    ensures ScaledSigned(s, d, n)(k) == Mul(RootRow(d)[k], s(n + k))
  {
    hide Mul, SignedBinomial, Sign, SignedBy, RootRow;
    var b := SignedBinomial(d, k);
    MulAssoc(OfReal(Sign(d)), OfReal(b), s(n + k));
    SignedProduct(d, b);
    assert RootRow(d)[k] == OfReal(SignedBy(d, b));
    assert SignedTerms(s, d, n)(k) == Mul(OfReal(b), s(n + k));
    assert ScaledSigned(s, d, n)(k) == Mul(OfReal(Sign(d)), SignedTerms(s, d, n)(k));
  }

  /** The samples of a polynomial of degree below d obey the binomial recurrence. */
  lemma {:induction false} PolynomialObeys(a: seq<Complex>, d: nat, n: nat)
    requires d >= 1 && DegreeBelow(a, d)
    ensures R.Obeys(HorizonSamples(a), BinomialRecurrence(d), n)
  {
    hide Mul, Difference, HorizonSamples, SignedBinomial, Sign, BinomialRecurrence, RootRow, DegreeBelow;
    var s, c := HorizonSamples(a), BinomialRecurrence(d);
    var e := if |a| <= d then a else a[..d];
    TrimmedSamples(a, d);
    DifferenceCongruence(s, HorizonSamples(e), d, n);
    DifferenceVanishes(e, d, n);
    BinomialSum(s, d, n);
    var f := ScaledSigned(s, d, n);
    SumScale(d + 1, OfReal(Sign(d)), SignedTerms(s, d, n), f);
    MulUnits(OfReal(Sign(d)));
    forall k: nat | k <= d
      ensures f(k) == Mul(RootRow(d)[k], s(n + k))
    {
      ScaledSignedTerm(s, d, n, k);
    }
    LeadingOne(d);
    MulUnits(s(n + d));
    SumCongruence(d, f, R.RecurrenceTerms(c, s, n));
    SumStep(d, f);
    assert Sum(d + 1, f) == ZERO;
    assert Add(Sum(d, f), s(n + d)) == Add(s(n + d), Sum(d, f));
  }

  lemma {:induction false} TrimmedSamples(a: seq<Complex>, d: nat)
    requires DegreeBelow(a, d)
    ensures forall h: nat :: HorizonSamples(a)(h) == HorizonSamples(if |a| <= d then a else a[..d])(h)
  {
    hide PolyValue, DegreeBelow;
    forall h: nat
      ensures HorizonSamples(a)(h) == HorizonSamples(if |a| <= d then a else a[..d])(h)
    {
      TrimPolynomial(a, d, OfReal(h as real));
    }
  }

  // ---------------------------------------------------------------- its Hankel matrix

  lemma {:induction false} RisingLeading(a: seq<Complex>)
    requires a != [] && a[|a| - 1] != ZERO
    ensures RisingCoefficients(a)[|a| - 1] != ZERO
    decreases |a|
  {
    hide Mul, TimesX;
    var b := RisingCoefficients(a[1..]);
    TimesXAt(b, a[0], |b|);
    if |a| > 1 {
      RisingLeading(a[1..]);
      if Mul(OfReal(|b| as real), b[|b| - 1]) == ZERO {
        NoZeroDivisors(OfReal(|b| as real), b[|b| - 1]);
      }
    }
  }

  /** The difference of order d - 1 of a polynomial with d coefficients keeps its leading one. */
  lemma {:induction false} LastDifference(a: seq<Complex>)
    requires a != [] && a[|a| - 1] != ZERO
    ensures Difference(HorizonSamples(a), |a| - 1, 0) != ZERO
  {
    hide Mul, Difference, HorizonSamples, MixSamples, RisingCoefficients, Sign;
    var d, b := |a|, Alternate(a);
    HorizonDifference(a, d - 1, 0);
    MixAnchorDifference(RisingCoefficients(b), d - 1);
    if b[d - 1] == ZERO {
      LeadingOne(d - 1);
      NoZeroDivisors(OfReal(Sign(d - 1)), a[d - 1]);
    }
    RisingLeading(b);
  }

  lemma {:induction false} PolynomialStops(a: seq<Complex>, d: nat)
    requires d >= 1 && DegreeBelow(a, d) && SampleAt(a, d - 1) != ZERO
    ensures StopsAt(HorizonSamples(a), d)
  {
    hide Difference, HorizonSamples, DegreeBelow;
    var s, e := HorizonSamples(a), if |a| <= d then a else a[..d];
    TrimmedSamples(a, d);
    assert |e| == d && e[d - 1] == a[d - 1];
    LastDifference(e);
    DifferenceCongruence(s, HorizonSamples(e), d - 1, 0);
    forall i: nat
      ensures Difference(s, d, i) == ZERO
    {
      DifferenceVanishes(e, d, i);
      DifferenceCongruence(s, HorizonSamples(e), d, i);
    }
  }

  /** The Hankel matrix of the size of the degree plus one is never singular. */
  lemma {:induction false} HankelOfPolynomial(u: seq<Complex>, a: seq<Complex>, d: nat)
    requires d >= 1 && 2 * d <= |u| && forall n: nat :: n < |u| ==> u[n] == AtHorizon(a, n)
    requires DegreeBelow(a, d) && SampleAt(a, d - 1) != ZERO
    ensures !Singular(R.Hankel(u, d))
  {
    hide Mul, AtHorizon, StopsAt, DegreeBelow;
    var H, s := R.Hankel(u, d), HorizonSamples(a);
    PolynomialStops(a, d);
    forall x: Vector | |x| == d && InKernel(H, x)
      ensures AllZeros(x)
    {
      forall i: nat | i < d
        ensures Windows(x, s)(i) == ZERO
      {
        assert SolvesRow(H, ZeroVector(d), x, i);
        KernelWindow(u, a, x, i);
      }
      WindowsDecideWeights(x, s, d);
    }
  }

  lemma {:induction false} KernelWindow(u: seq<Complex>, a: seq<Complex>, x: Vector, i: nat)
    requires i < |x| && 2 * |x| <= |u| && forall n: nat :: n < |u| ==> u[n] == AtHorizon(a, n)
    ensures Windows(x, HorizonSamples(a))(i) == Dot(R.Hankel(u, |x|)[i], x)
  {
    hide Mul, AtHorizon;
    var row, s := R.Hankel(u, |x|)[i], HorizonSamples(a);
    forall j: nat | j < |x|
      ensures Products(row, x)(j) == R.RecurrenceTerms(x, s, i)(j)
    {
      assert row[j] == u[i + j] == AtHorizon(a, i + j);
      MulComm(row[j], x[j]);
    }
    SumCongruence(|x|, Products(row, x), R.RecurrenceTerms(x, s, i));
  }

  // ---------------------------------------------------------------- its roots

  function Ones(d: nat): (roots: seq<Complex>)
    ensures |roots| == d && forall i :: 0 <= i < d ==> roots[i] == ONE
  {
    seq(d, i => ONE)
  }

  lemma {:induction false} RowZero()
    ensures RootRow(0) == [ONE]
  {
    LeadingOne(0);
  }

  lemma {:induction false} OnesPolynomial(d: nat)
    ensures MonicPoly(Ones(d)) == RootRow(d)
  {
    hide Mul, SignedBinomial, RootRow, TimesLinear, Sign, Ones;
    if d == 0 {
      RowZero();
      NoRoots(Ones(0));
    } else {
      OnesPolynomial(d - 1);
      OnesStep(d);
      forall k: nat | k <= d
        ensures TimesLinear(RootRow(d - 1), ONE)[k] == RootRow(d)[k]
      {
        NextRow(d - 1, k);
      }
      assert TimesLinear(RootRow(d - 1), ONE) == RootRow(d);
    }
  }

  lemma {:induction false} NoRoots(roots: seq<Complex>)
    requires |roots| == 0
    ensures MonicPoly(roots) == [ONE]
  {
  }

  lemma {:induction false} OnesStep(d: nat)
    requires d > 0
    ensures MonicPoly(Ones(d)) == TimesLinear(MonicPoly(Ones(d - 1)), ONE)
  {
    hide Mul, TimesLinear;
    assert Ones(d)[1..] == Ones(d - 1);
  }

  lemma {:induction false} TimesOne(p: seq<Complex>, k: nat)
    requires k <= |p|
    ensures TimesLinear(p, ONE)[k] == Sub(SampleAt([ZERO] + p, k), SampleAt(p, k))
  {
    hide Mul;
    MulUnits(SampleAt(p, k));
  }

  /** Pascal's rule, with the signs of (x - 1)^d. */
  lemma {:induction false} NextRow(d: nat, k: nat)
    requires k <= d + 1
    ensures TimesLinear(RootRow(d), ONE)[k] == RootRow(d + 1)[k]
  {
    hide Mul, SignedBinomial, RootRow, TimesLinear;
    var p := RootRow(d);
    TimesOne(p, k);
    SignedPascal(d, k);
    SignedBeyond(d, d + 1);
    var x, y := if k > 0 then SignedBinomial(d, k - 1) else 0.0, SignedBinomial(d, k);
    assert SampleAt([ZERO] + p, k) == OfReal(SignedBy(d, x));
    assert SampleAt(p, k) == OfReal(SignedBy(d, y));
    assert RootRow(d + 1)[k] == OfReal(SignedBy(d + 1, SignedBinomial(d + 1, k)));
  }

  /** The denominator built from the binomial recurrence is (1 - z)^d. */
  lemma {:induction false} OnesAreExact(rm: R.Rational, init: seq<Complex>, d: nat)
    requires d >= 1 && R.FromRecurrence(rm, BinomialRecurrence(d), init)
    ensures ExactRoots(rm, Ones(d), 0.0)
  {
    hide MonicPoly, R.Convolution, RootRow;
    OnesPolynomial(d);
    LeadingOne(d);
    var p := Reversed(rm.Q);
    forall j: nat | j <= d
      ensures p[j] == RootRow(d)[j]
    {
      assert p[j] == rm.Q[d - j];
    }
    assert p == RootRow(d);
  }

  // ---------------------------------------------------------------- all carriers

  ghost predicate PastOfPolynomial(uPast: seq<Complex>, a: seq<Complex>) {
    forall j: nat :: j < |uPast| ==> uPast[j] == PolyValue(a, OfReal(-(j as real)))
  }

  lemma {:induction false} NewtonOfDegree(uPast: seq<Complex>, a: seq<Complex>, K: nat, h: real)
    requires DegreeBelow(a, K) && PastOfPolynomial(uPast, a) && |uPast| >= K
    ensures NewtonValue(Samples(uPast), K, h) == PolyValue(a, OfReal(h))
  {
    hide NewtonValue, PolyValue, DegreeBelow;
    var e := if |a| <= K then a else a[..K];
    forall j: nat | j < K
      ensures Samples(uPast)(j) == PastSamples(e)(j)
    {
      TrimPolynomial(a, K, OfReal(-(j as real)));
    }
    NewtonPrefix(Samples(uPast), PastSamples(e), K, h);
    NewtonExtrapolates(e, K, h);
    TrimPolynomial(a, K, OfReal(h));
  }

  /** Main result: on past samples of a polynomial the Newton carrier with K differences is
      that polynomial at every horizon exactly when its degree is below K. */
  lemma {:induction false} NewtonIsSectionExactly(uPast: seq<Complex>, a: seq<Complex>, K: nat)
    requires 0 < K <= |uPast| && PastOfPolynomial(uPast, a)
    ensures (forall h: nat :: NewtonValue(Samples(uPast), K, h as real) == AtHorizon(a, h)) <==> DegreeBelow(a, K)
  {
    hide PolyValue, PastOfPolynomial, Nested, NewtonSum;
    if DegreeBelow(a, K) {
      forall h: nat
        ensures NewtonValue(Samples(uPast), K, h as real) == AtHorizon(a, h)
      {
        NewtonOfDegree(uPast, a, K, h as real);
      }
    }
    if forall h: nat :: NewtonValue(Samples(uPast), K, h as real) == AtHorizon(a, h) {
      var c := Nested(AnchorDifferences(Samples(uPast)), 0, K);
      forall h: nat
        ensures AtHorizon(c, h) == AtHorizon(a, h)
      {
        NewtonIsPolynomial(AnchorDifferences(Samples(uPast)), K, h as real);
        assert NewtonValue(Samples(uPast), K, h as real) == AtHorizon(a, h);
      }
      PolynomialIdentity(c, a, |c| + |a|);
      forall n: nat | n >= K
        ensures SampleAt(a, n) == ZERO
      {
        assert SampleAt(c, n) == SampleAt(a, n);
      }
    }
  }

  /** Newton's carrier on d or more past samples, cut by the recurrence order d. */
  lemma {:induction false} NewtonOfPolynomial(uPast: seq<Complex>, a: seq<Complex>, d: nat, h: real)
    requires d >= 1 && DegreeBelow(a, d) && PastOfPolynomial(uPast, a) && |uPast| >= d
    ensures NewtonValue(Samples(uPast), UsedDifferences(|uPast|, |uPast|, d), h) == PolyValue(a, OfReal(h))
  {
    hide NewtonValue, PolyValue;
    NewtonOfDegree(uPast, a, UsedDifferences(|uPast|, |uPast|, d), h);
  }

  /** The engine ran on samples of the polynomial a, of degree d - 1, at tolerance zero with
      an exact root finder and nonsingular Hankel matrices of all smaller sizes. */
  ghost predicate EngineOnPolynomial(out: Pipeline, u: seq<Complex>, a: seq<Complex>, d: nat, N_max: int,
                                     find: R.Rational -> seq<Complex>) {
    && 1 <= d <= N_max && 2 * d <= |u| && DegreeBelow(a, d) && SampleAt(a, d - 1) != ZERO
    && (forall n: nat :: n < |u| ==> u[n] == AtHorizon(a, n))
    && (forall m: nat :: 2 <= m < d ==> !Singular(R.Hankel(u, m)))
    && R.Detected(u, N_max, 0.0, |out.rec|) && Built(out, u, find, 0.0)
    && find(out.rational) == Ones(d)
  }

  /** Main result: companion orbit, long division and mode sum are all the polynomial. */
  lemma {:induction false} CarriersOfPolynomial(out: Pipeline, u: seq<Complex>, a: seq<Complex>, d: nat, N_max: int,
                                                find: R.Rational -> seq<Complex>, h: nat)
    requires EngineOnPolynomial(out, u, a, d, N_max, find)
    ensures out.rec == BinomialRecurrence(d)
    ensures R.Continuation(out.rec, out.comp.Y0)(h) == AtHorizon(a, h)
    ensures R.Series(out.rational)(h) == AtHorizon(a, h)
    ensures SpectrumSequence(out.spectrum.modes)(h) == AtHorizon(a, h)
  {
    hide R.Detected, R.Fits, R.IsCompanion, WellFormed, R.FromRecurrence, ExactRoots, SpectrumSequence, R.Series,
         R.Continuation, Singular, R.Obeys, R.Hankel, AtHorizon, BinomialRecurrence, DegreeBelow;
    var s, c := HorizonSamples(a), BinomialRecurrence(d);
    forall n: nat
      ensures R.Obeys(s, c, n)
    {
      PolynomialObeys(a, d, n);
    }
    assert s(h) == AtHorizon(a, h);
    HankelOfPolynomial(u, a, d);
    forall n: nat | n < |u|
      ensures u[n] == s(n)
    {
      assert u[n] == AtHorizon(a, n);
    }
    PipelineRecovers(out, s, u, c, N_max, find, h);
    SamplesObey(s, u, c);
    R.Recovery(u, c, N_max, |out.rec|, out.rec);
    OnesAreExact(out.rational, u[..|out.rec|], d);
  }

  lemma {:induction false} SamplesObey(s: nat -> Complex, u: seq<Complex>, c: Vector)
    requires forall n: nat :: n < |u| ==> u[n] == s(n)
    requires forall n: nat :: R.Obeys(s, c, n)
    ensures forall n: nat :: n + |c| < |u| ==> R.Obeys(Samples(u), c, n)
  {
    hide Mul;
    forall n: nat | n + |c| < |u|
      ensures R.Obeys(Samples(u), c, n)
    {
      assert R.Obeys(s, c, n);
      SumCongruence(|c|, R.RecurrenceTerms(c, s, n), R.RecurrenceTerms(c, Samples(u), n));
    }
  }
}
