/** The anchor germ of a market state and its way through extraction and normalization
    (src/engine/pipeline.cpp, src/engine/extraction_engine.cpp): five channels, each with
    the Taylor coefficients of its backward differences, go through the separable extractor
    and come back as a jet. */
module Anchor {
  import opened ComplexField
  import opened Combinatorics
  import opened MultiIndex
  import opened Polynomials
  import opened PhaseTorus
  import opened JetLattice
  import opened Extractors
  import opened NewtonGregory
  import opened Results

  const CHANNELS: nat := 5

  datatype TorusConfig = TorusConfig(order: int, M: int, rho: real)

  function Max(a: int, b: int): int {
    if a < b then b else a
  }

  function Min(a: int, b: int): int {
    if b < a then b else a
  }

  /** The order used at an anchor: the configured one, cut to the bars before the anchor,
      and never below one. */
  function OrderMax(t: int, order: int): (k: nat)
    ensures k >= 1 && (t >= 1 ==> k <= t) && (order >= 1 ==> k <= order)
  {
    Max(1, Min(order, Max(1, Min(t, order))))
  }

  function RingSize(M: int): (m: nat)
    ensures m >= 8 && m >= M
  {
    Max(8, M)
  }

  function Clamp(t: int, lo: int, hi: int): int
    requires lo <= hi
  {
    if t < lo then lo else if t > hi then hi else t
  }

  function DivReal(a: Complex, r: real): Complex
    requires r != 0.0
  {
    Complex(a.re / r, a.im / r)
  }

  // ---------------------------------------------------------------- germ coefficients

  /** The bars of one channel up to t, as far as the channel reaches. */
  function History(x: seq<real>, t: nat): (hist: seq<Complex>)
    ensures |hist| == if t + 1 < |x| then t + 1 else |x|
    ensures forall i :: 0 <= i < |hist| ==> hist[i] == OfReal(x[i])
  {
    var n := if t + 1 < |x| then t + 1 else |x|;
    seq(n, i requires 0 <= i < n => OfReal(x[i]))
  }

  /** The samples looking back from the anchor: bar t, bar t-1, ... then zeros. */
  ghost function Lookback(x: seq<real>, t: nat): nat -> Complex {
    Past(History(x, t), |History(x, t)| - 1)
  }

  ghost function GermCoefficient(x: seq<real>, t: nat, n: nat): Complex {
    DivReal(Difference(Lookback(x, t), n, 0), Factorial(n) as real)
  }

  /** The coefficients  nabla^n x(t) / n!,  n = 0..order. */
  ghost function GermCoefficients(x: seq<real>, t: nat, order: nat): (c: seq<Complex>)
    ensures |c| == order + 1
    ensures forall n: nat :: n <= order ==> c[n] == GermCoefficient(x, t, n)
  {
    seq(order + 1, n requires 0 <= n <= order => GermCoefficient(x, t, n))
  }

  ghost function AnchorGerms(xs: seq<seq<real>>, n: nat, tAnchor: int, order: nat): (coeffs: seq<seq<Complex>>)
    ensures |coeffs| == |xs|
    ensures forall q :: 0 <= q < |coeffs| ==> |coeffs[q]| == order + 1
  {
    seq(|xs|, q requires 0 <= q < |xs| =>
        if n == 0 then seq(order + 1, i => ZERO) else GermCoefficients(xs[q], Clamp(tAnchor, 0, n - 1), order))
  }

  /** `build_anchor_local_coeffs_per_channel`. */
  method AnchorCoefficients(xs: seq<seq<real>>, n: nat, tAnchor: int, order: nat) returns (coeffs: seq<seq<Complex>>)
    ensures coeffs == AnchorGerms(xs, n, tAnchor, order)
  {
    hide Difference;
    coeffs := seq(|xs|, q => seq(order + 1, i => ZERO));
    if n == 0 {
      return;
    }
    var t := Clamp(tAnchor, 0, n - 1);
    var q := 0;
    while q < |xs|
      invariant 0 <= q <= |xs| == |coeffs|
      invariant forall p :: 0 <= p < q ==> coeffs[p] == GermCoefficients(xs[p], t, order)
    {
      var C := ChannelCoefficients(xs[q], t, order);
      coeffs := coeffs[q := C];
      q := q + 1;
    }
  }

  method ChannelCoefficients(x: seq<real>, t: nat, order: nat) returns (C: seq<Complex>)
    ensures C == GermCoefficients(x, t, order)
  {
    hide Difference, Past;
    var hist := [];
    var i := 0;
    while i <= t && i < |x|
      invariant 0 <= i <= |x| && i <= t + 1 && hist == History(x, t)[..i]
    {
      hist := hist + [OfReal(x[i])];
      i := i + 1;
    }
    assert hist == History(x, t);
    var nabla := FiniteBackwardDifferences(hist, |hist| - 1, order);
    NoHistory(x, t);
    C := [];
    var k := 0;
    while k <= order
      invariant 0 <= k <= order + 1 && C == GermCoefficients(x, t, order)[..k]
    {
      var f := FactorialInt(k);
      C := C + [DivReal(nabla[k], f)];
      k := k + 1;
    }
    assert C == GermCoefficients(x, t, order);
  }

  /** An empty channel has only zero differences. */
  lemma {:induction false} NoHistory(x: seq<real>, t: nat)
    ensures |History(x, t)| == 0 ==> forall k: nat :: Difference(Lookback(x, t), k, 0) == ZERO
  {
    if |History(x, t)| == 0 {
      forall k: nat
        ensures Difference(Lookback(x, t), k, 0) == ZERO
      {
        FlatDifference(Lookback(x, t), k, 0, k + 1, ZERO);
      }
    }
  }

  /** Up to degree t the differences see nothing but bars 0..t. */
  lemma {:induction false} CoefficientUsesBars(x: seq<real>, t: nat, n: nat)
    requires n <= t < |x|
    ensures forall j: nat :: j <= n ==> Lookback(x, t)(j) == OfReal(x[t - j])
    ensures GermCoefficient(x, t, n)
         == DivReal(Sum(n + 1, SignedTerms(Lookback(x, t), n, 0)), Factorial(n) as real)
  {
    hide Difference, SignedTerms, Factorial, DivReal;
    BinomialSum(Lookback(x, t), n, 0);
  }

  /** At the very first bar the order is still one, and the missing bar counts as zero:
      the degree-one coefficient is the level itself. */
  lemma {:induction false} FirstBarSlope(x: seq<real>, order: int)
    requires |x| > 0
    ensures OrderMax(0, order) == 1
    ensures GermCoefficient(x, 0, 1) == GermCoefficient(x, 0, 0) == OfReal(x[0])
  {
    hide Difference, Lookback, DivReal, Factorial, OrderMax;
    FirstLookback(x);
    FirstDifferences(Lookback(x, 0));
    assert OrderMax(0, order) == 1 by { FirstOrder(order); }
    SmallFactorials();
    DivByOne(OfReal(x[0]));
  }

  /** Every coefficient the anchor uses is a difference of existing bars exactly from the
      second bar on; then it is the binomial sum of the bars it names. */
  lemma {:induction false} CoefficientsUseBarsExactly(x: seq<real>, t: nat, order: int)
    requires t < |x|
    ensures (forall n: nat :: n <= OrderMax(t, order) ==> UsesBars(x, t, n)) <==> t >= 1
  {
    hide GermCoefficient, SignedTerms, DivReal, Factorial, Lookback;
    forall n: nat | n <= OrderMax(t, order) && t >= 1
      ensures UsesBars(x, t, n)
    {
      CoefficientUsesBars(x, t, n);
    }
    if t == 0 {
      assert !UsesBars(x, t, OrderMax(t, order));
    }
  }

  ghost predicate UsesBars(x: seq<real>, t: nat, n: nat)
    requires t < |x|
  {
    && n <= t
    && (forall j: nat :: j <= n ==> Lookback(x, t)(j) == OfReal(x[t - j]))
    && GermCoefficient(x, t, n) == DivReal(Sum(n + 1, SignedTerms(Lookback(x, t), n, 0)), Factorial(n) as real)
  }

  /** Seen from outside: on a flat channel all slopes up to the order used vanish exactly
      from the second bar on. */
  lemma {:induction false} FlatChannelExactly(x: seq<real>, t: nat, order: int, v: real)
    requires t < |x| && v != 0.0 && forall i :: 0 <= i < |x| ==> x[i] == v
    ensures (forall n: nat :: 1 <= n <= OrderMax(t, order) ==> GermCoefficient(x, t, n) == ZERO) <==> t >= 1
  {
    hide Lookback, GermCoefficient, Difference;
    if t == 0 {
      FirstBarSlope(x, order);
      FirstBarOnly(x, v);
      assert 1 <= OrderMax(t, order);
    } else {
      forall n: nat | 1 <= n <= OrderMax(t, order)
        ensures GermCoefficient(x, t, n) == ZERO
      {
        FlatSlope(x, t, n, v);
      }
    }
  }

  lemma {:induction false} FirstBarOnly(x: seq<real>, v: real)
    requires |x| > 0 && x[0] == v && v != 0.0 && GermCoefficient(x, 0, 1) == OfReal(x[0])
    ensures GermCoefficient(x, 0, 1) != ZERO
  {
  }

  lemma {:induction false} FlatSlope(x: seq<real>, t: nat, n: nat, v: real)
    requires 1 <= n <= t < |x| && forall i :: 0 <= i < |x| ==> x[i] == v
    ensures GermCoefficient(x, t, n) == ZERO
  {
    hide Difference, Factorial, SignedTerms, Lookback, DivReal, Sum;
    var p := Lookback(x, t);
    CoefficientUsesBars(x, t, n);
    FlatDifference(p, n, 0, n + 1, OfReal(v));
    ZeroOver(Factorial(n) as real);
  }

  lemma {:induction false} ZeroOver(f: real)
    requires f != 0.0
    ensures DivReal(ZERO, f) == ZERO
  {
  }

  lemma {:induction false} FirstOrder(order: int)
    ensures OrderMax(0, order) == 1
  {
  }

  lemma {:induction false} FirstLookback(x: seq<real>)
    requires |x| > 0
    ensures Lookback(x, 0)(0) == OfReal(x[0]) && Lookback(x, 0)(1) == ZERO
  {
  }

  lemma {:induction false} FirstDifferences(p: nat -> Complex)
    ensures Difference(p, 0, 0) == p(0) && Difference(p, 1, 0) == Sub(p(0), p(1))
  {
  }

  lemma {:induction false} SmallFactorials()
    ensures Factorial(0) == Factorial(1) == 1
  {
  }

  lemma {:induction false} DivByOne(a: Complex)
    ensures DivReal(a, 1.0) == a
  {
  }

  // ---------------------------------------------------------------- germs as functions

  /** The germ's loop: acc += c_k zp, zp *= z, from term k on. */
  function EvalGerm(c: seq<Complex>, z: Complex, k: nat, acc: Complex, zp: Complex): Complex
    requires k <= |c|
    decreases |c| - k
  {
    if k == |c| then acc else EvalGerm(c, z, k + 1, Add(acc, Mul(c[k], zp)), Mul(zp, z))
  }

  function Germ(c: seq<Complex>): Complex -> Complex {
    (z: Complex) => EvalGerm(c, z, 0, ZERO, ONE)
  }

  lemma {:induction false} GermLoop(c: seq<Complex>, z: Complex, k: nat)
    requires k <= |c|
    ensures EvalGerm(c, z, k, Sum(k, PolyTerms(c, z)), Pow(z, k)) == PolyValue(c, z)
    decreases |c| - k
  {
    hide Mul;
    if k < |c| {
      MulComm(Pow(z, k), z);
      GermLoop(c, z, k + 1);
    }
  }

  lemma {:induction false} GermIsPolynomial(c: seq<Complex>)
    ensures PolynomialAt(Germ(c), ZERO, c)
  {
    hide Mul, Pow, PolyValue, EvalGerm;
    forall y: Complex
      ensures Germ(c)(Add(ZERO, y)) == PolyValue(c, y)
    {
      assert Add(ZERO, y) == y;
      GermStarts(c, y);
      GermLoop(c, y, 0);
    }
  }

  lemma {:induction false} GermStarts(c: seq<Complex>, z: Complex)
    ensures Sum(0, PolyTerms(c, z)) == ZERO && Pow(z, 0) == ONE
  {
  }

  function Germs(coeffs: seq<seq<Complex>>): (G: seq<Complex -> Complex>)
    ensures |G| == |coeffs| && forall q :: 0 <= q < |G| ==> G[q] == Germ(coeffs[q])
  {
    seq(|coeffs|, q requires 0 <= q < |coeffs| => Germ(coeffs[q]))
  }

  function Origin(Q: nat): (z: seq<Complex>)
    ensures |z| == Q && forall q :: 0 <= q < Q ==> z[q] == ZERO
  {
    seq(Q, q => ZERO)
  }

  // ---------------------------------------------------------------- the round trip

  ghost function Constants(coeffs: seq<seq<Complex>>): nat -> Complex {
    (q: nat) => if q < |coeffs| && |coeffs[q]| > 0 then coeffs[q][0] else ZERO
  }

  /** The Taylor coefficient at alpha of the sum of the channel germs. */
  ghost function TaylorAt(coeffs: seq<seq<Complex>>, alpha: Index): Complex
    requires |alpha| == |coeffs| && forall q :: 0 <= q < |alpha| ==> alpha[q] < |coeffs[q]|
  {
    if AllZero(alpha) then Sum(|coeffs|, Constants(coeffs))
    else if exists q: nat :: OnAxis(alpha, q) then
      var q: nat :| OnAxis(alpha, q); coeffs[q][alpha[q]]
    else ZERO
  }

  lemma {:induction false} OnAxisUnique(alpha: Index, p: nat, q: nat)
    requires OnAxis(alpha, p) && OnAxis(alpha, q)
    ensures p == q
  {
  }

  lemma {:induction false} OnAxisDegree(alpha: Index, q: nat)
    requires OnAxis(alpha, q)
    ensures Degree(alpha) == alpha[q]
    decreases |alpha|
  {
    if q == 0 {
      AllZeroDegree(alpha[1..]);
    } else {
      assert OnAxis(alpha[1..], q - 1);
      OnAxisDegree(alpha[1..], q - 1);
    }
  }

  lemma {:induction false} AllZeroDegree(alpha: Index)
    requires AllZero(alpha)
    ensures Degree(alpha) == 0
    decreases |alpha|
  {
    if alpha != [] {
      AllZeroDegree(alpha[1..]);
    }
  }

  /** Below the aliasing order the extracted coefficient at alpha is rho^|alpha| times the
      Taylor coefficient. */
  lemma {:induction false} GermsExtracted(coeffs: seq<seq<Complex>>, rho: real, order: nat, M: nat, w: Complex,
                                          alpha: Index)
    requires Primitive(w, M) && order < M && InSimplex(alpha, |coeffs|, order)
    requires forall q :: 0 <= q < |coeffs| ==> |coeffs[q]| == order + 1
    ensures forall q :: 0 <= q < |alpha| ==> alpha[q] < |coeffs[q]|
    ensures SeparableCoefficient(Germs(coeffs), Origin(|coeffs|), rho, M, w, alpha)
         == Mul(Pow(OfReal(rho), Degree(alpha)), TaylorAt(coeffs, alpha))
  {
    hide Mul, Inv, AxisCoefficient, PolynomialAt, Germ, Pow, Degree;
    var G, z := Germs(coeffs), Origin(|coeffs|);
    forall q: nat | q < |alpha|
      ensures alpha[q] < |coeffs[q]|
    {
      DegreeBounds(alpha, q);
    }
    forall q: nat, a: nat | q < |coeffs| && a <= order
      ensures AxisCoefficient(G[q], z[q], rho, M, w, a) == Mul(Pow(OfReal(rho), a), coeffs[q][a])
    {
      GermIsPolynomial(coeffs[q]);
      PolynomialExtraction(G[q], z[q], coeffs[q], rho, M, w, a);
    }
    if AllZero(alpha) {
      AllZeroDegree(alpha);
      PowZero(OfReal(rho));
      forall q: nat | q < |coeffs|
        ensures ConstantTerms(G, z, rho, M, w)(q) == Constants(coeffs)(q)
      {
        MulUnits(coeffs[q][0]);
      }
      SumCongruence(|coeffs|, ConstantTerms(G, z, rho, M, w), Constants(coeffs));
      MulUnits(Sum(|coeffs|, Constants(coeffs)));
    } else if exists q: nat :: OnAxis(alpha, q) {
      var q: nat :| OnAxis(alpha, q);
      OnAxisDegree(alpha, q);
      forall p: nat | OnAxis(alpha, p)
        ensures p == q
      {
        OnAxisUnique(alpha, p, q);
      }
    } else {
      MulUnits(Pow(OfReal(rho), Degree(alpha)));
    }
  }

  lemma {:induction false} PowZero(x: Complex)
    ensures Pow(x, 0) == ONE
  {
  }

  /** e holds at every index the ring means of the channel germs, and zeros elsewhere. */
  ghost predicate ExtractionOf(e: Extracted, xs: seq<seq<real>>, n: nat, tAnchor: int, cfg: TorusConfig, w: Complex)
    requires w != ZERO && |xs| == CHANNELS
  {
    && e.Q == CHANNELS && e.order == OrderMax(tAnchor, cfg.order) && e.rho == cfg.rho
    && Supported(e.A, CHANNELS, e.order) && |e.A| == DenseSize(CHANNELS, e.order)
    && forall a: Index {:trigger Coef(e.A, CHANNELS, e.order, a)} :: InSimplex(a, CHANNELS, e.order) ==>
         Coef(e.A, CHANNELS, e.order, a)
           == SeparableCoefficient(Germs(AnchorGerms(xs, n, tAnchor, e.order)), Origin(CHANNELS), cfg.rho,
                                   RingSize(cfg.M), w, a)
  }

  lemma {:induction false} ExtractionOnce(e: Extracted, f: Extracted, xs: seq<seq<real>>, n: nat, tAnchor: int,
                                          cfg: TorusConfig, w: Complex)
    requires w != ZERO && |xs| == CHANNELS
    requires ExtractionOf(e, xs, n, tAnchor, cfg, w) && ExtractionOf(f, xs, n, tAnchor, cfg, w)
    ensures e == f
  {
    hide Supported, Coef, SeparableCoefficient, AnchorGerms;
    forall a: Index | InSimplex(a, CHANNELS, e.order)
      ensures Coef(e.A, CHANNELS, e.order, a) == Coef(f.A, CHANNELS, e.order, a)
    {
    }
    SupportedExtensional(e.A, f.A, CHANNELS, e.order);
  }

  /** One jet is the normalization of a given extraction. */
  lemma {:induction false} NormalizedOnce(J: Jet, K: Jet, e: Extracted)
    requires IsNormalized(J, e) && IsNormalized(K, e) && SupportedJet(J) && SupportedJet(K)
    ensures J == K
  {
    hide Mul, Coef, InverseRadius, Degree, Supported;
    forall a: Index | InSimplex(a, J.Q, J.order)
      ensures At(J, a) == At(K, a)
    {
    }
    SameJet(J, K);
  }

  /** `extract_anchor_phase_torus_coeffs`. */
  method ExtractAnchor(xs: seq<seq<real>>, n: nat, tAnchor: int, cfg: TorusConfig, w: Complex)
    returns (r: Result<Extracted>)
    requires |xs| == CHANNELS && w != ZERO
    ensures r.Ok? <==> cfg.rho > 0.0
    ensures r.Ok? ==> r.value.Q == CHANNELS && r.value.order == OrderMax(tAnchor, cfg.order) && r.value.rho == cfg.rho
    ensures r.Ok? ==> Supported(r.value.A, CHANNELS, r.value.order)
    ensures r.Ok? ==> ExtractionOf(r.value, xs, n, tAnchor, cfg, w)
    ensures r.Ok? && Primitive(w, RingSize(cfg.M)) && r.value.order < RingSize(cfg.M) ==>
      forall a: Index {:trigger Coef(r.value.A, CHANNELS, r.value.order, a)} ::
        InSimplex(a, CHANNELS, r.value.order) ==>
        IsTaylor(Coef(r.value.A, CHANNELS, r.value.order, a), Pow(OfReal(cfg.rho), Degree(a)),
                 AnchorGerms(xs, n, tAnchor, r.value.order), a)
  {
    hide Mul, Inv, Coef, Supported, SeparableCoefficient, AnchorGerms, Primitive, TaylorAt, Pow, Degree;
    var order := OrderMax(tAnchor, cfg.order);
    var M := RingSize(cfg.M);
    var coeffs := AnchorCoefficients(xs, n, tAnchor, order);
    r := ExtractSeparable(Germs(coeffs), Origin(CHANNELS), cfg.rho, order, M, w);
    if r.Ok? {
      SupportedSize(r.value.A, CHANNELS, order);
    }
    if r.Ok? && Primitive(w, M) && order < M {
      SupportedSize(r.value.A, CHANNELS, order);
      forall a: Index | InSimplex(a, CHANNELS, order)
        ensures IsTaylor(Coef(r.value.A, CHANNELS, order, a), Pow(OfReal(cfg.rho), Degree(a)), coeffs, a)
      {
        GermsExtracted(coeffs, cfg.rho, order, M, w, a);
      }
    }
  }

  /** v is the Taylor coefficient at alpha, scaled. */
  ghost predicate IsTaylor(v: Complex, scale: Complex, coeffs: seq<seq<Complex>>, alpha: Index) {
    && |alpha| == |coeffs| && (forall q :: 0 <= q < |alpha| ==> alpha[q] < |coeffs[q]|)
    && v == Mul(scale, TaylorAt(coeffs, alpha))
  }

  /** J holds the Taylor coefficients of the channel germs. */
  ghost predicate TaylorJet(J: Jet, coeffs: seq<seq<Complex>>) {
    && J.Q == |coeffs| && SupportedJet(J) && (forall q :: 0 <= q < |coeffs| ==> |coeffs[q]| == J.order + 1)
    && forall a: Index {:trigger At(J, a)} :: InSimplex(a, J.Q, J.order) ==> IsTaylor(At(J, a), ONE, coeffs, a)
  }

  /** What is left of an extraction that threw. */
  function NothingExtracted(): Extracted {
    Extracted(0, 0, 0.0, [])
  }

  /** J is e with the radius divided out, coefficient by coefficient. */
  ghost predicate IsNormalized(J: Jet, e: Extracted) {
    && J.Q == e.Q && J.order == e.order && e.rho > 0.0 && Dense(J) && |e.A| == DenseSize(e.Q, e.order)
    && forall a: Index {:trigger At(J, a)} :: InSimplex(a, e.Q, e.order) ==>
         At(J, a) == Mul(Coef(e.A, e.Q, e.order, a), InverseRadius(e.rho, Degree(a)))
  }

  /** Main result, the anchor round trip: extraction on the torus followed by normalization
      returns the backward-difference coefficients the germs were built from. */
  method AnchorJet(xs: seq<seq<real>>, n: nat, tAnchor: int, cfg: TorusConfig, w: Complex)
    returns (r: Result<Jet>, extracted: Extracted)
    requires |xs| == CHANNELS && w != ZERO
    ensures r.Ok? <==> cfg.rho > 0.0
    ensures r.Ok? ==> r.value.Q == CHANNELS && r.value.order == OrderMax(tAnchor, cfg.order) && SupportedJet(r.value)
    ensures r.Ok? && Primitive(w, RingSize(cfg.M)) && r.value.order < RingSize(cfg.M) ==>
      TaylorJet(r.value, AnchorGerms(xs, n, tAnchor, r.value.order))
    ensures r.Ok? ==> IsNormalized(r.value, extracted) && ExtractionOf(extracted, xs, n, tAnchor, cfg, w)
    ensures r.NumericError? ==> extracted == NothingExtracted()
  {
    hide Mul, Inv, Coef, AnchorGerms, Primitive, TaylorAt, Pow, Degree, IsTaylor, InverseRadius, Supported,
         ExtractionOf;
    var e := ExtractAnchor(xs, n, tAnchor, cfg, w);
    if e.NumericError? {
      return NumericError, NothingExtracted();
    }
    extracted := e.value;
    var A := e.value.A;
    SupportedSize(A, CHANNELS, e.value.order);
    assert A[..DenseSize(CHANNELS, e.value.order)] == A;
    r := MakeJet(e.value);
    SupportedSize(r.value.coeff, CHANNELS, r.value.order);
    if Primitive(w, RingSize(cfg.M)) && r.value.order < RingSize(cfg.M) {
      ghost var coeffs := AnchorGerms(xs, n, tAnchor, r.value.order);
      GermLengths(xs, n, tAnchor, r.value.order);
      forall a: Index | InSimplex(a, CHANNELS, r.value.order)
        ensures IsTaylor(At(r.value, a), ONE, coeffs, a)
      {
        Normalized(Coef(A, CHANNELS, e.value.order, a), At(r.value, a), cfg.rho, coeffs, a);
      }
    }
  }

  lemma {:induction false} GermLengths(xs: seq<seq<real>>, n: nat, tAnchor: int, order: nat)
    ensures |AnchorGerms(xs, n, tAnchor, order)| == |xs|
    ensures forall q :: 0 <= q < |xs| ==> |AnchorGerms(xs, n, tAnchor, order)[q]| == order + 1
  {
  }

  lemma {:induction false} SupportedSize(A: seq<Complex>, Q: nat, order: nat)
    requires Supported(A, Q, order)
    ensures |A| == DenseSize(Q, order)
  {
  }

  lemma {:induction false} Normalized(raw: Complex, v: Complex, rho: real, coeffs: seq<seq<Complex>>, alpha: Index)
    requires rho > 0.0 && IsTaylor(raw, Pow(OfReal(rho), Degree(alpha)), coeffs, alpha)
    requires v == Mul(raw, InverseRadius(rho, Degree(alpha)))
    ensures IsTaylor(v, ONE, coeffs, alpha)
  {
    hide Mul, Pow, InverseRadius, TaylorAt, Degree;
    var s, c := Pow(OfReal(rho), Degree(alpha)), TaylorAt(coeffs, alpha);
    MulComm(s, c);
    MulAssoc(c, s, InverseRadius(rho, Degree(alpha)));
    InverseRadiusCancels(rho, Degree(alpha));
    MulUnits(c);
  }

  // ---------------------------------------------------------------- the smooth past

  function AxisIndex(Q: nat, d: nat): (alpha: Index)
    requires Q > 0
    ensures |alpha| == Q && alpha[0] == d && forall p :: 1 <= p < Q ==> alpha[p] == 0
  {
    [d] + Zeros(Q - 1)
  }

  lemma {:induction false} AxisIndexDegree(Q: nat, d: nat)
    requires Q > 0
    ensures Degree(AxisIndex(Q, d)) == d
  {
    assert AxisIndex(Q, d)[1..] == Zeros(Q - 1);
    AllZeroDegree(Zeros(Q - 1));
  }

  /** The array entry on the first channel's axis, zero above the order and past the array. */
  function AxisEntry(J: Jet, d: nat): Complex {
    if J.Q == 0 || J.order < d then ZERO else SampleAt(J.coeff, Flat(J.Q, J.order, AxisIndex(J.Q, d)))
  }

  /** On a dense jet that is the coefficient of the pure power. */
  lemma {:induction false} AxisEntryDense(J: Jet, d: nat)
    requires Dense(J) && J.Q > 0 && d <= J.order
    ensures AxisEntry(J, d) == At(J, AxisIndex(J.Q, d))
  {
    hide Degree;
    AxisIndexDegree(J.Q, d);
    FlatInDense(J.Q, J.order, AxisIndex(J.Q, d));
  }

  /** `axis_coefficient`, for any array. */
  method AxisProjection(J: Jet, d: nat) returns (v: Complex)
    ensures v == AxisEntry(J, d)
  {
    hide Degree, Volume;
    if J.Q == 0 || J.order < d || |J.coeff| == 0 {
      return ZERO;
    }
    var alpha := AxisIndex(J.Q, d);
    AxisIndexDegree(J.Q, d);
    SimplexInBox(J.Q, J.order, alpha);
    var layout := MakeLayout(J.Q, J.order);
    var idx := Flatten(alpha, layout);
    if idx >= |J.coeff| {
      return ZERO;
    }
    v := J.coeff[idx];
  }

  /** The n-th smooth coefficient a jet leaves in the past section. */
  function SmoothAt(J: Jet, nPhi: int, n: nat): Complex {
    if n < nPhi then AxisEntry(J, n) else ZERO
  }

  /** The A_phi part of `build_past_jet_state_cpu`, for a normalized jet of any size. */
  method SmoothPast(J: Jet, nPhi: int) returns (A: seq<Complex>)
    ensures |A| == Max(1, nPhi) && forall n: nat :: n < |A| ==> A[n] == SmoothAt(J, nPhi, n)
  {
    hide AxisEntry;
    A := seq(Max(1, nPhi), i => ZERO);
    var n := 0;
    while n < nPhi
      invariant 0 <= n && (n <= nPhi || n == 0) && |A| == Max(1, nPhi)
      invariant forall k: nat :: k < n ==> A[k] == SmoothAt(J, nPhi, k)
      invariant forall k: nat :: n <= k < |A| ==> A[k] == ZERO
    {
      var v := AxisProjection(J, n);
      A := A[n := v];
      n := n + 1;
    }
  }

  /** What the smooth past of an anchor jet holds: all five levels in the constant, and from
      there on the first channel alone. */
  lemma {:induction false} SmoothOfAnchor(J: Jet, coeffs: seq<seq<Complex>>, nPhi: int, n: nat)
    requires TaylorJet(J, coeffs) && J.Q > 0 && n < nPhi && n <= J.order
    ensures Dense(J) && |coeffs[0]| == J.order + 1
    ensures SmoothAt(J, nPhi, n) == if n == 0 then Sum(|coeffs|, Constants(coeffs)) else coeffs[0][n]
  {
    hide Mul, Degree, Supported, AxisEntry;
    SupportedSize(J.coeff, J.Q, J.order);
    var alpha := AxisIndex(J.Q, n);
    AxisIndexDegree(J.Q, n);
    AxisEntryDense(J, n);
    assert IsTaylor(At(J, alpha), ONE, coeffs, alpha);
    MulUnits(TaylorAt(coeffs, alpha));
    if n > 0 {
      assert OnAxis(alpha, 0);
      assert !AllZero(alpha);
      forall p: nat | OnAxis(alpha, p)
        ensures p == 0
      {
        OnAxisUnique(alpha, p, 0);
      }
    }
  }

  /** The constant of the past is the sum of the five channels at the anchor bar. */
  lemma {:induction false} AnchorLevel(xs: seq<seq<real>>, n: nat, t: nat, order: nat, q: nat)
    requires q < |xs| && t < n && |xs[q]| == n
    ensures AnchorGerms(xs, n, t, order)[q][0] == OfReal(xs[q][t])
  {
    var x := xs[q];
    assert Lookback(x, t)(0) == OfReal(x[t]);
    assert Difference(Lookback(x, t), 0, 0) == OfReal(x[t]);
    assert AnchorGerms(xs, n, t, order)[q][0] == GermCoefficient(x, t, 0);
  }
}
