/** Backward differences (src/math/finite_differences.cpp), the rising-factorial basis
    (src/math/newton_gregory.cpp) and the Newton carrier of the evolution equality
    (src/engine/trajectorizer_engine.cpp). */
module NewtonGregory {
  import opened ComplexField
  import opened Combinatorics
  import opened Polynomials

  // ---------------------------------------------------------------- backward differences

  /** The k-th backward difference of the past p, j steps back: p(0) is the anchor and p(j)
      the sample j steps before it. */
  ghost function Difference(p: nat -> Complex, k: nat, j: nat): Complex {
    if k == 0 then p(j) else Sub(Difference(p, k - 1, j), Difference(p, k - 1, j + 1))
  }

  function Sign(i: nat): real {
    if i % 2 == 0 then 1.0 else -1.0
  }

  /** (-1)^i C(k, i). */
  function SignedBinomial(k: nat, i: nat): real {
    Sign(i) * Choose(k, i) as real
  }

  ghost function SignedTerms(p: nat -> Complex, k: nat, j: nat): nat -> Complex {
    (i: nat) => Mul(OfReal(SignedBinomial(k, i)), p(j + i))
  }

  lemma {:induction false} SignedPascal(k: nat, i: nat)
    ensures SignedBinomial(k + 1, i) == SignedBinomial(k, i) - (if i == 0 then 0.0 else SignedBinomial(k, i - 1))
  {
    hide Choose;
    PascalRule(k, i);
    if i > 0 {
      assert Sign(i) == -Sign(i - 1);
    }
  }

  lemma {:induction false} PascalRule(k: nat, i: nat)
    ensures Choose(k + 1, i) == Choose(k, i) + if i == 0 then 0 else Choose(k, i - 1)
  {
  }

  lemma {:induction false} SignedBeyond(k: nat, i: nat)
    requires i > k
    ensures SignedBinomial(k, i) == 0.0
  {
    ChooseBeyond(k, i);
  }

  /** The terms of the next order: those of this order, minus those one step back. */
  lemma {:induction false} SignedTermStep(p: nat -> Complex, k: nat, j: nat, i: nat)
    ensures SignedTerms(p, k + 1, j)(i)
         == Sub(SignedTerms(p, k, j)(i), if i == 0 then ZERO else SignedTerms(p, k, j + 1)(i - 1))
  {
    hide Mul, SignedBinomial;
    SignedPascal(k, i);
    var a, b := SignedBinomial(k, i), if i == 0 then 0.0 else SignedBinomial(k, i - 1);
    OfRealHom(a, b);
    MulSub(p(j + i), OfReal(a), OfReal(b));
    MulUnits(p(j + i));
    assert i > 0 ==> j + 1 + (i - 1) == j + i;
  }

  ghost function BackTerms(p: nat -> Complex, k: nat, j: nat): nat -> Complex {
    (i: nat) => if i == 0 then ZERO else SignedTerms(p, k, j + 1)(i - 1)
  }

  /** The binomial sum is the iterated difference. */
  lemma {:induction false} BinomialSum(p: nat -> Complex, k: nat, j: nat)
    ensures Difference(p, k, j) == Sum(k + 1, SignedTerms(p, k, j))
    decreases k
  {
    hide Mul, SignedBinomial, SignedTerms;
    if k == 0 {
      SingleTerm(p, j);
    } else {
      var n := k - 1;
      BinomialSum(p, n, j);
      BinomialSum(p, n, j + 1);
      var here, back := SignedTerms(p, n, j), BackTerms(p, n, j);
      forall i: nat | i < k + 1
        ensures SignedTerms(p, k, j)(i) == Sub(here(i), back(i))
      {
        SignedTermStep(p, n, j, i);
      }
      SumSub(k + 1, here, back, SignedTerms(p, k, j));
      LastSignedTerm(p, n, j);
      SumStep(k, here);
      SumFirst(k + 1, back, SignedTerms(p, n, j + 1));
    }
  }

  lemma {:induction false} SingleTerm(p: nat -> Complex, j: nat)
    ensures Sum(1, SignedTerms(p, 0, j)) == p(j)
  {
    hide Mul;
    SumStep(0, SignedTerms(p, 0, j));
    assert Sum(0, SignedTerms(p, 0, j)) == ZERO;
    assert SignedBinomial(0, 0) == 1.0;
    MulUnits(p(j));
  }

  lemma {:induction false} LastSignedTerm(p: nat -> Complex, n: nat, j: nat)
    ensures SignedTerms(p, n, j)(n + 1) == ZERO
  {
    hide Mul, SignedBinomial;
    SignedBeyond(n, n + 1);
    MulUnits(p(j + (n + 1)));
  }

  /** The differences at the anchor. */
  ghost function AnchorDifferences(p: nat -> Complex): nat -> Complex {
    (k: nat) => Difference(p, k, 0)
  }

  /** Differencing in k and stepping back in j are dual. */
  lemma {:induction false} Duality(p: nat -> Complex, k: nat, j: nat)
    ensures Difference(p, k, j) == Difference(AnchorDifferences(p), j, k)
    decreases j
  {
    if j > 0 {
      Duality(p, k, j - 1);
      Duality(p, k + 1, j - 1);
    }
  }

  // ---------------------------------------------------------------- the rising basis

  /** h (h+1) ... (h+k-1). */
  ghost function Rising(h: real, k: nat): real {
    if k == 0 then 1.0 else Rising(h, k - 1) * (h + (k - 1) as real)
  }

  /** beta_k(h), the rising factorial over k!. */
  ghost function Beta(k: nat, h: real): real {
    Rising(h, k) / Factorial(k) as real
  }

  /** (k+1) beta_{k+1}(h) == (h+k) beta_k(h). */
  lemma {:induction false} BetaStep(k: nat, h: real)
    ensures (k + 1) as real * Beta(k + 1, h) == (h + k as real) * Beta(k, h)
    ensures Beta(0, h) == 1.0
  {
    hide Rising, Factorial;
    RisingStep(k, h);
    NextFactorial(k);
    QuotientStep(Rising(h, k), Factorial(k) as real, h + k as real, (k + 1) as real);
  }

  lemma {:induction false} RisingStep(k: nat, h: real)
    ensures Rising(h, k + 1) == Rising(h, k) * (h + k as real) && Rising(h, 0) == 1.0
  {
  }

  lemma {:induction false} NextFactorial(k: nat)
    ensures Factorial(k + 1) as real == (k + 1) as real * Factorial(k) as real && Factorial(0) == 1
  {
    assert Factorial(k + 1) == (k + 1) * Factorial(k);
  }

  lemma {:induction false} QuotientStep(r: real, f: real, g: real, n: real)
    requires f > 0.0 && n > 0.0
    ensures n * f > 0.0 && n * (r * g / (n * f)) == g * (r / f)
  {
    ProductPositive(n, f, n * f);
    var x, y := r * g / (n * f), r / f;
    assert x * (n * f) == r * g;
    assert y * f == r;
    assert (n * x) * f == (g * y) * f;
    SameQuotient(n * x, g * y, f);
  }

  lemma {:induction false} SameQuotient(x: real, y: real, f: real)
    requires f > 0.0 && x * f == y * f
    ensures x == y
  {
    assert (x - y) * f == 0.0;
    if x > y {
      ProductPositive(x - y, f, (x - y) * f);
    } else if y > x {
      ProductPositive(y - x, f, (y - x) * f);
    }
  }

  /** At -m the basis function k is (-1)^k C(m, k). */
  lemma {:induction false} BetaAtPast(k: nat, m: nat)
    ensures Beta(k, -(m as real)) == SignedBinomial(m, k)
  {
    hide Beta, SignedBinomial;
    BetaStep(0, -(m as real));
    if k == 0 {
      SignedZero(m);
    } else {
      BetaAtPast(k - 1, m);
      BetaStep(k - 1, -(m as real));
      SignedStep(m, k - 1);
      var c, d := SignedBinomial(m, k - 1), SignedBinomial(m, k);
      assert k as real * Beta(k, -(m as real)) == (-(m as real) + (k - 1) as real) * c;
      CancelFactor(k as real, Beta(k, -(m as real)), d);
    }
  }

  lemma {:induction false} SignedZero(m: nat)
    ensures SignedBinomial(m, 0) == 1.0
  {
  }

  lemma {:induction false} CancelFactor(n: real, x: real, y: real)
    requires n > 0.0 && n * x == n * y
    ensures x == y
  {
    SameQuotient(x, y, n);
  }

  lemma {:induction false} SignedStep(m: nat, k: nat)
    ensures (k + 1) as real * SignedBinomial(m, k + 1) == (-(m as real) + k as real) * SignedBinomial(m, k)
  {
    hide Choose;
    assert Sign(k + 1) == -Sign(k);
    if k <= m {
      ChooseStep(m, k);
      StepOverReals(Choose(m, k), Choose(m, k + 1), m, k);
      SignedArithmetic(Sign(k), Choose(m, k) as real, Choose(m, k + 1) as real, m as real, k as real);
    } else {
      ChooseBeyond(m, k);
      ChooseBeyond(m, k + 1);
      SignedArithmetic(Sign(k), 0.0, 0.0, m as real, k as real);
    }
  }

  lemma {:induction false} StepOverReals(c: nat, d: nat, m: nat, k: nat)
    requires k <= m && d * (k + 1) == c * (m - k)
    ensures d as real * (k as real + 1.0) == c as real * (m as real - k as real)
  {
    assert (d * (k + 1)) as real == d as real * (k + 1) as real;
    assert (c * (m - k)) as real == c as real * (m - k) as real;
    assert (m - k) as real == m as real - k as real;
  }

  lemma {:induction false} SignedArithmetic(s: real, c: real, d: real, m: real, k: real)
    requires d * (k + 1.0) == c * (m - k)
    ensures (k + 1.0) * (-s * d) == (-m + k) * (s * c)
  {
    assert (k + 1.0) * (-s * d) == -s * (d * (k + 1.0));
    assert (-m + k) * (s * c) == -s * (c * (m - k));
  }

  // ---------------------------------------------------------------- the Newton sum

  ghost function NewtonTerms(q: nat -> Complex, h: real): nat -> Complex {
    (k: nat) => Mul(OfReal(Beta(k, h)), q(k))
  }

  /** beta_0(h) q(0) + ... + beta_{K-1}(h) q(K-1). */
  ghost function NewtonSum(q: nat -> Complex, K: nat, h: real): Complex {
    Sum(K, NewtonTerms(q, h))
  }

  /** The Newton carrier through the past p, with K differences. */
  ghost function NewtonValue(p: nat -> Complex, K: nat, h: real): Complex {
    NewtonSum(AnchorDifferences(p), K, h)
  }

  /** Interpolation: for any past data the carrier returns every sample it was built from. */
  lemma {:induction false} NewtonInterpolates(p: nat -> Complex, K: nat, j: nat)
    requires j < K
    ensures NewtonValue(p, K, -(j as real)) == p(j)
  {
    hide Mul, Beta, SignedBinomial;
    var q := AnchorDifferences(p);
    var f, g := NewtonTerms(q, -(j as real)), SignedTerms(q, j, 0);
    forall k: nat | k < K
      ensures f(k) == g(k)
      ensures k > j ==> g(k) == ZERO
    {
      BetaAtPast(k, j);
      if k > j {
        SignedBeyond(j, k);
        MulUnits(q(k));
      }
    }
    SumCongruence(K, f, g);
    SumTruncate(j + 1, K, g);
    BinomialSum(q, j, 0);
    Duality(p, 0, j);
  }

  // ---------------------------------------------------------------- polynomials

  /** The coefficients in the rising basis of the polynomial with power coefficients a. */
  ghost function RisingCoefficients(a: seq<Complex>): (b: seq<Complex>)
    ensures |b| == |a|
  {
    if a == [] then [] else TimesX(RisingCoefficients(a[1..]), a[0])
  }

  /** c + x b(x), from x beta_k = (k+1) beta_{k+1} - k beta_k. */
  ghost function TimesX(b: seq<Complex>, c: Complex): (r: seq<Complex>)
    ensures |r| == |b| + 1
  {
    seq(|b| + 1, (k: nat) =>
      Sub(if k == 0 then c else if k <= |b| then Mul(OfReal(k as real), b[k - 1]) else ZERO,
          if k < |b| then Mul(OfReal(k as real), b[k]) else ZERO))
  }

  /** k beta_k(h). */
  ghost function Weighted(k: nat, h: real): real {
    k as real * Beta(k, h)
  }

  ghost function RisenTerms(b: seq<Complex>, h: real): nat -> Complex {
    (k: nat) => if k == 0 || k > |b| then ZERO else Mul(OfReal(Weighted(k, h)), b[k - 1])
  }

  ghost function KeptTerms(b: seq<Complex>, h: real): nat -> Complex {
    (k: nat) => if k < |b| then Mul(OfReal(Weighted(k, h)), b[k]) else ZERO
  }

  ghost function ConstantTerm(c: Complex, h: real): nat -> Complex {
    (k: nat) => if k == 0 then Mul(OfReal(Beta(0, h)), c) else ZERO
  }

  lemma {:induction false} TimesXAt(b: seq<Complex>, c: Complex, k: nat)
    requires k <= |b|
    ensures TimesX(b, c)[k] == Sub(if k == 0 then c else Mul(OfReal(k as real), b[k - 1]),
                                   if k < |b| then Mul(OfReal(k as real), b[k]) else ZERO)
  {
    hide Mul, Sub, OfReal;
  }

  lemma {:induction false} TimesXTerm(b: seq<Complex>, c: Complex, h: real, k: nat)
    requires k <= |b|
    ensures NewtonTerms(Samples(TimesX(b, c)), h)(k)
         == Sub(Add(ConstantTerm(c, h)(k), RisenTerms(b, h)(k)), KeptTerms(b, h)(k))
  {
    hide Mul, Beta, Weighted, TimesX, OfReal;
    var up := if k == 0 then c else Mul(OfReal(k as real), b[k - 1]);
    var same := if k < |b| then Mul(OfReal(k as real), b[k]) else ZERO;
    TimesXAt(b, c, k);
    assert NewtonTerms(Samples(TimesX(b, c)), h)(k) == Mul(OfReal(Beta(k, h)), Sub(up, same));
    MulSub(OfReal(Beta(k, h)), up, same);
    MulUnits(OfReal(Beta(k, h)));
    if k > 0 {
      WeightedTerm(k, h, b[k - 1]);
    }
    if k < |b| {
      WeightedTerm(k, h, b[k]);
    }
  }

  lemma {:induction false} WeightedTerm(k: nat, h: real, v: Complex)
    ensures Mul(OfReal(Beta(k, h)), Mul(OfReal(k as real), v)) == Mul(OfReal(Weighted(k, h)), v)
  {
    hide Mul, OfReal, Beta;
    ScaledTerm(Beta(k, h), k as real, Weighted(k, h), v);
  }

  lemma {:induction false} ScaledTerm(beta: real, n: real, z: real, v: Complex)
    requires z == n * beta
    ensures Mul(OfReal(beta), Mul(OfReal(n), v)) == Mul(OfReal(z), v)
  {
    hide Mul, OfReal;
    OfRealHom(n, beta);
    MulComm(OfReal(n), OfReal(beta));
    MulAssoc(OfReal(beta), OfReal(n), v);
  }

  lemma {:induction false} WeightedStep(k: nat, h: real)
    ensures Weighted(k + 1, h) - Weighted(k, h) == h * Beta(k, h)
  {
    hide Beta;
    BetaStep(k, h);
  }

  /** Raising the index and keeping it differ by the factor x. */
  lemma {:induction false} RaisedMinusKept(b: seq<Complex>, h: real, k: nat)
    requires k < |b|
    ensures Sub(RisenTerms(b, h)(k + 1), KeptTerms(b, h)(k)) == Mul(OfReal(h), NewtonTerms(Samples(b), h)(k))
  {
    hide Mul, Beta, Weighted;
    WeightedStep(k, h);
    DifferenceOfScales(Weighted(k + 1, h), Weighted(k, h), h, Beta(k, h), b[k]);
  }

  lemma {:induction false} DifferenceOfScales(x: real, y: real, h: real, beta: real, v: Complex)
    requires x - y == h * beta
    ensures Sub(Mul(OfReal(x), v), Mul(OfReal(y), v)) == Mul(OfReal(h), Mul(OfReal(beta), v))
  {
    hide Mul, OfReal;
    OfRealHom(x, y);
    OfRealHom(h, beta);
    MulSub(v, OfReal(x), OfReal(y));
    MulAssoc(OfReal(h), OfReal(beta), v);
  }

  ghost function TimesHTerms(b: seq<Complex>, h: real): nat -> Complex {
    (k: nat) => Mul(OfReal(h), NewtonTerms(Samples(b), h)(k))
  }

  ghost function ConstantAndRisen(b: seq<Complex>, c: Complex, h: real): nat -> Complex {
    (k: nat) => Add(ConstantTerm(c, h)(k), RisenTerms(b, h)(k))
  }

  lemma {:induction false} TimesXParts(b: seq<Complex>, c: Complex, h: real)
    ensures NewtonSum(Samples(TimesX(b, c)), |b| + 1, h)
         == Sub(Add(c, Sum(|b| + 1, RisenTerms(b, h))), Sum(|b| + 1, KeptTerms(b, h)))
  {
    hide Mul, Beta, TimesX, NewtonTerms, RisenTerms, KeptTerms, ConstantTerm, Weighted, OfReal, Samples;
    var n := |b| + 1;
    forall k: nat | k < n
      ensures NewtonTerms(Samples(TimesX(b, c)), h)(k) == Sub(ConstantAndRisen(b, c, h)(k), KeptTerms(b, h)(k))
    {
      TimesXTerm(b, c, h, k);
    }
    SumSub(n, ConstantAndRisen(b, c, h), KeptTerms(b, h), NewtonTerms(Samples(TimesX(b, c)), h));
    SumAdd(n, ConstantTerm(c, h), RisenTerms(b, h), ConstantAndRisen(b, c, h));
    OnlyConstant(c, h, n);
  }

  ghost function RisenNext(b: seq<Complex>, h: real): nat -> Complex {
    (k: nat) => RisenTerms(b, h)(k + 1)
  }

  lemma {:induction false} RisenMinusKept(b: seq<Complex>, h: real)
    ensures Sub(Sum(|b| + 1, RisenTerms(b, h)), Sum(|b| + 1, KeptTerms(b, h)))
         == Mul(OfReal(h), NewtonSum(Samples(b), |b|, h))
  {
    hide Mul, Beta, NewtonTerms, RisenTerms, KeptTerms, Weighted, OfReal, Samples;
    var n := |b|;
    EndOfLists(b, h);
    SumTruncate(n, n + 1, KeptTerms(b, h));
    SumFirst(n + 1, RisenTerms(b, h), RisenNext(b, h));
    forall k: nat | k < n
      ensures TimesHTerms(b, h)(k) == Sub(RisenNext(b, h)(k), KeptTerms(b, h)(k))
    {
      RaisedMinusKept(b, h, k);
    }
    SumSub(n, RisenNext(b, h), KeptTerms(b, h), TimesHTerms(b, h));
    SumScale(n, OfReal(h), NewtonTerms(Samples(b), h), TimesHTerms(b, h));
  }

  lemma {:induction false} TimesXSum(b: seq<Complex>, c: Complex, h: real)
    ensures NewtonSum(Samples(TimesX(b, c)), |b| + 1, h)
         == Add(c, Mul(OfReal(h), NewtonSum(Samples(b), |b|, h)))
  {
    hide Mul, NewtonSum, OfReal, Sum, TimesX, Samples;
    TimesXParts(b, c, h);
    RisenMinusKept(b, h);
  }

  lemma {:induction false} OnlyConstant(c: Complex, h: real, n: nat)
    requires n > 0
    ensures Sum(n, ConstantTerm(c, h)) == c
  {
    hide Mul, Beta;
    SumSingle(n, 0, ConstantTerm(c, h));
    BetaStep(0, h);
    MulUnits(c);
  }

  lemma {:induction false} EndOfLists(b: seq<Complex>, h: real)
    ensures RisenTerms(b, h)(0) == ZERO && KeptTerms(b, h)(|b|) == ZERO
  {
    hide Mul, Weighted;
  }

  /** Every polynomial is a combination of rising factorials, at every real argument. */
  lemma {:induction false} RisingForm(a: seq<Complex>, h: real)
    ensures PolyValue(a, OfReal(h)) == NewtonSum(Samples(RisingCoefficients(a)), |a|, h)
  {
    hide Mul, Beta, TimesX, NewtonTerms;
    if a == [] {
    } else {
      PolyFirst(a, OfReal(h));
      RisingForm(a[1..], h);
      TimesXSum(RisingCoefficients(a[1..]), a[0], h);
    }
  }

  /** The basis function k sampled at 0, -1, -2, ... */
  ghost function BetaSamples(k: nat): nat -> Complex {
    (j: nat) => OfReal(SignedBinomial(j, k))
  }

  /** Its differences at the anchor: 1 at order k, 0 at every other order. */
  lemma {:induction false} BetaDifference(k: nat, m: nat, j: nat)
    ensures Difference(BetaSamples(k), m, j) == if m <= k then BetaSamples(k - m)(j) else ZERO
    decreases m
  {
    hide SignedBinomial;
    if m > 0 {
      BetaDifference(k, m - 1, j);
      BetaDifference(k, m - 1, j + 1);
      if m - 1 <= k {
        SignedColumn(j, k - (m - 1));
      }
    }
  }

  /** (-1)^i (C(j, i) - C(j+1, i)) == (-1)^{i-1} C(j, i-1). */
  lemma {:induction false} SignedColumn(j: nat, i: nat)
    ensures SignedBinomial(j, i) - SignedBinomial(j + 1, i) == if i == 0 then 0.0 else SignedBinomial(j, i - 1)
  {
    SignedPascal(j, i);
  }

  lemma {:induction false} BetaAnchorDifference(k: nat, m: nat)
    ensures Difference(BetaSamples(k), m, 0) == if m == k then ONE else ZERO
  {
    hide SignedBinomial;
    BetaDifference(k, m, 0);
    if m == k {
      SignedZero(0);
    } else if m < k {
      SignedBeyond(0, k - m);
    }
  }

  ghost function MixTerms(b: seq<Complex>, j: nat): nat -> Complex {
    (k: nat) => if k < |b| then Mul(b[k], BetaSamples(k)(j)) else ZERO
  }

  /** The combination b of the basis functions, sampled at 0, -1, -2, ... */
  ghost function MixSamples(b: seq<Complex>): nat -> Complex {
    (j: nat) => Sum(|b|, MixTerms(b, j))
  }

  ghost function MixDifferences(b: seq<Complex>, m: nat, j: nat): nat -> Complex {
    (k: nat) => if k < |b| then Mul(b[k], Difference(BetaSamples(k), m, j)) else ZERO
  }

  lemma {:induction false} DifferenceLinear(b: seq<Complex>, m: nat, j: nat)
    ensures Difference(MixSamples(b), m, j) == Sum(|b|, MixDifferences(b, m, j))
    decreases m
  {
    hide Mul, SignedBinomial;
    if m == 0 {
      SumCongruence(|b|, MixTerms(b, j), MixDifferences(b, 0, j));
    } else {
      DifferenceLinear(b, m - 1, j);
      DifferenceLinear(b, m - 1, j + 1);
      forall k: nat | k < |b|
        ensures MixDifferences(b, m, j)(k)
             == Sub(MixDifferences(b, m - 1, j)(k), MixDifferences(b, m - 1, j + 1)(k))
      {
        MulSub(b[k], Difference(BetaSamples(k), m - 1, j), Difference(BetaSamples(k), m - 1, j + 1));
      }
      SumSub(|b|, MixDifferences(b, m - 1, j), MixDifferences(b, m - 1, j + 1), MixDifferences(b, m, j));
    }
  }

  lemma {:induction false} MixAnchorDifference(b: seq<Complex>, m: nat)
    ensures Difference(MixSamples(b), m, 0) == Samples(b)(m)
  {
    hide Mul;
    DifferenceLinear(b, m, 0);
    var f := MixDifferences(b, m, 0);
    forall k: nat | k < |b|
      ensures f(k) == if k == m then b[k] else ZERO
    {
      BetaAnchorDifference(k, m);
      MulUnits(b[k]);
    }
    if m < |b| {
      SumSingle(|b|, m, f);
    } else {
      SumZero(|b|, f);
    }
  }

  lemma {:induction false} DifferenceCongruence(p: nat -> Complex, q: nat -> Complex, k: nat, j: nat)
    requires forall i: nat :: p(i) == q(i)
    ensures Difference(p, k, j) == Difference(q, k, j)
    decreases k
  {
    if k > 0 {
      DifferenceCongruence(p, q, k - 1, j);
      DifferenceCongruence(p, q, k - 1, j + 1);
    }
  }

  /** A constant stretch has no differences. */
  lemma {:induction false} FlatDifference(p: nat -> Complex, k: nat, j: nat, m: nat, v: Complex)
    requires j + k < m && forall i: nat :: i < m ==> p(i) == v
    ensures Difference(p, k, j) == if k == 0 then v else ZERO
    decreases k
  {
    if k > 0 {
      FlatDifference(p, k - 1, j, m, v);
      FlatDifference(p, k - 1, j + 1, m, v);
    }
  }

  /** The samples of a polynomial at 0, -1, -2, ... */
  ghost function PastSamples(a: seq<Complex>): nat -> Complex {
    (j: nat) => PolyValue(a, OfReal(-(j as real)))
  }

  lemma {:induction false} PolynomialDifference(a: seq<Complex>, m: nat)
    ensures AnchorDifferences(PastSamples(a))(m) == Samples(RisingCoefficients(a))(m)
  {
    hide Mul, PolyValue, RisingCoefficients, Beta, SignedBinomial;
    var b := RisingCoefficients(a);
    forall j: nat
      ensures PastSamples(a)(j) == MixSamples(b)(j)
    {
      RisingForm(a, -(j as real));
      MixIsNewton(b, j);
    }
    DifferenceCongruence(PastSamples(a), MixSamples(b), m, 0);
    MixAnchorDifference(b, m);
  }

  lemma {:induction false} MixIsNewton(b: seq<Complex>, j: nat)
    ensures MixSamples(b)(j) == NewtonSum(Samples(b), |b|, -(j as real))
  {
    hide Mul, Beta, SignedBinomial;
    var f := NewtonTerms(Samples(b), -(j as real));
    forall k: nat | k < |b|
      ensures f(k) == MixTerms(b, j)(k)
    {
      BetaAtPast(k, j);
      MulComm(OfReal(SignedBinomial(j, k)), b[k]);
      assert f(k) == Mul(OfReal(Beta(k, -(j as real))), b[k]);
      assert BetaSamples(k)(j) == OfReal(SignedBinomial(j, k));
    }
    SumCongruence(|b|, f, MixTerms(b, j));
  }

  /** Extrapolation: past samples of a polynomial with no more coefficients than differences
      give the polynomial back at every real horizon. */
  lemma {:induction false} NewtonExtrapolates(a: seq<Complex>, K: nat, h: real)
    requires |a| <= K
    ensures NewtonValue(PastSamples(a), K, h) == PolyValue(a, OfReal(h))
  {
    hide Mul, Beta, PolyValue, RisingCoefficients, Difference;
    var b := RisingCoefficients(a);
    var f, g := NewtonTerms(AnchorDifferences(PastSamples(a)), h), NewtonTerms(Samples(b), h);
    forall k: nat | k < K
      ensures f(k) == g(k)
      ensures k >= |b| ==> g(k) == ZERO
    {
      PolynomialDifference(a, k);
      MulUnits(OfReal(Beta(k, h)));
    }
    SumCongruence(K, f, g);
    SumTruncate(|b|, K, g);
    RisingForm(a, h);
  }

  // ---------------------------------------------------------------- the loops

  /** The samples at and before position n, with zeros where there are none. */
  ghost function Past(x: seq<Complex>, n: int): nat -> Complex {
    (j: nat) => if 0 <= n - j < |x| then x[n - j] else ZERO
  }

  /** One backward difference by its binomial sum; the running coefficient is C(k, j). */
  method BackwardDifference(x: seq<Complex>, n: int, k: nat) returns (acc: Complex)
    ensures 0 <= n < |x| ==> acc == Difference(Past(x, n), k, 0)
    ensures !(0 <= n < |x|) ==> acc == ZERO
  {
    hide Mul, Choose, SignedBinomial;
    acc := ZERO;
    var sign, ck := 1.0, 1.0;
    var j := 0;
    ChooseZero(k);
    while j <= k
      invariant 0 <= j <= k + 1 && sign == Sign(j)
      invariant j <= k ==> ck == Choose(k, j) as real
      invariant 0 <= n < |x| ==> j <= n + 1 && acc == Sum(j, SignedTerms(Past(x, n), k, 0))
      invariant !(0 <= n < |x|) ==> j == 0 && acc == ZERO
    {
      var idx := n - j;
      if idx < 0 || idx >= |x| {
        break;
      }
      SignedIs(k, j, sign, ck);
      acc := Add(acc, Mul(OfReal(sign * ck), x[idx]));
      ChooseStep(k, j);
      RunningProduct(Choose(k, j), Choose(k, j + 1), k - j, j + 1);
      ck := ck * (k - j) as real / (j + 1) as real;
      sign := -sign;
      j := j + 1;
    }
    if 0 <= n < |x| {
      RestIsZero(x, n, k, j);
      BinomialSum(Past(x, n), k, 0);
    }
  }

  lemma {:induction false} SignedIs(k: nat, j: nat, sign: real, ck: real)
    requires sign == Sign(j) && ck == Choose(k, j) as real
    ensures SignedBinomial(k, j) == sign * ck
  {
    hide Choose;
  }

  /** The terms the loop did not reach lie before the first sample. */
  lemma {:induction false} RestIsZero(x: seq<Complex>, n: nat, k: nat, j: nat)
    requires n < |x| && j <= k + 1 && (j == k + 1 || j == n + 1)
    ensures Sum(k + 1, SignedTerms(Past(x, n), k, 0)) == Sum(j, SignedTerms(Past(x, n), k, 0))
  {
    hide Mul, SignedBinomial;
    var f := SignedTerms(Past(x, n), k, 0);
    forall i: nat | j <= i < k + 1
      ensures f(i) == ZERO
    {
      MulUnits(OfReal(SignedBinomial(k, i)));
    }
    SumTruncate(j, k + 1, f);
  }

  /** `finite_backward_differences`: all orders up to K at position n. */
  method FiniteBackwardDifferences(x: seq<Complex>, n: int, K: int) returns (nabla: seq<Complex>)
    requires K >= -1
    ensures |nabla| == K + 1
    ensures 0 <= n < |x| ==> forall k: nat :: k <= K ==> nabla[k] == Difference(Past(x, n), k, 0)
    ensures !(0 <= n < |x|) ==> forall k: nat :: k <= K ==> nabla[k] == ZERO
  {
    nabla := seq(K + 1, i => ZERO);
    var k := 0;
    while k <= K
      invariant 0 <= k <= K + 1 && |nabla| == K + 1
      invariant 0 <= n < |x| ==> forall i: nat :: i < k ==> nabla[i] == Difference(Past(x, n), i, 0)
      invariant !(0 <= n < |x|) ==> forall i: nat :: i <= K ==> nabla[i] == ZERO
    {
      var acc := BackwardDifference(x, n, k);
      nabla := nabla[k := acc];
      k := k + 1;
    }
  }

  /** `beta_k`. */
  method BetaK(k: nat, h: real) returns (b: real)
    ensures b == Beta(k, h)
  {
    hide Factorial;
    var prod := 1.0;
    var j := 0;
    while j < k
      invariant 0 <= j <= k && prod == Rising(h, j)
    {
      prod := prod * (h + j as real);
      j := j + 1;
    }
    var f := FactorialInt(k);
    b := prod / f;
  }

  /** `eval_newton_gregory_point`. */
  method EvalNewtonPoint(nabla: seq<Complex>, h: real) returns (acc: Complex)
    ensures acc == NewtonSum(Samples(nabla), |nabla|, h)
  {
    hide Mul, Beta;
    acc := ZERO;
    var k := 0;
    while k < |nabla|
      invariant 0 <= k <= |nabla| && acc == NewtonSum(Samples(nabla), k, h)
    {
      var beta := BetaK(k, h);
      SumStep(k, NewtonTerms(Samples(nabla), h));
      acc := Add(acc, Mul(OfReal(beta), nabla[k]));
      k := k + 1;
    }
  }

  /** `eval_newton_gregory_grid`: K differences, possibly none. */
  method EvalNewtonGrid(x: seq<Complex>, n: int, K: nat, grid: seq<real>) returns (out: seq<Complex>)
    ensures |out| == |grid|
    ensures 0 <= n < |x| ==> forall i :: 0 <= i < |grid| ==> out[i] == NewtonValue(Past(x, n), K, grid[i])
    ensures !(0 <= n < |x|) ==> forall i :: 0 <= i < |grid| ==> out[i] == ZERO
  {
    hide Difference, NewtonTerms, NewtonSum;
    var nabla := FiniteBackwardDifferences(x, n, K - 1);
    out := seq(|grid|, i => ZERO);
    var i := 0;
    while i < |grid|
      invariant 0 <= i <= |grid| && |out| == |grid|
      invariant 0 <= n < |x| ==> forall k :: 0 <= k < i ==> out[k] == NewtonValue(Past(x, n), K, grid[k])
      invariant !(0 <= n < |x|) ==> forall k :: 0 <= k < i ==> out[k] == ZERO
    {
      var v := EvalNewtonPoint(nabla, grid[i]);
      if 0 <= n < |x| {
        SumOfDifferences(nabla, Past(x, n), K, grid[i]);
      } else {
        NoDifferences(nabla, grid[i]);
      }
      out := out[i := v];
      i := i + 1;
    }
  }

  lemma {:induction false} NoDifferences(nabla: seq<Complex>, h: real)
    requires forall k: nat :: k < |nabla| ==> nabla[k] == ZERO
    ensures NewtonSum(Samples(nabla), |nabla|, h) == ZERO
  {
    hide Mul, Beta;
    forall k: nat | k < |nabla|
      ensures NewtonTerms(Samples(nabla), h)(k) == ZERO
    {
      MulUnits(OfReal(Beta(k, h)));
    }
    SumZero(|nabla|, NewtonTerms(Samples(nabla), h));
  }

  lemma {:induction false} SumOfDifferences(nabla: seq<Complex>, p: nat -> Complex, m: nat, h: real)
    requires m <= |nabla| && forall k: nat :: k < |nabla| ==> nabla[k] == Difference(p, k, 0)
    ensures NewtonSum(Samples(nabla), m, h) == NewtonValue(p, m, h)
  {
    hide Mul, Beta, Difference;
    SumCongruence(m, NewtonTerms(Samples(nabla), h), NewtonTerms(AnchorDifferences(p), h));
  }

  /** What `eval_newton_at_h` records beside its values. */
  datatype NewtonTrace = NewtonTrace(input: seq<Complex>, differences: seq<Complex>, eta: seq<real>,
                                     basis: seq<seq<real>>, partials: seq<seq<Complex>>)

  /** The number of differences used: what is available, capped at the recurrence order + 1. */
  function UsedDifferences(avail: nat, K: int, r: int): (k: nat)
    requires avail > 0 && K > 0
    ensures 1 <= k <= avail && k <= K
  {
    var k := if K < avail then K else avail;
    if r > 0 && r + 1 < k then r + 1 else k
  }

  lemma {:induction false} DifferencePrefix(p: nat -> Complex, q: nat -> Complex, k: nat, j: nat, n: nat)
    requires j + k < n && forall i: nat :: i < n ==> p(i) == q(i)
    ensures Difference(p, k, j) == Difference(q, k, j)
    decreases k
  {
    if k > 0 {
      DifferencePrefix(p, q, k - 1, j, n);
      DifferencePrefix(p, q, k - 1, j + 1, n);
    }
  }

  /** The carrier needs no more samples than differences. */
  lemma {:induction false} NewtonPrefix(p: nat -> Complex, q: nat -> Complex, K: nat, h: real)
    requires forall i: nat :: i < K ==> p(i) == q(i)
    ensures NewtonValue(p, K, h) == NewtonValue(q, K, h)
  {
    hide Mul, Beta, Difference;
    var f, g := NewtonTerms(AnchorDifferences(p), h), NewtonTerms(AnchorDifferences(q), h);
    forall k: nat | k < K
      ensures f(k) == g(k)
    {
      DifferencePrefix(p, q, k, 0, K);
    }
    SumCongruence(K, f, g);
  }

  /** The inner loop at one horizon: basis values, partial sums and the value. */
  method NewtonAt(nabla: seq<Complex>, eta: real) returns (value: Complex, basis: seq<real>, partials: seq<Complex>)
    ensures |basis| == |partials| == |nabla|
    ensures value == NewtonSum(Samples(nabla), |nabla|, eta)
    ensures forall k: nat :: k < |nabla| ==> basis[k] == Beta(k, eta)
    ensures forall k: nat :: k < |nabla| ==> partials[k] == NewtonSum(Samples(nabla), k + 1, eta)
  {
    hide Mul, Beta;
    value := ZERO;
    basis, partials := [], [];
    var k := 0;
    while k < |nabla|
      invariant 0 <= k <= |nabla| == |nabla| && |basis| == |partials| == k
      invariant value == NewtonSum(Samples(nabla), k, eta)
      invariant forall i: nat :: i < k ==> basis[i] == Beta(i, eta)
      invariant forall i: nat :: i < k ==> partials[i] == NewtonSum(Samples(nabla), i + 1, eta)
    {
      var beta := BetaK(k, eta);
      SumStep(k, NewtonTerms(Samples(nabla), eta));
      value := Add(value, Mul(OfReal(beta), nabla[k]));
      basis, partials := basis + [beta], partials + [value];
      k := k + 1;
    }
  }

  /** The trace of a run that used k differences: the reversed samples, their differences at
      the anchor, and for every horizon all basis values and partial sums; without samples
      the abscissas are zero and the tables empty. */
  ghost predicate TraceOf(t: NewtonTrace, uPast: seq<Complex>, k: nat, grid: seq<real>) {
    && |t.input| == |t.differences| == k <= |uPast|
    && (forall j: nat :: j < k ==> t.input[j] == uPast[k - 1 - j])
    && (forall j: nat :: j < k ==> t.differences[j] == Difference(Samples(uPast), j, 0))
    && |t.eta| == |t.basis| == |t.partials| == |grid|
    && (forall i :: 0 <= i < |grid| ==>
          t.eta[i] == (if k == 0 then 0.0 else grid[i]) && |t.basis[i]| == |t.partials[i]| == k)
    && (forall i, j: nat :: 0 <= i < |grid| && j < k ==>
          t.basis[i][j] == Beta(j, grid[i]) && t.partials[i][j] == NewtonValue(Samples(uPast), j + 1, grid[i]))
  }

  /** `eval_newton_at_h`: the samples u_past[j] = U(-j), reversed, differenced and summed at
      eta = h for every horizon of the grid. */
  method EvalNewtonAtH(uPast: seq<Complex>, K: int, r: int, grid: seq<real>)
    returns (out: seq<Complex>, trace: NewtonTrace)
    ensures |out| == |grid|
    ensures |uPast| == 0 || K <= 0 ==> forall i :: 0 <= i < |grid| ==> out[i] == ZERO
    ensures |uPast| > 0 && K > 0 ==>
      forall i :: 0 <= i < |grid| ==> out[i] == NewtonValue(Samples(uPast), UsedDifferences(|uPast|, K, r), grid[i])
    ensures TraceOf(trace, uPast, if |uPast| > 0 && K > 0 then UsedDifferences(|uPast|, K, r) else 0, grid)
  {
    if |uPast| <= 0 || K <= 0 {
      out := seq(|grid|, i => ZERO);
      trace := NewtonTrace([], [], seq(|grid|, i => 0.0), seq(|grid|, i => []), seq(|grid|, i => []));
      return;
    }
    hide Difference, NewtonTerms, Beta, NewtonValue, NewtonSum;
    var k := UsedDifferences(|uPast|, K, r);
    var rev := seq(k, i => ZERO);
    var i := 0;
    while i < k
      invariant 0 <= i <= k && |rev| == k
      invariant forall j :: 0 <= j < i ==> rev[j] == uPast[k - 1 - j]
    {
      rev := rev[i := uPast[k - 1 - i]];
      i := i + 1;
    }
    var nabla := FiniteBackwardDifferences(rev, k - 1, k - 1);
    forall j: nat | j < k
      ensures nabla[j] == Difference(Samples(uPast), j, 0)
    {
      DifferencePrefix(Past(rev, k - 1), Samples(uPast), j, 0, k);
    }
    out := [];
    var basis, partials := [], [];
    i := 0;
    while i < |grid|
      invariant 0 <= i <= |grid| && |out| == |basis| == |partials| == i
      invariant forall j :: 0 <= j < i ==> out[j] == NewtonValue(Samples(uPast), k, grid[j])
      invariant forall j :: 0 <= j < i ==> |basis[j]| == |partials[j]| == k
      invariant forall j, m: nat :: 0 <= j < i && m < k ==>
        basis[j][m] == Beta(m, grid[j]) && partials[j][m] == NewtonValue(Samples(uPast), m + 1, grid[j])
    {
      var value, bs, ps := NewtonAt(nabla, grid[i]);
      forall m: nat | m <= k
        ensures NewtonSum(Samples(nabla), m, grid[i]) == NewtonValue(Samples(uPast), m, grid[i])
      {
        SumOfDifferences(nabla, Samples(uPast), m, grid[i]);
      }
      out, basis, partials := out + [value], basis + [bs], partials + [ps];
      i := i + 1;
    }
    trace := NewtonTrace(rev, nabla, grid, basis, partials);
  }
}
