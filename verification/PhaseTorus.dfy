/** Fourier extraction of multi-index coefficients on the phase torus
    (src/math/phase_torus.cpp, src/math/quadrature.cpp).

    Angles are whole multiples of 2 pi / M, so they are kept as numbers of such steps;
    w stands for e^{i 2 pi / M}: w^M == 1 and no smaller positive power of w is 1.  Then
    cos(psi) + i sin(psi) is w^k and e^{-i k 2 pi / M} is (1/w)^k. */
module PhaseTorus {
  import opened ComplexField
  import opened MultiIndex
  import opened Polynomials

  /** w is a primitive M-th root of unity. */
  ghost predicate Primitive(w: Complex, M: nat) {
    w != ZERO && M > 0 && Pow(w, M) == ONE && forall k: nat :: 0 < k < M ==> Pow(w, k) != ONE
  }

  // ---------------------------------------------------------------- means over the ring

  /** Reciprocal of a count, as a factor. */
  function Weight(n: nat): Complex
    requires n > 0
  {
    OfReal(1.0 / n as real)
  }

  lemma {:induction false} WeightInverts(n: nat)
    requires n > 0
    ensures Mul(Weight(n), OfReal(n as real)) == ONE
  {
    OfRealHom(1.0 / n as real, n as real);
    ReciprocalTimes(n as real);
  }

  lemma {:induction false} ReciprocalTimes(x: real)
    requires x != 0.0
    ensures 1.0 / x * x == 1.0
  {
  }

  lemma {:induction false} WeightProduct(m: nat, n: nat)
    requires m > 0 && n > 0
    ensures m * n > 0 && Weight(m * n) == Mul(Weight(m), Weight(n))
  {
    ProductOfPositives(m, n);
    OfRealHom(1.0 / m as real, 1.0 / n as real);
    ReciprocalProduct(m as real, n as real);
    assert (m * n) as real == m as real * n as real;
  }

  lemma {:induction false} ProductOfPositives(m: nat, n: nat)
    requires m > 0 && n > 0
    ensures m * n > 0
  {
  }

  lemma {:induction false} ReciprocalProduct(x: real, y: real)
    requires x > 0.0 && y > 0.0
    ensures x * y > 0.0 && 1.0 / (x * y) == (1.0 / x) * (1.0 / y)
  {
    ProductPositive(x, y, x * y);
    var p := (1.0 / x) * (1.0 / y);
    assert p * (x * y) == ((1.0 / x) * x) * ((1.0 / y) * y) == 1.0;
    assert 1.0 / (x * y) == p * (x * y) / (x * y) == p;
  }

  ghost function Mean(M: nat, f: nat -> Complex): Complex
    requires M > 0
  {
    Mul(Weight(M), Sum(M, f))
  }

  ghost function Constant(c: Complex): nat -> Complex {
    (k: nat) => c
  }

  lemma {:induction false} SumConstant(n: nat, c: Complex)
    ensures Sum(n, Constant(c)) == Mul(OfReal(n as real), c)
  {
    hide Mul;
    MulUnits(c);
    if n > 0 {
      SumConstant(n - 1, c);
      OfRealHom(n as real - 1.0, 1.0);
      MulAdd(c, OfReal(n as real - 1.0), ONE);
    }
  }

  lemma {:induction false} MeanConstant(M: nat, c: Complex)
    requires M > 0
    ensures Mean(M, Constant(c)) == c
  {
    hide Mul;
    SumConstant(M, c);
    WeightInverts(M);
    MulAssoc(Weight(M), OfReal(M as real), c);
    MulUnits(c);
  }

  // ---------------------------------------------------------------- orthogonality

  ghost function Powers(x: Complex): nat -> Complex {
    (k: nat) => Pow(x, k)
  }

  /** (x - 1)(1 + x + ... + x^{n-1}) == x^n - 1. */
  lemma {:induction false} GeometricSum(x: Complex, n: nat)
    ensures Mul(Sub(x, ONE), Sum(n, Powers(x))) == Sub(Pow(x, n), ONE)
  {
    hide Mul;
    MulUnits(Sub(x, ONE));
    if n > 0 {
      GeometricSum(x, n - 1);
      var p := Pow(x, n - 1);
      MulAdd(Sub(x, ONE), Sum(n - 1, Powers(x)), p);
      MulSub(p, x, ONE);
      MulUnits(p);
    }
  }

  /** The M powers of an M-th root of unity other than 1 have mean 0. */
  lemma {:induction false} MeanOfRoot(x: Complex, M: nat)
    requires M > 0 && Pow(x, M) == ONE && x != ONE
    ensures Mean(M, Powers(x)) == ZERO
  {
    hide Mul;
    GeometricSum(x, M);
    NoZeroDivisors(Sub(x, ONE), Sum(M, Powers(x)));
    MulUnits(Weight(M));
  }

  lemma {:induction false} InversePower(w: Complex, k: nat)
    requires w != ZERO
    ensures Inv(w) != ZERO
    ensures Mul(Pow(w, k), Pow(Inv(w), k)) == ONE
  {
    hide Mul, Inv;
    InvMul(w);
    PowProduct(w, Inv(w), k);
    PowOne(k);
  }

  /** The wave e^{-i a psi} sampled on the ring. */
  ghost function Wave(w: Complex, a: nat): nat -> Complex
    requires w != ZERO
  {
    (k: nat) => Pow(Inv(w), a * k)
  }

  lemma {:induction false} WaveIsPower(w: Complex, a: nat, k: nat)
    requires w != ZERO
    ensures Wave(w, a)(k) == Pow(Pow(Inv(w), a), k)
  {
    PowMul(Inv(w), a, k);
  }

  lemma {:induction false} InverseRoot(w: Complex, M: nat, a: nat)
    requires Primitive(w, M)
    ensures Pow(Pow(Inv(w), a), M) == ONE
    ensures 0 < a < M ==> Pow(Inv(w), a) != ONE
  {
    hide Mul, Inv;
    var v := Inv(w);
    InversePower(w, M);
    MulUnits(Pow(v, M));
    PowMul(v, a, M);
    PowMul(v, M, a);
    assert a * M == M * a;
    PowOne(a);
    if Pow(v, a) == ONE {
      InversePower(w, a);
      MulUnits(Pow(w, a));
    }
  }

  /** Orthogonality: the mean of e^{-i a psi} is 1 for a == 0 and 0 for 0 < a < M. */
  lemma {:induction false} MeanOfWave(w: Complex, M: nat, a: nat)
    requires Primitive(w, M)
    ensures a == 0 ==> Mean(M, Wave(w, a)) == ONE
    ensures 0 < a < M ==> Mean(M, Wave(w, a)) == ZERO
    ensures a == M ==> Mean(M, Wave(w, a)) == ONE
  {
    hide Mul, Inv;
    var x := Pow(Inv(w), a);
    InverseRoot(w, M, a);
    forall k: nat | k < M
      ensures Wave(w, a)(k) == Powers(x)(k)
    {
      WaveIsPower(w, a, k);
    }
    SumCongruence(M, Wave(w, a), Powers(x));
    if 0 < a < M {
      MeanOfRoot(x, M);
    } else if a == 0 || a == M {
      if a == M {
        InversePower(w, M);
        MulUnits(x);
      }
      forall k: nat | k < M
        ensures Powers(x)(k) == ONE
      {
        PowOne(k);
      }
      SumCongruence(M, Powers(x), Constant(ONE));
      MeanConstant(M, ONE);
    }
  }

  // ---------------------------------------------------------------- means over the grid

  /** The product of one factor per axis at a node. */
  ghost function ProductAt(fs: seq<nat -> Complex>, a: Index): Complex
    requires |a| == |fs|
  {
    Product(seq(|fs|, p requires 0 <= p < |fs| => fs[p](a[p])))
  }

  /** The nodes of the M^Q grid in the order of the odometer. */
  ghost function NodeProducts(fs: seq<nat -> Complex>, M: nat): nat -> Complex {
    (n: nat) =>
      if n < Volume(Uniform(|fs|, M))
      then RankUnrank(Uniform(|fs|, M), n); ProductAt(fs, Unrank(Uniform(|fs|, M), n))
      else ZERO
  }

  ghost function AxisMeans(fs: seq<nat -> Complex>, M: nat): seq<Complex>
    requires M > 0
  {
    seq(|fs|, p requires 0 <= p < |fs| => Mean(M, fs[p]))
  }

  lemma {:induction false} VolumePositive(Q: nat, M: nat)
    requires M > 0
    ensures Volume(Uniform(Q, M)) > 0
  {
    if Q > 0 {
      UniformTail(Q, M);
      VolumePositive(Q - 1, M);
      ProductOfPositives(M, Volume(Uniform(Q - 1, M)));
    }
  }

  lemma {:induction false} UnrankBlock(Q: nat, M: nat, x: nat, y: nat)
    requires Q > 0 && x < M && y < Volume(Uniform(Q - 1, M))
    ensures x * Volume(Uniform(Q - 1, M)) + y < Volume(Uniform(Q, M)) == M * Volume(Uniform(Q - 1, M))
    ensures Unrank(Uniform(Q, M), x * Volume(Uniform(Q - 1, M)) + y) == [x] + Unrank(Uniform(Q - 1, M), y)
  {
    var v := Volume(Uniform(Q - 1, M));
    UniformTail(Q, M);
    RowBound(x, M, v, y);
    DivisionUnique(x, y, v);
  }

  /** One block of the grid, first axis at x: a multiple of the grid of the other axes. */
  lemma {:induction false} BlockOfNodes(fs: seq<nat -> Complex>, M: nat, x: nat)
    requires fs != [] && M > 0 && x < M
    ensures Sum(Volume(Uniform(|fs| - 1, M)), Block(NodeProducts(fs, M), Volume(Uniform(|fs| - 1, M)), x))
         == Mul(fs[0](x), Sum(Volume(Uniform(|fs| - 1, M)), NodeProducts(fs[1..], M)))
  {
    hide Mul, Volume, Unrank, Product;
    var v := Volume(Uniform(|fs| - 1, M));
    forall y: nat | y < v
      ensures Block(NodeProducts(fs, M), v, x)(y) == Mul(fs[0](x), NodeProducts(fs[1..], M)(y))
    {
      UnrankBlock(|fs|, M, x, y);
      RankUnrank(Uniform(|fs|, M), x * v + y);
      RankUnrank(Uniform(|fs| - 1, M), y);
      ProductBlock(fs, x, Unrank(Uniform(|fs| - 1, M), y));
    }
    SumScale(v, fs[0](x), NodeProducts(fs[1..], M), Block(NodeProducts(fs, M), v, x));
  }

  lemma {:induction false} ProductBlock(fs: seq<nat -> Complex>, x: nat, b: Index)
    requires fs != [] && |b| == |fs| - 1
    ensures ProductAt(fs, [x] + b) == Mul(fs[0](x), ProductAt(fs[1..], b))
  {
    hide Mul;
    var s := seq(|fs|, p requires 0 <= p < |fs| => fs[p](([x] + b)[p]));
    assert s[1..] == seq(|fs| - 1, p requires 0 <= p < |fs| - 1 => fs[1..][p](b[p]));
  }

  /** The mean over the M^Q grid of a product of per-axis factors is the product of the
      per-axis means over the ring. */
  lemma {:induction false} GridMean(fs: seq<nat -> Complex>, M: nat)
    requires M > 0
    ensures Volume(Uniform(|fs|, M)) > 0
    ensures Mean(Volume(Uniform(|fs|, M)), NodeProducts(fs, M)) == Product(AxisMeans(fs, M))
  {
    hide Mul;
    VolumePositive(|fs|, M);
    if fs == [] {
      GridMeanNoAxis(fs, M);
    } else {
      var v := Volume(Uniform(|fs| - 1, M));
      UniformTail(|fs|, M);
      VolumePositive(|fs| - 1, M);
      SumBlocks(M, v, NodeProducts(fs, M));
      var rest := Sum(v, NodeProducts(fs[1..], M));
      forall x: nat | x < M
        ensures BlockSums(NodeProducts(fs, M), v)(x) == Mul(rest, fs[0](x))
      {
        BlockOfNodes(fs, M, x);
        MulComm(rest, fs[0](x));
      }
      SumScale(M, rest, fs[0], BlockSums(NodeProducts(fs, M), v));
      WeightProduct(M, v);
      MulComm(rest, Sum(M, fs[0]));
      MulMedial(Weight(M), Weight(v), Sum(M, fs[0]), rest);
      GridMean(fs[1..], M);
      assert AxisMeans(fs, M)[1..] == AxisMeans(fs[1..], M);
    }
  }

  lemma {:induction false} GridMeanNoAxis(fs: seq<nat -> Complex>, M: nat)
    requires fs == [] && M > 0
    ensures Mean(Volume(Uniform(0, M)), NodeProducts(fs, M)) == Product(AxisMeans(fs, M))
  {
    hide Mul, Weight;
    var f := NodeProducts(fs, M);
    NoAxisNode(fs, M);
    assert Sum(1, f) == Add(Sum(0, f), f(0)) == ONE;
    WeightOne();
    MulUnits(ONE);
  }

  lemma {:induction false} NoAxisNode(fs: seq<nat -> Complex>, M: nat)
    requires fs == []
    ensures Volume(Uniform(0, M)) == 1 && NodeProducts(fs, M)(0) == ONE
  {
    assert Unrank(Uniform(0, M), 0) == [];
  }

  lemma {:induction false} WeightOne()
    ensures Weight(1) == ONE
  {
  }

  // ---------------------------------------------------------------- the two extractors

  /** The point z + rho e^{i psi} of one axis, psi being k steps. */
  function RingPoint(z: Complex, rho: real, w: Complex, k: nat): Complex {
    Add(z, Mul(OfReal(rho), Pow(w, k)))
  }

  ghost function NodePoint(z: seq<Complex>, rho: real, w: Complex, a: Index): seq<Complex>
    requires |a| == |z|
  {
    seq(|z|, q requires 0 <= q < |z| => RingPoint(z[q], rho, w, a[q]))
  }

  /** alpha . psi, in steps. */
  function Phase(alpha: Index, a: Index): nat
    requires |alpha| == |a|
  {
    if a == [] then 0 else alpha[0] * a[0] + Phase(alpha[1..], a[1..])
  }

  /** What the node at a contributes to the coefficient at alpha. */
  ghost function NodeTerm(F: seq<Complex> -> Complex, z: seq<Complex>, rho: real, w: Complex,
                          alpha: Index, a: Index): Complex
    requires |alpha| == |a| == |z| && w != ZERO
  {
    Mul(F(NodePoint(z, rho, w, a)), Pow(Inv(w), Phase(alpha, a)))
  }

  ghost function NodeTerms(F: seq<Complex> -> Complex, z: seq<Complex>, rho: real, M: nat, w: Complex,
                           alpha: Index): nat -> Complex
    requires |alpha| == |z| && w != ZERO
  {
    (n: nat) =>
      if n < Volume(Uniform(|z|, M))
      then RankUnrank(Uniform(|z|, M), n); NodeTerm(F, z, rho, w, alpha, Unrank(Uniform(|z|, M), n))
      else ZERO
  }

  /** The tensor-grid coefficient: the mean of F(z + rho e^{i psi}) e^{-i alpha psi} over
      all M^Q nodes. */
  ghost function TensorCoefficient(F: seq<Complex> -> Complex, z: seq<Complex>, rho: real, M: nat, w: Complex,
                                   alpha: Index): Complex
    requires |alpha| == |z| && w != ZERO && M > 0
  {
    VolumePositive(|z|, M);
    Mean(Volume(Uniform(|z|, M)), NodeTerms(F, z, rho, M, w, alpha))
  }

  ghost function RingTerms(G: Complex -> Complex, z: Complex, rho: real, w: Complex, a: nat): nat -> Complex
    requires w != ZERO
  {
    (k: nat) => Mul(G(RingPoint(z, rho, w, k)), Pow(Inv(w), a * k))
  }

  /** The one-axis coefficient of degree a: the mean over the M ring nodes. */
  ghost function AxisCoefficient(G: Complex -> Complex, z: Complex, rho: real, M: nat, w: Complex, a: nat): Complex
    requires w != ZERO && M > 0
  {
    Mean(M, RingTerms(G, z, rho, w, a))
  }

  ghost function ConstantTerms(G: seq<Complex -> Complex>, z: seq<Complex>, rho: real, M: nat, w: Complex):
    nat -> Complex
    requires |z| == |G| && w != ZERO && M > 0
  {
    (q: nat) => if q < |G| then AxisCoefficient(G[q], z[q], rho, M, w, 0) else ZERO
  }

  /** alpha is positive on axis q and zero elsewhere. */
  predicate OnAxis(alpha: Index, q: nat) {
    q < |alpha| && alpha[q] > 0 && forall p :: 0 <= p < |alpha| && p != q ==> alpha[p] == 0
  }

  predicate AllZero(alpha: Index) {
    forall p :: 0 <= p < |alpha| ==> alpha[p] == 0
  }

  /** The coefficient the separable extractor promises: constants add up, pure powers of one
      axis come from that axis, mixed indices vanish. */
  ghost function SeparableCoefficient(G: seq<Complex -> Complex>, z: seq<Complex>, rho: real, M: nat, w: Complex,
                                      alpha: Index): Complex
    requires |alpha| == |z| == |G| && w != ZERO && M > 0
  {
    if AllZero(alpha) then Sum(|G|, ConstantTerms(G, z, rho, M, w))
    else if exists q: nat :: OnAxis(alpha, q) then
      var q: nat :| OnAxis(alpha, q);
      AxisCoefficient(G[q], z[q], rho, M, w, alpha[q])
    else ZERO
  }

  /** F is the sum over the axes of the germs G. */
  ghost predicate Separates(F: seq<Complex> -> Complex, G: seq<Complex -> Complex>) {
    forall x: seq<Complex> :: |x| == |G| ==> F(x) == Sum(|G|, GermValues(G, x))
  }

  ghost function GermValues(G: seq<Complex -> Complex>, x: seq<Complex>): nat -> Complex
    requires |x| == |G|
  {
    (q: nat) => if q < |G| then G[q](x[q]) else ZERO
  }

  // The node term of one germ is a product of one factor per axis.

  ghost function Factors(G: seq<Complex -> Complex>, z: seq<Complex>, rho: real, w: Complex, alpha: Index, q: nat):
    (fs: seq<nat -> Complex>)
    requires |alpha| == |z| == |G| && w != ZERO && q < |G|
    ensures |fs| == |G|
  {
    seq(|G|, p requires 0 <= p < |G| =>
      if p == q then RingTerms(G[q], z[q], rho, w, alpha[q]) else Wave(w, alpha[p]))
  }

  ghost function Waves(w: Complex, alpha: Index): (fs: seq<nat -> Complex>)
    requires w != ZERO
    ensures |fs| == |alpha|
  {
    seq(|alpha|, p requires 0 <= p < |alpha| => Wave(w, alpha[p]))
  }

  /** e^{-i alpha psi} splits over the axes. */
  lemma {:induction false} PhaseProduct(w: Complex, alpha: Index, a: Index)
    requires w != ZERO && |alpha| == |a|
    ensures ProductAt(Waves(w, alpha), a) == Pow(Inv(w), Phase(alpha, a))
  {
    hide Mul, Inv;
    var s := seq(|alpha|, p requires 0 <= p < |alpha| => Waves(w, alpha)[p](a[p]));
    if a != [] {
      PhaseProduct(w, alpha[1..], a[1..]);
      assert Waves(w, alpha)[1..] == Waves(w, alpha[1..]);
      assert s[1..] == seq(|alpha| - 1, p requires 0 <= p < |alpha| - 1 => Waves(w, alpha[1..])[p](a[1..][p]));
      PowAdd(Inv(w), alpha[0] * a[0], Phase(alpha[1..], a[1..]));
    }
  }

  /** Replacing one entry of a product by a multiple of it. */
  lemma {:induction false} ProductScaleAt(s: seq<Complex>, t: seq<Complex>, q: nat, c: Complex)
    requires q < |s| == |t| && t[q] == Mul(c, s[q])
    requires forall p :: 0 <= p < |s| && p != q ==> t[p] == s[p]
    ensures Product(t) == Mul(c, Product(s))
  {
    hide Mul;
    if q == 0 {
      assert t[1..] == s[1..];
      MulAssoc(c, s[0], Product(s[1..]));
    } else {
      ProductScaleAt(s[1..], t[1..], q - 1, c);
      MulLeftComm(s[0], c, Product(s[1..]));
    }
  }

  lemma {:induction false} FactorsAtNode(G: seq<Complex -> Complex>, z: seq<Complex>, rho: real, w: Complex,
                      alpha: Index, q: nat, a: Index)
    requires |alpha| == |z| == |G| == |a| && w != ZERO && q < |G|
    ensures ProductAt(Factors(G, z, rho, w, alpha, q), a)
         == Mul(G[q](RingPoint(z[q], rho, w, a[q])), Pow(Inv(w), Phase(alpha, a)))
  {
    hide Mul, Inv, RingPoint;
    PhaseProduct(w, alpha, a);
    var fs, ws := Factors(G, z, rho, w, alpha, q), Waves(w, alpha);
    var s := seq(|ws|, p requires 0 <= p < |ws| => ws[p](a[p]));
    var t := seq(|fs|, p requires 0 <= p < |fs| => fs[p](a[p]));
    ProductScaleAt(s, t, q, G[q](RingPoint(z[q], rho, w, a[q])));
  }

  /** The table of node terms, one row per node and one column per germ. */
  ghost function TermTable(G: seq<Complex -> Complex>, z: seq<Complex>, rho: real, M: nat, w: Complex, alpha: Index):
    (nat, nat) -> Complex
    requires |alpha| == |z| == |G| && w != ZERO
  {
    (n: nat, q: nat) => if q < |G| then NodeProducts(Factors(G, z, rho, w, alpha, q), M)(n) else ZERO
  }

  lemma {:induction false} NodeTermSplits(F: seq<Complex> -> Complex, G: seq<Complex -> Complex>, z: seq<Complex>,
                                          rho: real, M: nat,
                       w: Complex, alpha: Index, n: nat)
    requires |alpha| == |z| == |G| && w != ZERO && Separates(F, G)
    requires n < Volume(Uniform(|z|, M))
    ensures NodeTerms(F, z, rho, M, w, alpha)(n) == RowSums(|G|, TermTable(G, z, rho, M, w, alpha))(n)
  {
    hide Mul, Inv, RingPoint, TermTable, ProductAt, Unrank, Volume;
    RankUnrank(Uniform(|z|, M), n);
    var a := Unrank(Uniform(|z|, M), n);
    var x := NodePoint(z, rho, w, a);
    var e := Pow(Inv(w), Phase(alpha, a));
    var row := Row(TermTable(G, z, rho, M, w, alpha), n);
    forall q: nat | q < |G|
      ensures row(q) == Mul(e, GermValues(G, x)(q))
    {
      TableEntry(G, z, rho, M, w, alpha, n, q, a);
    }
    SumScale(|G|, e, GermValues(G, x), row);
    MulComm(e, F(x));
  }

  lemma {:induction false} TableEntry(G: seq<Complex -> Complex>, z: seq<Complex>, rho: real, M: nat, w: Complex,
                                      alpha: Index,
                   n: nat, q: nat, a: Index)
    requires |alpha| == |z| == |G| && w != ZERO && n < Volume(Uniform(|z|, M)) && q < |G|
    requires a == Unrank(Uniform(|z|, M), n) && |a| == |z|
    ensures TermTable(G, z, rho, M, w, alpha)(n, q)
         == Mul(Pow(Inv(w), Phase(alpha, a)), GermValues(G, NodePoint(z, rho, w, a))(q))
  {
    hide Mul, Inv, RingPoint, Unrank, Volume;
    RankUnrank(Uniform(|z|, M), n);
    FactorsAtNode(G, z, rho, w, alpha, q, a);
    var fs := Factors(G, z, rho, w, alpha, q);
    assert TermTable(G, z, rho, M, w, alpha)(n, q) == NodeProducts(fs, M)(n) == ProductAt(fs, a);
    assert NodePoint(z, rho, w, a)[q] == RingPoint(z[q], rho, w, a[q]);
    MulComm(Pow(Inv(w), Phase(alpha, a)), G[q](RingPoint(z[q], rho, w, a[q])));
  }

  /** The mean over the grid of the part of germ q. */
  ghost function GermMeans(G: seq<Complex -> Complex>, z: seq<Complex>, rho: real, M: nat, w: Complex, alpha: Index):
    nat -> Complex
    requires |alpha| == |z| == |G| && w != ZERO && M > 0
  {
    (q: nat) => if q < |G| then Product(AxisMeans(Factors(G, z, rho, w, alpha, q), M)) else ZERO
  }

  /** For any order: the tensor coefficient is the sum of the germ means. */
  lemma {:induction false} TensorSplits(F: seq<Complex> -> Complex, G: seq<Complex -> Complex>, z: seq<Complex>,
                                        rho: real, M: nat,
                     w: Complex, alpha: Index)
    requires |alpha| == |z| == |G| && w != ZERO && M > 0 && Separates(F, G)
    ensures TensorCoefficient(F, z, rho, M, w, alpha) == Sum(|G|, GermMeans(G, z, rho, M, w, alpha))
  {
    hide Mul, Inv, RingPoint;
    var Q := |G|;
    var N := Volume(Uniform(Q, M));
    VolumePositive(Q, M);
    var table := TermTable(G, z, rho, M, w, alpha);
    forall n: nat | n < N
      ensures NodeTerms(F, z, rho, M, w, alpha)(n) == RowSums(Q, table)(n)
    {
      NodeTermSplits(F, G, z, rho, M, w, alpha, n);
    }
    SumCongruence(N, NodeTerms(F, z, rho, M, w, alpha), RowSums(Q, table));
    SumSwap(N, Q, table);
    var means := GermMeans(G, z, rho, M, w, alpha);
    forall q: nat | q < Q
      ensures means(q) == Mul(Weight(N), ColumnSums(N, table)(q))
    {
      var fs := Factors(G, z, rho, w, alpha, q);
      GridMean(fs, M);
      SumCongruence(N, Column(table, q), NodeProducts(fs, M));
    }
    SumScale(Q, Weight(N), ColumnSums(N, table), means);
  }

  /** No axis but q is used by alpha. */
  predicate OnlyAxis(alpha: Index, q: nat) {
    forall p :: 0 <= p < |alpha| && p != q ==> alpha[p] == 0
  }

  /** The mean of germ q: its own coefficient, killed by any other axis alpha uses. */
  lemma {:induction false} GermMean(G: seq<Complex -> Complex>, z: seq<Complex>, rho: real, M: nat, w: Complex,
                                    alpha: Index, q: nat)
    requires |alpha| == |z| == |G| && Primitive(w, M) && q < |G|
    requires forall p :: 0 <= p < |alpha| && p != q ==> alpha[p] < M
    ensures GermMeans(G, z, rho, M, w, alpha)(q)
         == if OnlyAxis(alpha, q) then AxisCoefficient(G[q], z[q], rho, M, w, alpha[q]) else ZERO
  {
    hide Mul, Inv, RingPoint;
    var fs := Factors(G, z, rho, w, alpha, q);
    var s := AxisMeans(fs, M);
    assert s[q] == AxisCoefficient(G[q], z[q], rho, M, w, alpha[q]);
    forall p | 0 <= p < |alpha| && p != q
      ensures s[p] == if alpha[p] == 0 then ONE else ZERO
    {
      MeanOfWave(w, M, alpha[p]);
    }
    if OnlyAxis(alpha, q) {
      ProductSingle(s, q);
    } else {
      var p :| 0 <= p < |alpha| && p != q && alpha[p] != 0;
      ProductZero(s, p);
    }
  }

  lemma {:induction false} SumOfGermMeans(G: seq<Complex -> Complex>, z: seq<Complex>, rho: real, M: nat, w: Complex,
                                          alpha: Index,
                       means: nat -> Complex)
    requires |alpha| == |z| == |G| && w != ZERO && M > 0
    requires forall q: nat :: q < |G| ==>
      means(q) == if OnlyAxis(alpha, q) then AxisCoefficient(G[q], z[q], rho, M, w, alpha[q]) else ZERO
    ensures Sum(|G|, means) == SeparableCoefficient(G, z, rho, M, w, alpha)
  {
    hide AxisCoefficient, Inv, Mul;
    if AllZero(alpha) {
      SumCongruence(|G|, means, ConstantTerms(G, z, rho, M, w));
    } else if exists q: nat :: OnAxis(alpha, q) {
      var q: nat :| OnAxis(alpha, q);
      assert forall q': nat :: OnAxis(alpha, q') ==> q' == q;
      assert forall p: nat :: p < |G| && p != q ==> !OnlyAxis(alpha, p);
      SumSingle(|G|, q, means);
    } else {
      forall q: nat | q < |G|
        ensures !OnlyAxis(alpha, q)
      {
        assert !OnAxis(alpha, q);
      }
      SumZero(|G|, means);
    }
  }

  /** Main result: below the aliasing order, or with a single axis, the fast extractor
      computes at every multi-index the coefficient of the full tensor grid. */
  lemma {:induction false} SeparableEqualsTensor(F: seq<Complex> -> Complex, G: seq<Complex -> Complex>,
                                                 z: seq<Complex>, rho: real,
                              M: nat, w: Complex, alpha: Index)
    requires |alpha| == |z| == |G| && Primitive(w, M) && Separates(F, G)
    requires |G| == 1 || Degree(alpha) < M
    ensures TensorCoefficient(F, z, rho, M, w, alpha) == SeparableCoefficient(G, z, rho, M, w, alpha)
  {
    hide Mul, Inv, AxisCoefficient, TensorCoefficient, SeparableCoefficient, GermMeans, Degree, Pow;
    forall p: nat | p < |alpha|
      ensures |G| == 1 || alpha[p] < M
    {
      DegreeBounds(alpha, p);
    }
    TensorSplits(F, G, z, rho, M, w, alpha);
    forall q: nat | q < |G|
      ensures GermMeans(G, z, rho, M, w, alpha)(q)
           == if OnlyAxis(alpha, q) then AxisCoefficient(G[q], z[q], rho, M, w, alpha[q]) else ZERO
    {
      GermMean(G, z, rho, M, w, alpha, q);
    }
    SumOfGermMeans(G, z, rho, M, w, alpha, GermMeans(G, z, rho, M, w, alpha));
  }

  // ---------------------------------------------------------------- aliasing

  /** The two extractors agree on every separable field, point, radius and multi-index. */
  ghost predicate ExtractorsAgree(Q: nat, order: nat, M: nat, w: Complex)
    requires w != ZERO && M > 0
  {
    forall F: seq<Complex> -> Complex, G: seq<Complex -> Complex>, z: seq<Complex>, rho: real, alpha: Index ::
      |G| == Q && |z| == Q && rho > 0.0 && Separates(F, G) && InSimplex(alpha, Q, order) ==>
      TensorCoefficient(F, z, rho, M, w, alpha) == SeparableCoefficient(G, z, rho, M, w, alpha)
  }

  ghost function UnitGerms(Q: nat): (G: seq<Complex -> Complex>)
    ensures |G| == Q
  {
    seq(Q, i => (x: Complex) => ONE)
  }

  /** At the order M itself, on axis 0, the grid cannot tell the wave from a constant: with
      unit germs the tensor grid finds Q there and the separable extractor finds 1. */
  lemma {:induction false} Aliasing(Q: nat, z: seq<Complex>, rho: real, M: nat, w: Complex, alpha: Index)
    requires Q >= 1 && |z| == Q && Primitive(w, M) && alpha == [M] + Zeros(Q - 1)
    ensures TensorCoefficient((x: seq<Complex>) => OfReal(Q as real), z, rho, M, w, alpha) == OfReal(Q as real)
    ensures SeparableCoefficient(UnitGerms(Q), z, rho, M, w, alpha) == ONE
    ensures Separates((x: seq<Complex>) => OfReal(Q as real), UnitGerms(Q))
  {
    hide Mul, Inv, RingPoint, TensorCoefficient, Pow;
    var G := UnitGerms(Q);
    var F := (x: seq<Complex>) => OfReal(Q as real);
    SumConstant(Q, ONE);
    MulUnits(OfReal(Q as real));
    forall x: seq<Complex> | |x| == Q
      ensures F(x) == Sum(Q, GermValues(G, x))
    {
      SumCongruence(Q, GermValues(G, x), Constant(ONE));
    }
    TensorSplits(F, G, z, rho, M, w, alpha);
    forall q: nat | q < Q
      ensures GermMeans(G, z, rho, M, w, alpha)(q) == ONE
      ensures AxisCoefficient(G[q], z[q], rho, M, w, alpha[q]) == ONE
    {
      UnitMeans(Q, z, rho, M, w, alpha, q);
    }
    SumCongruence(Q, GermMeans(G, z, rho, M, w, alpha), Constant(ONE));
    assert OnAxis(alpha, 0);
    assert forall q: nat :: OnAxis(alpha, q) ==> q == 0;
  }

  lemma {:induction false} UnitMeans(Q: nat, z: seq<Complex>, rho: real, M: nat, w: Complex, alpha: Index, q: nat)
    requires q < Q && |z| == |alpha| == Q && Primitive(w, M)
    requires forall p :: 0 <= p < Q ==> alpha[p] == 0 || alpha[p] == M
    ensures GermMeans(UnitGerms(Q), z, rho, M, w, alpha)(q) == ONE
    ensures AxisCoefficient(UnitGerms(Q)[q], z[q], rho, M, w, alpha[q]) == ONE
  {
    hide Mul, Inv, RingPoint;
    var G := UnitGerms(Q);
    var s := AxisMeans(Factors(G, z, rho, w, alpha, q), M);
    var ring := RingTerms(G[q], z[q], rho, w, alpha[q]);
    forall k: nat | k < M
      ensures ring(k) == Wave(w, alpha[q])(k)
    {
      MulUnits(Pow(Inv(w), alpha[q] * k));
    }
    SumCongruence(M, ring, Wave(w, alpha[q]));
    MeanOfWave(w, M, alpha[q]);
    forall p | 0 <= p < Q
      ensures s[p] == ONE
    {
      MeanOfWave(w, M, alpha[p]);
    }
    ProductOnes(s);
  }

  lemma {:induction false} DegreeZeros(n: nat)
    ensures Degree(Zeros(n)) == 0
  {
    if n > 0 {
      DegreeZeros(n - 1);
      assert Zeros(n)[1..] == Zeros(n - 1);
    }
  }

  /** The header's claim of equivalence, with its exact condition: one axis, or an order
      below the number of ring samples. */
  lemma {:induction false} ExtractorsAgreeExactly(Q: nat, order: nat, M: nat, w: Complex)
    requires Q >= 1 && Primitive(w, M)
    ensures ExtractorsAgree(Q, order, M, w) <==> Q == 1 || order < M
  {
    hide Mul, Inv, RingPoint, TensorCoefficient, SeparableCoefficient, Pow;
    if Q == 1 || order < M {
      forall F: seq<Complex> -> Complex, G: seq<Complex -> Complex>, z: seq<Complex>, rho: real, alpha: Index |
        |G| == Q && |z| == Q && rho > 0.0 && Separates(F, G) && InSimplex(alpha, Q, order)
        ensures TensorCoefficient(F, z, rho, M, w, alpha) == SeparableCoefficient(G, z, rho, M, w, alpha)
      {
        SeparableEqualsTensor(F, G, z, rho, M, w, alpha);
      }
    } else {
      var alpha := [M] + Zeros(Q - 1);
      DegreeZeros(Q - 1);
      assert alpha[1..] == Zeros(Q - 1);
      var z := seq(Q, i => ZERO);
      Aliasing(Q, z, 1.0, M, w, alpha);
      assert InSimplex(alpha, Q, order);
      assert OfReal(Q as real) != ONE;
    }
  }

  // ---------------------------------------------------------------- polynomial germs

  /** Around z the germ G is the polynomial c. */
  ghost predicate PolynomialAt(G: Complex -> Complex, z: Complex, c: seq<Complex>) {
    forall y :: G(Add(z, y)) == PolyValue(c, y)
  }

  /** w^{b k} w^{-a k} as a wave in one direction or the other. */
  lemma {:induction false} WaveProduct(w: Complex, a: nat, b: nat, k: nat)
    requires w != ZERO
    ensures Mul(Pow(Pow(w, k), b), Pow(Inv(w), a * k))
         == if a <= b then Pow(Pow(w, b - a), k) else Pow(Pow(Inv(w), a - b), k)
  {
    hide Mul, Inv;
    var v := Inv(w);
    PowMul(w, k, b);
    assert k * b == b * k;
    if a <= b {
      assert b * k == (b - a) * k + a * k;
      PowAdd(w, (b - a) * k, a * k);
      MulAssoc(Pow(w, (b - a) * k), Pow(w, a * k), Pow(v, a * k));
      InversePower(w, a * k);
      MulUnits(Pow(w, (b - a) * k));
      PowMul(w, b - a, k);
    } else {
      assert a * k == b * k + (a - b) * k;
      PowAdd(v, b * k, (a - b) * k);
      MulAssoc(Pow(w, b * k), Pow(v, b * k), Pow(v, (a - b) * k));
      InversePower(w, b * k);
      MulUnits(Pow(v, (a - b) * k));
      PowMul(v, a - b, k);
    }
  }

  ghost function DegreeWave(w: Complex, a: nat, b: nat): nat -> Complex
    requires w != ZERO
  {
    (k: nat) => Mul(Pow(Pow(w, k), b), Pow(Inv(w), a * k))
  }

  lemma {:induction false} MeanOfDegree(w: Complex, M: nat, a: nat, b: nat)
    requires Primitive(w, M) && a < M && b < M
    ensures Mean(M, DegreeWave(w, a, b)) == if a == b then ONE else ZERO
  {
    hide Mul, Inv;
    var x := if a <= b then Pow(w, b - a) else Pow(Inv(w), a - b);
    forall k: nat | k < M
      ensures DegreeWave(w, a, b)(k) == Powers(x)(k)
    {
      WaveProduct(w, a, b, k);
    }
    SumCongruence(M, DegreeWave(w, a, b), Powers(x));
    if a == b {
      forall k: nat | k < M
        ensures Powers(x)(k) == ONE
      {
        PowOne(k);
      }
      SumCongruence(M, Powers(x), Constant(ONE));
      MeanConstant(M, ONE);
    } else {
      if a < b {
        PowMul(w, b - a, M);
        PowMul(w, M, b - a);
        assert (b - a) * M == M * (b - a);
        PowOne(b - a);
      } else {
        InverseRoot(w, M, a - b);
      }
      MeanOfRoot(x, M);
    }
  }

  ghost function MonomialTable(c: seq<Complex>, rho: real, w: Complex, a: nat): (nat, nat) -> Complex
    requires w != ZERO
  {
    (k: nat, b: nat) =>
      if b < |c| then Mul(Mul(c[b], Pow(OfReal(rho), b)), DegreeWave(w, a, b)(k)) else ZERO
  }

  /** Round trip: below M the ring recovers the Taylor coefficients of a polynomial germ,
      scaled by rho^a. */
  lemma {:induction false} PolynomialExtraction(G: Complex -> Complex, z: Complex, c: seq<Complex>, rho: real, M: nat,
                                                w: Complex, a: nat)
    requires Primitive(w, M) && PolynomialAt(G, z, c) && |c| <= M && a < |c|
    ensures AxisCoefficient(G, z, rho, M, w, a) == Mul(Pow(OfReal(rho), a), c[a])
  {
    hide Mul, Inv, Pow;
    var n := |c|;
    var table := MonomialTable(c, rho, w, a);
    var ring := RingTerms(G, z, rho, w, a);
    forall k: nat | k < M
      ensures ring(k) == RowSums(n, table)(k)
    {
      RingTermSplits(G, z, c, rho, w, a, k);
    }
    SumCongruence(M, ring, RowSums(n, table));
    SumSwap(M, n, table);
    var means := (b: nat) => Mul(Weight(M), ColumnSums(M, table)(b));
    SumScale(n, Weight(M), ColumnSums(M, table), means);
    forall b: nat | b < n
      ensures means(b) == if a == b then Mul(c[b], Pow(OfReal(rho), b)) else ZERO
    {
      var f := Mul(c[b], Pow(OfReal(rho), b));
      SumScale(M, f, DegreeWave(w, a, b), Column(table, b));
      MulLeftComm(Weight(M), f, Sum(M, DegreeWave(w, a, b)));
      MeanOfDegree(w, M, a, b);
      MulUnits(f);
    }
    SumSingle(n, a, means);
    MulComm(c[a], Pow(OfReal(rho), a));
  }

  lemma {:induction false} RingTermSplits(G: Complex -> Complex, z: Complex, c: seq<Complex>, rho: real, w: Complex,
                                          a: nat, k: nat)
    requires w != ZERO && PolynomialAt(G, z, c)
    ensures RingTerms(G, z, rho, w, a)(k) == RowSums(|c|, MonomialTable(c, rho, w, a))(k)
  {
    hide Mul, Inv, Pow;
    var y := Mul(OfReal(rho), Pow(w, k));
    var e := Pow(Inv(w), a * k);
    var row := Row(MonomialTable(c, rho, w, a), k);
    assert G(Add(z, y)) == PolyValue(c, y);
    MulComm(PolyValue(c, y), e);
    forall b: nat | b < |c|
      ensures row(b) == Mul(e, PolyTerms(c, y)(b))
    {
      var r, p := Pow(OfReal(rho), b), Pow(Pow(w, k), b);
      PowProduct(OfReal(rho), Pow(w, k), b);
      MulComm(e, Mul(c[b], Mul(r, p)));
      MulAssoc(c[b], r, p);
      MulAssoc(Mul(c[b], r), p, e);
      assert row(b) == Mul(Mul(c[b], r), DegreeWave(w, a, b)(k));
      assert DegreeWave(w, a, b)(k) == Mul(p, e);
      assert PolyTerms(c, y)(b) == Mul(c[b], Mul(r, p));
    }
    SumScale(|c|, e, PolyTerms(c, y), row);
    assert RingPoint(z, rho, w, k) == Add(z, y);
    assert RingTerms(G, z, rho, w, a)(k) == Mul(G(Add(z, y)), e);
    assert RowSums(|c|, MonomialTable(c, rho, w, a))(k) == Sum(|c|, row);
  }
}
