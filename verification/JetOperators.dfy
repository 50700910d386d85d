/** The derivation, integration and projection operators on truncated jets
    (src/math/taylor.cpp). */
module JetOperators {
  import opened ComplexField
  import opened MultiIndex
  import opened JetLattice
  import opened Results

  // ---------------------------------------------------------------- neighbours of an index

  /** a + e_i. */
  function Raise(a: Index, i: nat): (b: Index)
    requires i < |a|
    ensures |b| == |a| && b[i] == a[i] + 1
  {
    a[i := a[i] + 1]
  }

  /** a - e_i. */
  function Drop(a: Index, i: nat): (b: Index)
    requires i < |a| && a[i] > 0
    ensures |b| == |a| && b[i] == a[i] - 1
  {
    a[i := a[i] - 1]
  }

  lemma {:induction false} RaiseDegree(a: Index, i: nat)
    requires i < |a|
    ensures Degree(Raise(a, i)) == Degree(a) + 1
    ensures Drop(Raise(a, i), i) == a
  {
    if i > 0 {
      RaiseDegree(a[1..], i - 1);
      assert Raise(a, i)[1..] == Raise(a[1..], i - 1);
    } else {
      assert Raise(a, i)[1..] == a[1..];
    }
  }

  lemma {:induction false} DropDegree(a: Index, i: nat)
    requires i < |a| && a[i] > 0
    ensures Raise(Drop(a, i), i) == a
    ensures Degree(Drop(a, i)) + 1 == Degree(a)
  {
    RaiseDegree(Drop(a, i), i);
  }

  // ---------------------------------------------------------------- what the operators mean

  /** The factor of degree n under differentiation, n / eps, and under integration, eps / n. */
  function DFactor(eps: real, n: nat): real
    requires eps != 0.0
  {
    1.0 / eps * n as real
  }

  function IFactor(eps: real, n: nat): real
    requires n > 0
  {
    eps / n as real
  }

  /** Coefficient b of the derivative: (b_i + 1) / eps times the coefficient at b + e_i. */
  ghost function DerivedAt(J: Jet, i: nat, eps: real, b: Index): Complex
    requires Dense(J) && i < J.Q == |b| && eps != 0.0
  {
    Mul(OfReal(DFactor(eps, b[i] + 1)), At(J, Raise(b, i)))
  }

  /** Coefficient b of the integral: eps / b_i times the coefficient at b - e_i. */
  ghost function IntegratedAt(J: Jet, i: nat, eps: real, b: Index): Complex
    requires Dense(J) && i < J.Q == |b|
  {
    if b[i] == 0 then ZERO else Mul(OfReal(IFactor(eps, b[i])), At(J, Drop(b, i)))
  }

  ghost function ProjectedAt(J: Jet, i: nat, b: Index): Complex
    requires Dense(J) && i < J.Q == |b|
  {
    if b[i] == 0 then ZERO else At(J, b)
  }

  ghost predicate IsDerivative(R: Jet, J: Jet, i: nat, eps: real) {
    && Dense(J) && i < J.Q && eps != 0.0 && R.Q == J.Q && R.order == J.order && SupportedJet(R)
    && forall b: Index {:trigger At(R, b)} :: InSimplex(b, J.Q, J.order) ==> At(R, b) == DerivedAt(J, i, eps, b)
  }

  ghost predicate IsIntegral(R: Jet, J: Jet, i: nat, eps: real) {
    && Dense(J) && i < J.Q && R.Q == J.Q && R.order == J.order && SupportedJet(R)
    && forall b: Index {:trigger At(R, b)} :: InSimplex(b, J.Q, J.order) ==> At(R, b) == IntegratedAt(J, i, eps, b)
  }

  ghost predicate IsProjection(R: Jet, J: Jet, i: nat) {
    && Dense(J) && i < J.Q && R.Q == J.Q && R.order == J.order && Dense(R)
    && (SupportedJet(J) ==> SupportedJet(R))
    && forall b: Index {:trigger At(R, b)} :: InSimplex(b, J.Q, J.order) ==> At(R, b) == ProjectedAt(J, i, b)
  }

  // ---------------------------------------------------------------- identities

  lemma {:induction false} ScaleTwice(x: real, y: real, z: real, v: Complex)
    requires x * y == z
    ensures Mul(OfReal(x), Mul(OfReal(y), v)) == Mul(OfReal(z), v)
  {
    hide Mul, OfReal;
    OfRealHom(x, y);
    MulAssoc(OfReal(x), OfReal(y), v);
  }

  lemma {:induction false} UnitProduct(e: real, n: nat)
    requires e != 0.0 && n > 0
    ensures IFactor(e, n) * DFactor(e, n) == 1.0 && DFactor(e, n) * IFactor(e, n) == 1.0
  {
    var x := n as real;
    var p, q := e / x, 1.0 / e;
    assert p * x == e && q * e == 1.0;
    assert p * (q * x) == (p * x) * q;
  }

  lemma {:induction false} FactorsCancel(eps: real, n: nat, v: Complex)
    requires eps != 0.0 && n > 0
    ensures Mul(OfReal(IFactor(eps, n)), Mul(OfReal(DFactor(eps, n)), v)) == v
    ensures Mul(OfReal(DFactor(eps, n)), Mul(OfReal(IFactor(eps, n)), v)) == v
  {
    hide Mul, IFactor, DFactor;
    UnitProduct(eps, n);
    ScaleTwice(IFactor(eps, n), DFactor(eps, n), 1.0, v);
    ScaleTwice(DFactor(eps, n), IFactor(eps, n), 1.0, v);
    MulUnits(v);
  }

  /** I_i D_i is the projection, on every supported jet. */
  lemma {:induction false} IntegralOfDerivative(J: Jet, D: Jet, R: Jet, P: Jet, i: nat, eps: real)
    requires SupportedJet(J) && IsDerivative(D, J, i, eps) && IsIntegral(R, D, i, eps) && IsProjection(P, J, i)
    ensures R == P
  {
    hide Mul, Coef, At, DFactor, IFactor;
    forall b | InSimplex(b, J.Q, J.order)
      ensures At(R, b) == At(P, b)
    {
      if b[i] > 0 {
        DropDegree(b, i);
        assert At(D, Drop(b, i)) == DerivedAt(J, i, eps, Drop(b, i));
        FactorsCancel(eps, b[i], At(J, b));
      }
    }
    SameJet(R, P);
  }

  /** D_i I_i keeps every coefficient below the top degree and drops the top degree: it is
      not the projection the documentation states for every truncated jet. */
  lemma {:induction false} DerivativeOfIntegral(J: Jet, I: Jet, R: Jet, i: nat, eps: real, b: Index)
    requires eps != 0.0 && IsIntegral(I, J, i, eps) && IsDerivative(R, I, i, eps) && InSimplex(b, J.Q, J.order)
    ensures At(R, b) == if Degree(b) < J.order then At(J, b) else ZERO
  {
    hide Mul, Coef, At, DFactor, IFactor;
    RaiseDegree(b, i);
    var c := Raise(b, i);
    assert At(R, b) == DerivedAt(I, i, eps, b);
    if Degree(b) < J.order {
      assert At(I, c) == IntegratedAt(J, i, eps, c);
      FactorsCancel(eps, b[i] + 1, At(J, b));
    } else {
      OutsideIsZero(I, c);
      MulUnits(OfReal(DFactor(eps, b[i] + 1)));
    }
  }

  lemma {:induction false} OutsideIsZero(J: Jet, a: Index)
    requires Dense(J) && !InSimplex(a, J.Q, J.order)
    ensures At(J, a) == ZERO
  {
  }

  /** A jet with nothing at a_i == 0 below the top degree and nothing at a_i > 0 in it. */
  ghost predicate Projectable(J: Jet, i: nat)
    requires Dense(J) && i < J.Q
  {
    forall a: Index {:trigger At(J, a)} :: InSimplex(a, J.Q, J.order) ==>
      ((a[i] == 0) == (Degree(a) < J.order)) ==> At(J, a) == ZERO
  }

  /** The documented identity D_i I_i = projection, with its exact condition. */
  lemma {:induction false} DerivativeOfIntegralProjects(J: Jet, I: Jet, R: Jet, P: Jet, i: nat, eps: real)
    requires eps != 0.0 && SupportedJet(J)
    requires IsIntegral(I, J, i, eps) && IsDerivative(R, I, i, eps) && IsProjection(P, J, i)
    ensures R == P <==> Projectable(J, i)
  {
    hide Mul, Coef, At, IsIntegral, IsDerivative;
    IntegralShape(I, J, R, i, eps);
    forall b | InSimplex(b, J.Q, J.order)
      ensures At(R, b) == if Degree(b) < J.order then At(J, b) else ZERO
      ensures At(P, b) == if b[i] == 0 then ZERO else At(J, b)
    {
      DerivativeOfIntegral(J, I, R, i, eps, b);
    }
    if Projectable(J, i) {
      SameJet(R, P);
    }
    if R == P {
      forall a: Index | InSimplex(a, J.Q, J.order) && ((a[i] == 0) == (Degree(a) < J.order))
        ensures At(J, a) == ZERO
      {
        assert At(R, a) == At(P, a);
      }
    }
  }

  lemma {:induction false} IntegralShape(I: Jet, J: Jet, R: Jet, i: nat, eps: real)
    requires IsIntegral(I, J, i, eps) && IsDerivative(R, I, i, eps)
    ensures i < J.Q && R.Q == J.Q && R.order == J.order && SupportedJet(R) && Dense(R)
  {
  }

  /** On a projected jet of degree below the order, both compositions give the jet back: the
      case the engine's self-test checks. */
  lemma {:induction false} ProjectedRoundTrip(J: Jet, P: Jet, I: Jet, DI: Jet, D: Jet, ID: Jet, i: nat, eps: real)
    requires SupportedJet(J) && eps != 0.0 && IsProjection(P, J, i)
    requires forall a: Index {:trigger At(J, a)} :: InSimplex(a, J.Q, J.order) && Degree(a) == J.order ==>
      At(J, a) == ZERO
    requires IsIntegral(I, P, i, eps) && IsDerivative(DI, I, i, eps)
    requires IsDerivative(D, P, i, eps) && IsIntegral(ID, D, i, eps)
    ensures DI == P && ID == P
  {
    hide Mul, Coef, At;
    ProjectionIdempotent(J, P, i);
    IntegralOfDerivative(P, D, ID, P, i, eps);
    forall b | InSimplex(b, J.Q, J.order)
      ensures At(DI, b) == At(P, b)
    {
      DerivativeOfIntegral(P, I, DI, i, eps, b);
      assert At(P, b) == ProjectedAt(J, i, b);
    }
    SameJet(DI, P);
  }

  lemma {:induction false} ProjectionIdempotent(J: Jet, P: Jet, i: nat)
    requires SupportedJet(J) && IsProjection(P, J, i)
    ensures IsProjection(P, P, i)
  {
    hide Coef, At, Supported;
    forall b: Index | InSimplex(b, J.Q, J.order)
      ensures At(P, b) == ProjectedAt(P, i, b)
    {
      assert At(P, b) == ProjectedAt(J, i, b);
    }
  }

  lemma {:induction false} RaiseCommutes(a: Index, i: nat, j: nat)
    requires i < |a| && j < |a|
    ensures Raise(Raise(a, i), j) == Raise(Raise(a, j), i)
  {
  }

  /** Derivations along different axes, or the same one, commute. */
  lemma {:induction false} DerivationsCommute(J: Jet, Di: Jet, Dij: Jet, Dj: Jet, Dji: Jet, i: nat, j: nat,
                                              eps: real, del: real)
    requires IsDerivative(Di, J, i, eps) && IsDerivative(Dij, Di, j, del)
    requires IsDerivative(Dj, J, j, del) && IsDerivative(Dji, Dj, i, eps)
    ensures Dij == Dji
  {
    hide Mul, Coef, At, DFactor;
    forall b | InSimplex(b, J.Q, J.order)
      ensures At(Dij, b) == At(Dji, b)
    {
      DerivedTwice(J, Di, Dij, i, j, eps, del, b);
      DerivedTwice(J, Dj, Dji, j, i, del, eps, b);
      RaiseCommutes(b, i, j);
      var v := At(J, Raise(Raise(b, j), i));
      if i != j {
        MulLeftComm(OfReal(DFactor(del, b[j] + 1)), OfReal(DFactor(eps, b[i] + 1)), v);
      } else {
        SameAxis(b[i], eps, del, v);
      }
    }
    SameJet(Dij, Dji);
  }

  lemma {:induction false} SameAxis(n: nat, eps: real, del: real, v: Complex)
    requires eps != 0.0 && del != 0.0
    ensures Mul(OfReal(DFactor(del, n + 1)), Mul(OfReal(DFactor(eps, n + 2)), v))
         == Mul(OfReal(DFactor(eps, n + 1)), Mul(OfReal(DFactor(del, n + 2)), v))
  {
    hide Mul, DFactor;
    FactorSwap(n, eps, del);
    var z := DFactor(del, n + 1) * DFactor(eps, n + 2);
    ScaleTwice(DFactor(del, n + 1), DFactor(eps, n + 2), z, v);
    ScaleTwice(DFactor(eps, n + 1), DFactor(del, n + 2), z, v);
  }

  lemma {:induction false} FactorSwap(n: nat, eps: real, del: real)
    requires eps != 0.0 && del != 0.0
    ensures DFactor(del, n + 1) * DFactor(eps, n + 2) == DFactor(eps, n + 1) * DFactor(del, n + 2)
  {
    ProductSwap(1.0 / del, 1.0 / eps, (n + 1) as real, (n + 2) as real);
  }

  lemma {:induction false} ProductSwap(x: real, y: real, m: real, n: real)
    ensures (x * m) * (y * n) == (y * m) * (x * n)
  {
  }

  lemma {:induction false} DerivedTwice(J: Jet, D: Jet, R: Jet, i: nat, j: nat, eps: real, del: real, b: Index)
    requires IsDerivative(D, J, i, eps) && IsDerivative(R, D, j, del) && InSimplex(b, J.Q, J.order)
    ensures At(R, b) == Mul(OfReal(DFactor(del, b[j] + 1)),
                            Mul(OfReal(DFactor(eps, Raise(b, j)[i] + 1)), At(J, Raise(Raise(b, j), i))))
  {
    hide Mul, Coef, At, DFactor;
    var c := Raise(b, j);
    RaiseDegree(b, j);
    RaiseDegree(c, i);
    assert At(R, b) == DerivedAt(D, j, del, b);
    if InSimplex(c, J.Q, J.order) {
      assert At(D, c) == DerivedAt(J, i, eps, c);
    } else {
      OutsideIsZero(D, c);
      OutsideIsZero(J, Raise(c, i));
      MulUnits(OfReal(DFactor(eps, c[i] + 1)));
    }
  }

  // ---------------------------------------------------------------- the loops

  /** The derivative, as far as the listed indices have contributed to it. */
  ghost predicate PartlyDerived(coeff: seq<Complex>, K: Jet, i: nat, eps: real, done: seq<Index>)
    requires Dense(K) && i < K.Q && eps != 0.0 && |coeff| == |K.coeff|
  {
    && Supported(coeff, K.Q, K.order)
    && forall b: Index {:trigger Coef(coeff, K.Q, K.order, b)} :: InSimplex(b, K.Q, K.order) ==>
      Coef(coeff, K.Q, K.order, b) == if Raise(b, i) in done then DerivedAt(K, i, eps, b) else ZERO
  }

  lemma {:induction false} DeriveStep(coeff: seq<Complex>, K: Jet, i: nat, eps: real, done: seq<Index>, alpha: Index,
                                      beta: Index, v: Complex)
    requires Dense(K) && i < K.Q && eps != 0.0 && |coeff| == |K.coeff| && PartlyDerived(coeff, K, i, eps, done)
    requires InSimplex(alpha, K.Q, K.order) && alpha !in done && alpha[i] > 0 && beta == Drop(alpha, i)
    requires v == Mul(OfReal(DFactor(eps, alpha[i])), At(K, alpha))
    ensures Flat(K.Q, K.order, beta) < |coeff|
    ensures var dst := Flat(K.Q, K.order, beta);
      PartlyDerived(coeff[dst := Add(coeff[dst], v)], K, i, eps, done + [alpha])
  {
    hide Mul, Coef, Supported, Degree, DFactor;
    DropDegree(alpha, i);
    Stored(coeff, K.Q, K.order, beta);
    RaiseOnlyFrom(K.Q, K.order, i, alpha, beta);
    assert v == DerivedAt(K, i, eps, beta);
    CoefUpdate(coeff, K.Q, K.order, beta, Add(coeff[Flat(K.Q, K.order, beta)], v));
  }

  lemma {:induction false} DeriveSkip(coeff: seq<Complex>, K: Jet, i: nat, eps: real, done: seq<Index>, alpha: Index)
    requires Dense(K) && i < K.Q && eps != 0.0 && |coeff| == |K.coeff| && PartlyDerived(coeff, K, i, eps, done)
    requires InSimplex(alpha, K.Q, K.order) && alpha[i] == 0
    ensures PartlyDerived(coeff, K, i, eps, done + [alpha])
  {
    hide Mul, Coef, Supported, Degree, DFactor;
  }

  lemma {:induction false} DeriveDone(coeff: seq<Complex>, K: Jet, i: nat, eps: real, idx: seq<Index>)
    requires Dense(K) && i < K.Q && eps != 0.0 && |coeff| == |K.coeff| && PartlyDerived(coeff, K, i, eps, idx)
    requires idx == Simplex(K.Q, K.order)
    ensures IsDerivative(Jet(K.Q, K.order, coeff), K, i, eps)
  {
    hide Mul, Coef, Supported, Degree, DFactor, Simplex;
    forall b: Index | InSimplex(b, K.Q, K.order)
      ensures Coef(coeff, K.Q, K.order, b) == DerivedAt(K, i, eps, b)
    {
      SimplexMembers(K.Q, K.order, Raise(b, i));
      if Raise(b, i) !in idx {
        OutsideIsZero(K, Raise(b, i));
        MulUnits(OfReal(DFactor(eps, b[i] + 1)));
      }
    }
  }

  lemma {:induction false} NothingDerived(coeff: seq<Complex>, K: Jet, i: nat, eps: real)
    requires Dense(K) && i < K.Q && eps != 0.0 && |coeff| == |K.coeff|
    requires forall k :: 0 <= k < |coeff| ==> coeff[k] == ZERO
    ensures PartlyDerived(coeff, K, i, eps, [])
  {
    hide Mul, Coef, Supported, Degree, DFactor;
    CoefZeros(K.Q, K.order, coeff);
  }

  /** `apply_D`. */
  method ApplyD(J: Jet, i: int, eps: real) returns (r: Result<Jet>)
    ensures r.Ok? <==> 0 <= i < J.Q && eps != 0.0
    ensures r.Ok? && |J.coeff| < DenseSize(J.Q, J.order) ==> IsZeroJet(r.value, J)
    ensures r.Ok? && |J.coeff| >= DenseSize(J.Q, J.order) ==> IsDerivative(r.value, FullPart(J), i, eps)
  {
    if i < 0 || i >= J.Q || eps == 0.0 {
      return NumericError;
    }
    hide Mul, Coef, Supported, Simplex, LexIncreasing, Volume, Degree, PartlyDerived, IsDerivative, DFactor, LayoutOf;
    var size := ComputeDenseSize(J.Q, J.order);
    var coeff := seq(size, k => ZERO);
    if |J.coeff| < size {
      return Ok(Jet(J.Q, J.order, coeff));
    }
    ghost var K := FullPart(J);
    NothingDerived(coeff, K, i, eps);
    var layout := MakeLayout(J.Q, J.order);
    var idx := EnumerateMultiIndices(J.Q, J.order);
    var inv := 1.0 / eps;
    var n := 0;
    while n < |idx|
      invariant 0 <= n <= |idx| && |coeff| == size && PartlyDerived(coeff, K, i, eps, idx[..n])
    {
      var alpha := idx[n];
      SimplexMembers(J.Q, J.order, alpha);
      assert idx[..n + 1] == idx[..n] + [alpha];
      NotYetListed(J.Q, J.order, idx, n);
      if alpha[i] >= 1 {
        var beta := alpha[i := alpha[i] - 1];
        var src := Flatten(alpha, layout);
        var dst := Flatten(beta, layout);
        Stored(K.coeff, J.Q, J.order, alpha);
        var v := Mul(OfReal(inv * alpha[i] as real), J.coeff[src]);
        DFactorIs(eps, inv, alpha[i]);
        DeriveStep(coeff, K, i, eps, idx[..n], alpha, beta, v);
        coeff := coeff[dst := Add(coeff[dst], v)];
      } else {
        DeriveSkip(coeff, K, i, eps, idx[..n], alpha);
      }
      n := n + 1;
    }
    assert idx[..n] == idx;
    DeriveDone(coeff, K, i, eps, idx);
    r := Ok(Jet(J.Q, J.order, coeff));
  }

  lemma {:induction false} DFactorIs(eps: real, inv: real, n: nat)
    requires eps != 0.0 && inv == 1.0 / eps
    ensures DFactor(eps, n) == inv * n as real
  {
  }

  ghost predicate IsZeroJet(R: Jet, J: Jet) {
    && R.Q == J.Q && R.order == J.order && Dense(R)
    && forall k :: 0 <= k < |R.coeff| ==> R.coeff[k] == ZERO
  }

  lemma {:induction false} Stored(A: seq<Complex>, Q: nat, order: nat, a: Index)
    requires |A| == DenseSize(Q, order) && InSimplex(a, Q, order)
    ensures Flat(Q, order, a) < |A| && Coef(A, Q, order, a) == A[Flat(Q, order, a)]
  {
    FlatInDense(Q, order, a);
  }

  /** An index is listed once. */
  lemma {:induction false} NotYetListed(Q: nat, order: nat, idx: seq<Index>, n: nat)
    requires idx == Simplex(Q, order) && n < |idx|
    ensures idx[n] !in idx[..n]
  {
    SimplexNoRepeats(Q, order);
  }

  lemma {:induction false} RaiseOnlyFrom(Q: nat, order: nat, i: nat, alpha: Index, beta: Index)
    requires |alpha| == Q && i < Q && alpha[i] > 0 && beta == Drop(alpha, i)
    ensures Raise(beta, i) == alpha
    ensures forall b: Index :: |b| == Q && Raise(b, i) == alpha ==> b == beta
  {
    forall b: Index | |b| == Q && Raise(b, i) == alpha
      ensures b == beta
    {
      RaiseDegree(b, i);
    }
  }

  /** The integral, as far as the listed indices have contributed to it. */
  ghost predicate PartlyIntegrated(coeff: seq<Complex>, K: Jet, i: nat, eps: real, done: seq<Index>)
    requires Dense(K) && i < K.Q && |coeff| == |K.coeff|
  {
    && Supported(coeff, K.Q, K.order)
    && forall b: Index {:trigger Coef(coeff, K.Q, K.order, b)} :: InSimplex(b, K.Q, K.order) ==>
      Coef(coeff, K.Q, K.order, b)
        == if b[i] > 0 && Drop(b, i) in done then IntegratedAt(K, i, eps, b) else ZERO
  }

  lemma {:induction false} IntegrateStep(coeff: seq<Complex>, K: Jet, i: nat, eps: real, done: seq<Index>,
                                         alpha: Index, beta: Index, v: Complex)
    requires Dense(K) && i < K.Q && |coeff| == |K.coeff| && PartlyIntegrated(coeff, K, i, eps, done)
    requires InSimplex(alpha, K.Q, K.order) && alpha !in done && beta == Raise(alpha, i) && Degree(alpha) + 1 <= K.order
    requires v == Mul(OfReal(IFactor(eps, alpha[i] + 1)), At(K, alpha))
    ensures Flat(K.Q, K.order, beta) < |coeff|
    ensures var dst := Flat(K.Q, K.order, beta);
      PartlyIntegrated(coeff[dst := Add(coeff[dst], v)], K, i, eps, done + [alpha])
  {
    hide Mul, Coef, Supported, Degree, IFactor;
    RaiseDegree(alpha, i);
    Stored(coeff, K.Q, K.order, beta);
    DropOnlyFrom(K.Q, i, alpha);
    assert v == IntegratedAt(K, i, eps, beta);
    CoefUpdate(coeff, K.Q, K.order, beta, Add(coeff[Flat(K.Q, K.order, beta)], v));
  }

  lemma {:induction false} IntegrateSkip(coeff: seq<Complex>, K: Jet, i: nat, eps: real, done: seq<Index>,
                                         alpha: Index)
    requires Dense(K) && i < K.Q && |coeff| == |K.coeff| && PartlyIntegrated(coeff, K, i, eps, done)
    requires InSimplex(alpha, K.Q, K.order) && Degree(alpha) + 1 > K.order
    ensures PartlyIntegrated(coeff, K, i, eps, done + [alpha])
  {
    hide Mul, Coef, Supported, Degree, IFactor;
    RaiseDegree(alpha, i);
    DropOnlyFrom(K.Q, i, alpha);
  }

  lemma {:induction false} IntegrateDone(coeff: seq<Complex>, K: Jet, i: nat, eps: real, idx: seq<Index>)
    requires Dense(K) && i < K.Q && |coeff| == |K.coeff| && PartlyIntegrated(coeff, K, i, eps, idx)
    requires idx == Simplex(K.Q, K.order)
    ensures IsIntegral(Jet(K.Q, K.order, coeff), K, i, eps)
  {
    hide Mul, Coef, Supported, Degree, IFactor, Simplex;
    forall b: Index | InSimplex(b, K.Q, K.order)
      ensures Coef(coeff, K.Q, K.order, b) == IntegratedAt(K, i, eps, b)
    {
      if b[i] > 0 {
        DropDegree(b, i);
        SimplexMembers(K.Q, K.order, Drop(b, i));
      }
    }
  }

  lemma {:induction false} NothingIntegrated(coeff: seq<Complex>, K: Jet, i: nat, eps: real)
    requires Dense(K) && i < K.Q && |coeff| == |K.coeff|
    requires forall k :: 0 <= k < |coeff| ==> coeff[k] == ZERO
    ensures PartlyIntegrated(coeff, K, i, eps, [])
  {
    hide Mul, Coef, Supported, Degree, IFactor;
    CoefZeros(K.Q, K.order, coeff);
  }

  /** `apply_I`. */
  method ApplyI(J: Jet, i: int, eps: real) returns (r: Result<Jet>)
    ensures r.Ok? <==> 0 <= i < J.Q
    ensures r.Ok? && |J.coeff| < DenseSize(J.Q, J.order) ==> IsZeroJet(r.value, J)
    ensures r.Ok? && |J.coeff| >= DenseSize(J.Q, J.order) ==> IsIntegral(r.value, FullPart(J), i, eps)
  {
    if i < 0 || i >= J.Q {
      return NumericError;
    }
    hide Mul, Coef, Supported, Simplex, LexIncreasing, Volume, Degree, PartlyIntegrated, IsIntegral, LayoutOf;
    var size := ComputeDenseSize(J.Q, J.order);
    var coeff := seq(size, k => ZERO);
    if |J.coeff| < size {
      return Ok(Jet(J.Q, J.order, coeff));
    }
    ghost var K := FullPart(J);
    NothingIntegrated(coeff, K, i, eps);
    var layout := MakeLayout(J.Q, J.order);
    var idx := EnumerateMultiIndices(J.Q, J.order);
    var n := 0;
    while n < |idx|
      invariant 0 <= n <= |idx| && |coeff| == size && PartlyIntegrated(coeff, K, i, eps, idx[..n])
    {
      var alpha := idx[n];
      SimplexMembers(J.Q, J.order, alpha);
      assert idx[..n + 1] == idx[..n] + [alpha];
      NotYetListed(J.Q, J.order, idx, n);
      if Degree(alpha) + 1 <= J.order {
        var beta := alpha[i := alpha[i] + 1];
        var src := Flatten(alpha, layout);
        var dst := Flatten(beta, layout);
        Stored(K.coeff, J.Q, J.order, alpha);
        var v := Mul(OfReal(eps / (alpha[i] + 1) as real), J.coeff[src]);
        IntegrateStep(coeff, K, i, eps, idx[..n], alpha, beta, v);
        coeff := coeff[dst := Add(coeff[dst], v)];
      } else {
        IntegrateSkip(coeff, K, i, eps, idx[..n], alpha);
      }
      n := n + 1;
    }
    assert idx[..n] == idx;
    IntegrateDone(coeff, K, i, eps, idx);
    r := Ok(Jet(J.Q, J.order, coeff));
  }

  lemma {:induction false} DropOnlyFrom(Q: nat, i: nat, alpha: Index)
    requires |alpha| == Q && i < Q
    ensures Drop(Raise(alpha, i), i) == alpha
    ensures forall b: Index :: |b| == Q && b[i] > 0 && Drop(b, i) == alpha ==> b == Raise(alpha, i)
  {
    RaiseDegree(alpha, i);
    forall b: Index | |b| == Q && b[i] > 0 && Drop(b, i) == alpha
      ensures b == Raise(alpha, i)
    {
      DropDegree(b, i);
    }
  }

  /** Storage position k belongs to a listed index with nothing on axis i. */
  ghost predicate OnFace(list: seq<Index>, Q: nat, order: nat, i: nat, k: nat)
    requires i < Q
  {
    k < DenseSize(Q, order) &&
    var a := UnrankAt(Q, order, k);
    a in list && a[i] == 0
  }

  ghost function UnrankAt(Q: nat, order: nat, k: nat): (a: Index)
    requires k < DenseSize(Q, order)
    ensures |a| == Q
  {
    RankUnrank(Uniform(Q, order + 1), k);
    Unrank(Uniform(Q, order + 1), k)
  }

  /** `project_perp`: whatever the size of the array, it is padded to the dense size, the
      entries of indices with nothing on the axis are cleared, and all others are kept. */
  method ProjectPerp(J: Jet, i: int) returns (r: Result<Jet>)
    ensures r.Ok? <==> 0 <= i < J.Q
    ensures r.Ok? ==> r.value.Q == J.Q && r.value.order == J.order
    ensures r.Ok? ==>
      |r.value.coeff| == if |J.coeff| < DenseSize(J.Q, J.order) then DenseSize(J.Q, J.order) else |J.coeff|
    ensures r.Ok? ==> forall k: nat :: k < |r.value.coeff| ==>
      r.value.coeff[k] == if OnFace(Simplex(J.Q, J.order), J.Q, J.order, i, k) then ZERO else SampleAt(J.coeff, k)
    ensures r.Ok? && Dense(J) ==> IsProjection(r.value, J, i)
  {
    if i < 0 || i >= J.Q {
      return NumericError;
    }
    hide Mul, Simplex, LexIncreasing, Volume, Degree, OnFace, Supported, Coef;
    var size := ComputeDenseSize(J.Q, J.order);
    var coeff := J.coeff;
    if |coeff| < size {
      coeff := coeff + seq(size - |coeff|, k => ZERO);
    }
    var layout := MakeLayout(J.Q, J.order);
    var idx := EnumerateMultiIndices(J.Q, J.order);
    var n := 0;
    NoFace(J.Q, J.order, i);
    while n < |idx|
      invariant 0 <= n <= |idx|
      invariant |coeff| == if |J.coeff| < size then size else |J.coeff|
      invariant forall k: nat :: k < |coeff| ==>
        coeff[k] == if OnFace(idx[..n], J.Q, J.order, i, k) then ZERO else SampleAt(J.coeff, k)
    {
      var alpha := idx[n];
      SimplexMembers(J.Q, J.order, alpha);
      FlatInDense(J.Q, J.order, alpha);
      assert idx[..n + 1] == idx[..n] + [alpha];
      ghost var before := coeff;
      if alpha[i] == 0 {
        var k := Flatten(alpha, layout);
        coeff := coeff[k := ZERO];
      }
      forall k: nat | k < |coeff|
        ensures coeff[k] == if OnFace(idx[..n + 1], J.Q, J.order, i, k) then ZERO else SampleAt(J.coeff, k)
      {
        FaceGrows(idx[..n], alpha, J.Q, J.order, i, k);
      }
      n := n + 1;
    }
    assert idx[..n] == idx;
    r := Ok(Jet(J.Q, J.order, coeff));
    if Dense(J) {
      FaceProjects(J, r.value, i);
    }
  }

  lemma {:induction false} NoFace(Q: nat, order: nat, i: nat)
    requires i < Q
    ensures forall k: nat :: !OnFace([], Q, order, i, k)
  {
  }

  lemma {:induction false} FaceGrows(list: seq<Index>, a: Index, Q: nat, order: nat, i: nat, k: nat)
    requires i < Q && InSimplex(a, Q, order)
    ensures OnFace(list + [a], Q, order, i, k) <==>
      OnFace(list, Q, order, i, k) || (k == Flat(Q, order, a) && a[i] == 0)
  {
    hide Volume, Degree;
    FlatInDense(Q, order, a);
    if k < DenseSize(Q, order) {
      RankUnrank(Uniform(Q, order + 1), k);
    }
  }

  /** On a dense jet clearing the face is the projection. */
  lemma {:induction false} FaceProjects(J: Jet, R: Jet, i: nat)
    requires Dense(J) && i < J.Q && R.Q == J.Q && R.order == J.order && |R.coeff| == |J.coeff|
    requires forall k: nat :: k < |R.coeff| ==>
      R.coeff[k] == if OnFace(Simplex(J.Q, J.order), J.Q, J.order, i, k) then ZERO else SampleAt(J.coeff, k)
    ensures IsProjection(R, J, i)
  {
    hide Simplex, Volume, Degree;
    forall b: Index | InSimplex(b, J.Q, J.order)
      ensures At(R, b) == ProjectedAt(J, i, b)
    {
      FlatInDense(J.Q, J.order, b);
      SimplexMembers(J.Q, J.order, b);
      assert UnrankAt(J.Q, J.order, Flat(J.Q, J.order, b)) == b;
    }
    if SupportedJet(J) {
      forall k: nat | k < |R.coeff| && !InSimplex(Unrank(Uniform(J.Q, J.order + 1), k), J.Q, J.order)
        ensures R.coeff[k] == ZERO
      {
        assert J.coeff[k] == ZERO;
      }
    }
  }

  /** The documented identity fails already for the constant one in one variable: D I keeps
      it, the projection drops it. */
  lemma {:induction false} ConstantBreaksProjection(J: Jet, I: Jet, R: Jet, P: Jet, eps: real)
    requires eps != 0.0 && J == Jet(1, 1, [ONE, ZERO])
    requires IsIntegral(I, J, 0, eps) && IsDerivative(R, I, 0, eps) && IsProjection(P, J, 0)
    ensures SupportedJet(J) && R != P
  {
    hide IsIntegral, IsDerivative, IsProjection, Projectable;
    ConstantJet(J);
    DerivativeOfIntegralProjects(J, I, R, P, 0, eps);
  }

  lemma {:induction false} ConstantJet(J: Jet)
    requires J == Jet(1, 1, [ONE, ZERO])
    ensures SupportedJet(J) && Dense(J) && !Projectable(J, 0)
  {
    var a: Index := [0];
    assert Uniform(1, 2)[1..] == [];
    assert DenseSize(1, 1) == 2;
    assert a[1..] == [];
    assert Degree(a) == 0;
    assert Flat(1, 1, a) == 0;
    forall k: nat | k < 2
      ensures InSimplex(Unrank(Uniform(1, 2), k), 1, 1)
    {
      RankUnrank(Uniform(1, 2), k);
      var b := Unrank(Uniform(1, 2), k);
      assert b[1..] == [];
      assert Degree(b) == b[0] + Degree(b[1..]);
    }
    assert At(J, a) == ONE;
  }
}
