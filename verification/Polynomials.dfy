/** Polynomials by their coefficients, lowest degree first (src/math/polynomial.cpp). */
module Polynomials {
  import opened ComplexField

  ghost function PolyTerms(c: seq<Complex>, y: Complex): nat -> Complex {
    (b: nat) => if b < |c| then Mul(c[b], Pow(y, b)) else ZERO
  }

  /** c[0] + c[1] y + c[2] y^2 + ... */
  ghost function PolyValue(c: seq<Complex>, y: Complex): Complex {
    Sum(|c|, PolyTerms(c, y))
  }

  lemma {:induction false} PolyFirst(c: seq<Complex>, y: Complex)
    requires c != []
    ensures PolyValue(c, y) == Add(c[0], Mul(y, PolyValue(c[1..], y)))
  {
    hide Mul;
    var f, g := PolyTerms(c, y), PolyTerms(c[1..], y);
    var next := (b: nat) => f(b + 1);
    SumFirst(|c|, f, next);
    MulUnits(c[0]);
    forall b: nat | b < |c| - 1
      ensures next(b) == Mul(y, g(b))
    {
      MulLeftComm(c[b + 1], y, Pow(y, b));
    }
    SumScale(|c| - 1, y, g, next);
  }

  /** `poly_eval`: Horner's scheme from the highest coefficient down. */
  method PolyEval(c: seq<Complex>, z: Complex) returns (acc: Complex)
    ensures acc == PolyValue(c, z)
  {
    hide Mul, Pow;
    acc := ZERO;
    var i := |c|;
    assert c[i..] == [];
    while i > 0
      invariant 0 <= i <= |c| && acc == PolyValue(c[i..], z)
    {
      i := i - 1;
      PolyFirst(c[i..], z);
      assert c[i..][1..] == c[i + 1..];
      MulComm(acc, z);
      acc := Add(Mul(acc, z), c[i]);
    }
    assert c[0..] == c;
  }

  // ---------------------------------------------------------------- values determine coefficients

  /** Synthetic division by (y - r). */
  ghost function Quotient(c: seq<Complex>, r: Complex): (q: seq<Complex>)
    ensures c != [] ==> |q| == |c| - 1
  {
    if |c| <= 1 then [] else [PolyValue(c[1..], r)] + Quotient(c[1..], r)
  }

  lemma {:induction false} QuotientDivides(c: seq<Complex>, r: Complex, y: Complex)
    requires c != []
    ensures PolyValue(c, y) == Add(PolyValue(c, r), Mul(Sub(y, r), PolyValue(Quotient(c, r), y)))
    decreases |c|
  {
    hide Mul, Pow;
    var rest, q := c[1..], Quotient(c, r);
    PolyFirst(c, y);
    PolyFirst(c, r);
    if rest == [] {
      NoTerms(rest, y);
      NoTerms(rest, r);
      NoTerms(q, y);
      MulUnits(y);
      MulUnits(r);
      MulUnits(Sub(y, r));
    } else {
      QuotientDivides(rest, r, y);
      PolyFirst(q, y);
      assert q[0] == PolyValue(rest, r) && q[1..] == Quotient(rest, r);
      HornerStep(c[0], y, r, PolyValue(rest, y), PolyValue(rest, r), PolyValue(q[1..], y));
    }
  }

  lemma {:induction false} NoTerms(c: seq<Complex>, y: Complex)
    requires c == []
    ensures PolyValue(c, y) == ZERO
  {
  }

  lemma {:induction false} HornerStep(c0: Complex, y: Complex, r: Complex, py: Complex, pr: Complex, q: Complex)
    requires py == Add(pr, Mul(Sub(y, r), q))
    ensures Add(c0, Mul(y, py)) == Add(Add(c0, Mul(r, pr)), Mul(Sub(y, r), Add(pr, Mul(y, q))))
  {
    hide Mul;
    MulAdd(y, pr, Mul(Sub(y, r), q));
    MulAdd(Sub(y, r), pr, Mul(y, q));
    MulLeftComm(y, Sub(y, r), q);
    MulSub(pr, y, r);
    assert Mul(Sub(y, r), pr) == Sub(Mul(y, pr), Mul(r, pr));
  }

  ghost predicate AllZeros(c: seq<Complex>) {
    forall i :: 0 <= i < |c| ==> c[i] == ZERO
  }

  lemma {:induction false} QuotientZero(c: seq<Complex>, r: Complex)
    requires c != [] && AllZeros(Quotient(c, r)) && PolyValue(c, r) == ZERO
    ensures AllZeros(c)
    decreases |c|
  {
    hide Mul, Pow, PolyValue;
    var rest, q := c[1..], Quotient(c, r);
    PolyFirst(c, r);
    MulUnits(r);
    if rest == [] {
      NoTerms(rest, r);
    } else {
      assert q[0] == PolyValue(rest, r) && q[1..] == Quotient(rest, r);
      QuotientZero(rest, r);
    }
    assert c[0] == ZERO;
    assert forall i :: 1 <= i < |c| ==> c[i] == rest[i - 1];
  }

  ghost predicate Distinct(xs: seq<Complex>) {
    forall i, j :: 0 <= i < j < |xs| ==> xs[i] != xs[j]
  }

  /** As many distinct roots as coefficients: only the zero polynomial. */
  lemma {:induction false} TooManyRoots(c: seq<Complex>, xs: seq<Complex>)
    requires |xs| == |c| && Distinct(xs)
    requires forall i :: 0 <= i < |xs| ==> PolyValue(c, xs[i]) == ZERO
    ensures AllZeros(c)
    decreases |c|
  {
    hide Mul, PolyValue, Quotient;
    if c != [] {
      var r, q := xs[0], Quotient(c, xs[0]);
      assert PolyValue(c, r) == ZERO;
      forall i | 1 <= i < |xs|
        ensures PolyValue(q, xs[i]) == ZERO
      {
        QuotientDivides(c, r, xs[i]);
        assert Sub(xs[i], r) != ZERO;
        NoZeroDivisors(Sub(xs[i], r), PolyValue(q, xs[i]));
      }
      TooManyRoots(q, xs[1..]);
      QuotientZero(c, r);
    }
  }

  lemma {:induction false} LongerPolynomial(c: seq<Complex>, d: seq<Complex>, y: Complex)
    requires |c| <= |d| && forall n: nat :: n < |d| ==> d[n] == SampleAt(c, n)
    ensures PolyValue(c, y) == PolyValue(d, y)
  {
    hide Mul, Pow;
    forall n: nat | n < |d|
      ensures PolyTerms(d, y)(n) == PolyTerms(c, y)(n)
    {
      MulUnits(Pow(y, n));
    }
    SumCongruence(|d|, PolyTerms(d, y), PolyTerms(c, y));
    SumTruncate(|c|, |d|, PolyTerms(c, y));
  }

  ghost function GapPolynomial(a: seq<Complex>, b: seq<Complex>): (c: seq<Complex>)
    ensures |c| == if |a| < |b| then |b| else |a|
    ensures forall n: nat :: n < |c| ==> c[n] == Sub(SampleAt(a, n), SampleAt(b, n))
  {
    seq(if |a| < |b| then |b| else |a|, n requires n >= 0 => Sub(SampleAt(a, n), SampleAt(b, n)))
  }

  lemma {:induction false} GapValue(a: seq<Complex>, b: seq<Complex>, y: Complex)
    ensures PolyValue(GapPolynomial(a, b), y) == Sub(PolyValue(a, y), PolyValue(b, y))
  {
    hide Mul, Pow;
    var c := GapPolynomial(a, b);
    forall n: nat | n < |c|
      ensures PolyTerms(c, y)(n) == Sub(PolyTerms(a, y)(n), PolyTerms(b, y)(n))
    {
      MulSub(Pow(y, n), SampleAt(a, n), SampleAt(b, n));
      MulUnits(Pow(y, n));
    }
    SumSub(|c|, PolyTerms(a, y), PolyTerms(b, y), PolyTerms(c, y));
    SumTruncate(|a|, |c|, PolyTerms(a, y));
    SumTruncate(|b|, |c|, PolyTerms(b, y));
  }

  ghost predicate SameCoefficients(a: seq<Complex>, b: seq<Complex>) {
    forall n: nat :: SampleAt(a, n) == SampleAt(b, n)
  }

  ghost function AtHorizon(c: seq<Complex>, h: nat): Complex {
    PolyValue(c, OfReal(h as real))
  }

  /** Two polynomials agree at every horizon exactly when their coefficients agree; the
      horizons 0, 1, ... up to the longer length already decide it. */
  lemma {:induction false} PolynomialIdentity(a: seq<Complex>, b: seq<Complex>, N: nat)
    requires N >= |a| && N >= |b|
    ensures SameCoefficients(a, b) <==>
      forall h: nat :: h < N ==> AtHorizon(a, h) == AtHorizon(b, h)
    ensures SameCoefficients(a, b) ==> forall y :: PolyValue(a, y) == PolyValue(b, y)
  {
    hide PolyValue, GapPolynomial;
    var c := GapPolynomial(a, b);
    if SameCoefficients(a, b) {
      forall y: Complex
        ensures PolyValue(a, y) == PolyValue(b, y)
      {
        GapValue(a, b, y);
        assert forall n: nat :: n < |c| ==> c[n] == ZERO;
        LongerPolynomial([], c, y);
        NoTerms([], y);
      }
    }
    if forall h: nat :: h < N ==> AtHorizon(a, h) == AtHorizon(b, h) {
      var xs := seq(|c|, i => OfReal(i as real));
      forall i | 0 <= i < |xs|
        ensures PolyValue(c, xs[i]) == ZERO
      {
        GapValue(a, b, xs[i]);
        assert AtHorizon(a, i) == AtHorizon(b, i);
      }
      TooManyRoots(c, xs);
      forall n: nat
        ensures SampleAt(a, n) == SampleAt(b, n)
      {
        if n < |c| {
          assert c[n] == ZERO;
        }
      }
    }
  }
}
