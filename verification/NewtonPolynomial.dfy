/** The Newton form with K differences is a polynomial with K coefficients: it can be rewritten
    from the rising basis to powers. */
module NewtonPolynomial {
  import opened ComplexField
  import opened Polynomials
  import opened NewtonGregory
  import opened Modes

  ghost function Powers(y: Complex): nat -> Complex {
    (n: nat) => Pow(y, n)
  }

  lemma {:induction false} OperatorIsValue(p: seq<Complex>, y: Complex)
    ensures Operator(p, Powers(y), 0) == PolyValue(p, y)
  {
    hide Mul, Pow;
    SumCongruence(|p|, OperatorTerms(p, Powers(y), 0), PolyTerms(p, y));
  }

  /** The coefficients of (x - mu) p multiply the value by y - mu. */
  lemma {:induction false} TimesLinearValue(p: seq<Complex>, mu: Complex, y: Complex)
    ensures PolyValue(TimesLinear(p, mu), y) == Mul(Sub(y, mu), PolyValue(p, y))
  {
    hide Mul, Pow, TimesLinear, OperatorTerms, PolyTerms, Shifted, Powers, Sub;
    OperatorIsValue(TimesLinear(p, mu), y);
    OperatorTimesLinear(p, mu, Powers(y), 0);
    var f, g := OperatorTerms(p, Shifted(Powers(y), mu), 0), PolyTerms(p, y);
    forall k: nat | k < |p|
      ensures f(k) == Mul(Sub(y, mu), g(k))
    {
      ShiftedTermAt(p, y, mu, k);
      ShiftedPower(p[k], y, mu, k);
    }
    SumScale(|p|, Sub(y, mu), g, f);
  }

  lemma {:induction false} ShiftedTermAt(p: seq<Complex>, y: Complex, mu: Complex, k: nat)
    requires k < |p|
    ensures OperatorTerms(p, Shifted(Powers(y), mu), 0)(k) == Mul(p[k], Shifted(Powers(y), mu)(k))
    ensures PolyTerms(p, y)(k) == Mul(p[k], Pow(y, k))
  {
    hide Mul, Pow, Shifted;
  }

  lemma {:induction false} ShiftedPower(c: Complex, y: Complex, mu: Complex, k: nat)
    ensures Mul(c, Shifted(Powers(y), mu)(k)) == Mul(Sub(y, mu), Mul(c, Pow(y, k)))
  {
    hide Mul, Shifted, Powers, Sub, Pow;
    PowerStep(y, k);
    ShiftedAt(Powers(y), mu, k);
    MulSub(Pow(y, k), y, mu);
    MulLeftComm(c, Sub(y, mu), Pow(y, k));
  }

  lemma {:induction false} PowerStep(y: Complex, k: nat)
    ensures Powers(y)(k) == Pow(y, k) && Powers(y)(k + 1) == Mul(y, Pow(y, k))
  {
    hide Mul;
  }

  ghost function Scaled(p: seq<Complex>, x: Complex): (q: seq<Complex>)
    ensures |q| == |p| && forall k :: 0 <= k < |p| ==> q[k] == Mul(x, p[k])
  {
    seq(|p|, k requires 0 <= k < |p| => Mul(x, p[k]))
  }

  lemma {:induction false} ScaledValue(p: seq<Complex>, x: Complex, y: Complex)
    ensures PolyValue(Scaled(p, x), y) == Mul(x, PolyValue(p, y))
  {
    hide Mul, Pow;
    var f, g := PolyTerms(Scaled(p, x), y), PolyTerms(p, y);
    forall k: nat | k < |p|
      ensures f(k) == Mul(x, g(k))
    {
      MulAssoc(x, p[k], Pow(y, k));
    }
    SumScale(|p|, x, g, f);
  }

  lemma {:induction false} ConstantAdded(p: seq<Complex>, c: Complex, y: Complex)
    requires p != []
    ensures PolyValue(p[0 := Add(p[0], c)], y) == Add(c, PolyValue(p, y))
  {
    hide Mul, PolyValue;
    var q := p[0 := Add(p[0], c)];
    PolyFirst(p, y);
    PolyFirst(q, y);
    assert q[1..] == p[1..];
  }

  /** q(k) + (x + k) / (k + 1) (q(k+1) + (x + k + 1) / (k + 2) (q(k+2) + ...)), up to q(K-1). */
  ghost function Nested(q: nat -> Complex, k: nat, K: nat): (c: seq<Complex>)
    requires k < K
    ensures |c| == K - k
    decreases K - k
  {
    if k == K - 1 then [q(k)]
    else
      var p := Scaled(TimesLinear(Nested(q, k + 1, K), OfReal(-(k as real))), OfReal(1.0 / (k + 1) as real));
      p[0 := Add(p[0], q(k))]
  }

  lemma {:induction false} NestedStep(q: nat -> Complex, k: nat, K: nat, h: real)
    requires k + 1 < K
    ensures var v := PolyValue(Nested(q, k + 1, K), OfReal(h));
      PolyValue(Nested(q, k, K), OfReal(h))
        == Add(q(k), Mul(OfReal(1.0 / (k + 1) as real), Mul(OfReal(h + k as real), v)))
  {
    hide Mul, PolyValue, TimesLinear, Scaled;
    var c, y := Nested(q, k + 1, K), OfReal(h);
    var t := TimesLinear(c, OfReal(-(k as real)));
    var p := Scaled(t, OfReal(1.0 / (k + 1) as real));
    ConstantAdded(p, q(k), y);
    ScaledValue(t, OfReal(1.0 / (k + 1) as real), y);
    TimesLinearValue(c, OfReal(-(k as real)), y);
    assert Sub(y, OfReal(-(k as real))) == OfReal(h + k as real);
  }

  lemma {:induction false} BetaNext(k: nat, h: real)
    ensures Beta(k + 1, h) == 1.0 / (k + 1) as real * (h + k as real) * Beta(k, h)
  {
    hide Beta;
    BetaStep(k, h);
    FromProduct((k + 1) as real, Beta(k + 1, h), (h + k as real) * Beta(k, h));
    Regroup(1.0 / (k + 1) as real, h + k as real, Beta(k, h));
  }

  lemma {:induction false} FromProduct(n: real, x: real, y: real)
    requires n > 0.0 && n * x == y
    ensures x == 1.0 / n * y
  {
  }

  lemma {:induction false} Regroup(a: real, b: real, c: real)
    ensures a * (b * c) == a * b * c
  {
  }

  /** One step: beta_k (q + f g v) == beta_k q + beta_{k+1} v. */
  lemma {:induction false} LiftStep(b: real, f: real, g: real, fg: real, q: Complex, v: Complex, b': real)
    requires fg == f * g && b' == fg * b
    ensures Mul(OfReal(b), Add(q, Mul(OfReal(f), Mul(OfReal(g), v)))) == Add(Mul(OfReal(b), q), Mul(OfReal(b'), v))
  {
    hide Mul, OfReal;
    MulAdd(OfReal(b), q, Mul(OfReal(f), Mul(OfReal(g), v)));
    MulAssoc(OfReal(f), OfReal(g), v);
    OfRealHom(f, g);
    MulAssoc(OfReal(b), OfReal(fg), v);
    MulComm(OfReal(b), OfReal(fg));
    OfRealHom(fg, b);
  }

  lemma {:induction false} NestedSum(q: nat -> Complex, k: nat, K: nat, h: real)
    requires k < K
    ensures NewtonSum(q, K, h)
         == Add(NewtonSum(q, k, h), Mul(OfReal(Beta(k, h)), PolyValue(Nested(q, k, K), OfReal(h))))
    decreases K - k
  {
    hide Mul, Beta, PolyValue, Nested;
    SumStep(k, NewtonTerms(q, h));
    if k == K - 1 {
      NestedLast(q, k, h);
    } else {
      NestedSum(q, k + 1, K, h);
      NestedStep(q, k, K, h);
      BetaNext(k, h);
      var f, g := 1.0 / (k + 1) as real, h + k as real;
      LiftStep(Beta(k, h), f, g, f * g, q(k), PolyValue(Nested(q, k + 1, K), OfReal(h)), Beta(k + 1, h));
    }
  }

  lemma {:induction false} NestedLast(q: nat -> Complex, k: nat, h: real)
    ensures PolyValue(Nested(q, k, k + 1), OfReal(h)) == q(k)
  {
    hide Mul, PolyValue;
    PolyFirst([q(k)], OfReal(h));
    NoTerms([q(k)][1..], OfReal(h));
    MulUnits(OfReal(h));
  }

  /** The Newton form as a polynomial in powers, at every real horizon. */
  lemma {:induction false} NewtonIsPolynomial(q: nat -> Complex, K: nat, h: real)
    requires K > 0
    ensures NewtonSum(q, K, h) == PolyValue(Nested(q, 0, K), OfReal(h))
  {
    hide Mul, Beta, PolyValue, Nested;
    NestedSum(q, 0, K, h);
    BetaStep(0, h);
    MulUnits(PolyValue(Nested(q, 0, K), OfReal(h)));
  }
}
