/** Confluent modes C(h, s) lambda^{h-s}: the recurrences that annihilate them and their
    linear independence. */
module Modes {
  import opened ComplexField
  import opened Combinatorics
  import opened LinearAlgebra

  /** The mode value at horizon h; it is 0 while h < s. */
  function ModeValue(lambda: Complex, s: nat, h: nat): Complex {
    if h < s then ZERO else Mul(OfReal(Choose(h, s) as real), Pow(lambda, h - s))
  }

  ghost function ModeSequence(lambda: Complex, s: nat): nat -> Complex {
    (h: nat) => ModeValue(lambda, s, h)
  }

  // ---------------------------------------------------------------- shift operators

  /** (S - mu) f, S being the shift to the next term. */
  ghost function Shifted(f: nat -> Complex, mu: Complex): nat -> Complex {
    (h: nat) => Sub(f(h + 1), Mul(mu, f(h)))
  }

  lemma {:induction false} ShiftedAt(f: nat -> Complex, mu: Complex, h: nat)
    ensures Shifted(f, mu)(h) == Sub(f(h + 1), Mul(mu, f(h)))
  {
    hide Mul, Sub;
  }

  /** The product of (S - mu) over a list, applied to f. */
  ghost function Chain(roots: seq<Complex>, f: nat -> Complex): nat -> Complex {
    if roots == [] then f else Chain(roots[1..], Shifted(f, roots[0]))
  }

  /** f is a g1 + b g2. */
  ghost predicate Combines(f: nat -> Complex, a: Complex, g1: nat -> Complex, b: Complex, g2: nat -> Complex) {
    forall h: nat :: f(h) == Add(Mul(a, g1(h)), Mul(b, g2(h)))
  }

  /** The arithmetic of one step: y = a x1 + b x2 now, y' = a x1' + b x2' next. */
  lemma {:induction false} StepLinear(mu: Complex, a: Complex, x1: Complex, x1': Complex, b: Complex, x2: Complex,
                                      x2': Complex)
    ensures Sub(Add(Mul(a, x1'), Mul(b, x2')), Mul(mu, Add(Mul(a, x1), Mul(b, x2))))
         == Add(Mul(a, Sub(x1', Mul(mu, x1))), Mul(b, Sub(x2', Mul(mu, x2))))
  {
    hide Mul;
    MulAdd(mu, Mul(a, x1), Mul(b, x2));
    MulLeftComm(mu, a, x1);
    MulLeftComm(mu, b, x2);
    MulSub(a, x1', Mul(mu, x1));
    MulSub(b, x2', Mul(mu, x2));
  }

  lemma {:induction false} ShiftedLinear(f: nat -> Complex, a: Complex, g1: nat -> Complex, b: Complex,
                                         g2: nat -> Complex, mu: Complex)
    requires Combines(f, a, g1, b, g2)
    ensures Combines(Shifted(f, mu), a, Shifted(g1, mu), b, Shifted(g2, mu))
  {
    hide Mul, Add, Sub, Shifted;
    forall h: nat
      ensures Shifted(f, mu)(h) == Add(Mul(a, Shifted(g1, mu)(h)), Mul(b, Shifted(g2, mu)(h)))
    {
      ShiftedAt(f, mu, h);
      ShiftedAt(g1, mu, h);
      ShiftedAt(g2, mu, h);
      StepLinear(mu, a, g1(h), g1(h + 1), b, g2(h), g2(h + 1));
    }
  }

  lemma {:induction false} ChainLinear(roots: seq<Complex>, f: nat -> Complex, a: Complex, g1: nat -> Complex,
                                       b: Complex, g2: nat -> Complex)
    requires Combines(f, a, g1, b, g2)
    ensures Combines(Chain(roots, f), a, Chain(roots, g1), b, Chain(roots, g2))
  {
    hide Combines;
    if roots != [] {
      ShiftedLinear(f, a, g1, b, g2, roots[0]);
      ChainLinear(roots[1..], Shifted(f, roots[0]), a, Shifted(g1, roots[0]), b, Shifted(g2, roots[0]));
    }
  }

  ghost predicate Vanishes(f: nat -> Complex) {
    forall h: nat :: f(h) == ZERO
  }

  lemma {:induction false} ChainOfZero(roots: seq<Complex>, f: nat -> Complex)
    requires Vanishes(f)
    ensures Vanishes(Chain(roots, f))
  {
    hide Mul;
    forall h: nat
      ensures f(h) == Add(Mul(ZERO, f(h)), Mul(ZERO, f(h)))
    {
      MulUnits(f(h));
    }
    ChainLinear(roots, f, ZERO, f, ZERO, f);
    forall h: nat
      ensures Chain(roots, f)(h) == ZERO
    {
      MulUnits(Chain(roots, f)(h));
    }
  }

  /** (S - mu) lowers s and scales: C(h+1, s) = C(h, s) + C(h, s-1). */
  lemma {:induction false} ModeStep(lambda: Complex, s: nat, h: nat)
    ensures ModeValue(lambda, s, h + 1)
         == Add(if s == 0 then ZERO else ModeValue(lambda, s - 1, h), Mul(lambda, ModeValue(lambda, s, h)))
  {
    hide Mul;
    MulUnits(lambda);
    if h + 1 < s {
    } else if h + 1 == s {
      ChooseAll(s);
      ChooseAll(h);
      MulUnits(ONE);
    } else {
      var p := Pow(lambda, h + 1 - s);
      assert p == Mul(lambda, Pow(lambda, h - s));
      MulLeftComm(lambda, OfReal(Choose(h, s) as real), Pow(lambda, h - s));
      if s > 0 {
        assert Choose(h + 1, s) == Choose(h, s - 1) + Choose(h, s);
        OfRealHom(Choose(h, s - 1) as real, Choose(h, s) as real);
        MulAdd(p, OfReal(Choose(h, s - 1) as real), OfReal(Choose(h, s) as real));
      }
    }
  }

  ghost function LowerMode(lambda: Complex, s: nat): nat -> Complex {
    if s == 0 then (h: nat) => ZERO else ModeSequence(lambda, s - 1)
  }

  lemma {:induction false} ShiftedMode(lambda: Complex, s: nat, mu: Complex)
    ensures Combines(Shifted(ModeSequence(lambda, s), mu), ONE, LowerMode(lambda, s),
                     Sub(lambda, mu), ModeSequence(lambda, s))
  {
    hide Mul, Sub, Add, ModeValue, Shifted;
    forall h: nat
      ensures Shifted(ModeSequence(lambda, s), mu)(h)
           == Add(Mul(ONE, LowerMode(lambda, s)(h)), Mul(Sub(lambda, mu), ModeSequence(lambda, s)(h)))
    {
      ShiftedAt(ModeSequence(lambda, s), mu, h);
      ShiftedModeAt(lambda, s, mu, h);
    }
  }

  lemma {:induction false} ShiftedModeAt(lambda: Complex, s: nat, mu: Complex, h: nat)
    ensures Sub(ModeValue(lambda, s, h + 1), Mul(mu, ModeValue(lambda, s, h)))
         == Add(Mul(ONE, LowerMode(lambda, s)(h)), Mul(Sub(lambda, mu), ModeValue(lambda, s, h)))
  {
    hide Mul, ModeValue;
    ModeStep(lambda, s, h);
    MulUnits(LowerMode(lambda, s)(h));
    MulSub(ModeValue(lambda, s, h), lambda, mu);
  }

  // ---------------------------------------------------------------- annihilation

  /** How often lambda occurs in a list of roots. */
  function Multiplicity(lambda: Complex, roots: seq<Complex>): nat {
    if roots == [] then 0 else (if roots[0] == lambda then 1 else 0) + Multiplicity(lambda, roots[1..])
  }

  /** The product of (lambda - mu) over the roots other than lambda. */
  ghost function Spread(lambda: Complex, roots: seq<Complex>): Complex {
    if roots == [] then ONE
    else if roots[0] == lambda then Spread(lambda, roots[1..])
    else Mul(Sub(lambda, roots[0]), Spread(lambda, roots[1..]))
  }

  lemma {:induction false} SpreadNonZero(lambda: Complex, roots: seq<Complex>)
    ensures Spread(lambda, roots) != ZERO
  {
    hide Mul;
    if roots != [] {
      SpreadNonZero(lambda, roots[1..]);
      if roots[0] != lambda {
        assert Sub(lambda, roots[0]) != ZERO;
        if Spread(lambda, roots) == ZERO {
          NoZeroDivisors(Sub(lambda, roots[0]), Spread(lambda, roots[1..]));
        }
      }
    }
  }

  /** One factor of a chain, applied to a mode. */
  lemma {:induction false} ChainStep(roots: seq<Complex>, lambda: Complex, s: nat)
    requires roots != []
    ensures forall h: nat ::
      Chain(roots, ModeSequence(lambda, s))(h)
        == Add(Chain(roots[1..], LowerMode(lambda, s))(h),
               Mul(Sub(lambda, roots[0]), Chain(roots[1..], ModeSequence(lambda, s))(h)))
  {
    hide Mul, ModeValue, Shifted, ModeSequence, LowerMode;
    var mu, rest := roots[0], roots[1..];
    ShiftedMode(lambda, s, mu);
    ChainLinear(rest, Shifted(ModeSequence(lambda, s), mu), ONE, LowerMode(lambda, s),
                Sub(lambda, mu), ModeSequence(lambda, s));
    forall h: nat
      ensures Chain(roots, ModeSequence(lambda, s))(h)
        == Add(Chain(rest, LowerMode(lambda, s))(h), Mul(Sub(lambda, mu), Chain(rest, ModeSequence(lambda, s))(h)))
    {
      MulUnits(Chain(rest, LowerMode(lambda, s))(h));
    }
  }

  /** More copies of lambda than s annihilate the mode; exactly s copies leave a multiple
      of lambda^h that is not zero. */
  lemma {:induction false} ChainOfMode(roots: seq<Complex>, lambda: Complex, s: nat)
    ensures Multiplicity(lambda, roots) > s ==> Vanishes(Chain(roots, ModeSequence(lambda, s)))
    ensures Multiplicity(lambda, roots) == s ==>
      forall h: nat :: Chain(roots, ModeSequence(lambda, s))(h) == Mul(Spread(lambda, roots), Pow(lambda, h))
    decreases |roots|
  {
    hide Mul, ModeValue, Chain, Shifted, Spread, Pow;
    if roots == [] {
      ModeZero(lambda);
    } else {
      var mu, rest := roots[0], roots[1..];
      ChainStep(roots, lambda, s);
      if s > 0 {
        ChainOfMode(rest, lambda, s - 1);
      } else {
        ChainOfZero(rest, LowerMode(lambda, s));
      }
      ChainOfMode(rest, lambda, s);
      SpreadStep(lambda, roots);
      var same := Chain(rest, ModeSequence(lambda, s));
      forall h: nat
        ensures Multiplicity(lambda, roots) > s ==> Chain(roots, ModeSequence(lambda, s))(h) == ZERO
        ensures Multiplicity(lambda, roots) == s ==>
          Chain(roots, ModeSequence(lambda, s))(h) == Mul(Spread(lambda, roots), Pow(lambda, h))
      {
        MulUnits(Sub(lambda, mu));
        MulUnits(same(h));
        MulAssoc(Sub(lambda, mu), Spread(lambda, rest), Pow(lambda, h));
        assert mu == lambda ==> Sub(lambda, mu) == ZERO;
      }
    }
  }

  lemma {:induction false} ModeZero(lambda: Complex)
    ensures Spread(lambda, []) == ONE && Chain([], ModeSequence(lambda, 0)) == ModeSequence(lambda, 0)
    ensures forall h: nat :: ModeSequence(lambda, 0)(h) == Pow(lambda, h) == Mul(Spread(lambda, []), Pow(lambda, h))
  {
    hide Mul;
    forall h: nat
      ensures ModeSequence(lambda, 0)(h) == Pow(lambda, h) == Mul(Spread(lambda, []), Pow(lambda, h))
    {
      MulUnits(Pow(lambda, h));
    }
  }

  lemma {:induction false} SpreadStep(lambda: Complex, roots: seq<Complex>)
    requires roots != []
    ensures Spread(lambda, roots) == if roots[0] == lambda then Spread(lambda, roots[1..])
                                     else Mul(Sub(lambda, roots[0]), Spread(lambda, roots[1..]))
  {
  }

  // ---------------------------------------------------------------- the polynomial of a root list

  /** The coefficients of the product of (x - mu), lowest degree first. */
  function MonicPoly(roots: seq<Complex>): (p: seq<Complex>)
    ensures |p| == |roots| + 1
  {
    if roots == [] then [ONE] else TimesLinear(MonicPoly(roots[1..]), roots[0])
  }

  /** The coefficients of (x - mu) p. */
  function TimesLinear(p: seq<Complex>, mu: Complex): (q: seq<Complex>)
    ensures |q| == |p| + 1
  {
    seq(|p| + 1, (k: nat) => Sub(if 0 < k <= |p| then p[k - 1] else ZERO, if k < |p| then Mul(mu, p[k]) else ZERO))
  }

  ghost function OperatorTerms(p: seq<Complex>, f: nat -> Complex, h: nat): nat -> Complex {
    (k: nat) => if k < |p| then Mul(p[k], f(h + k)) else ZERO
  }

  /** p(S) f at h. */
  ghost function Operator(p: seq<Complex>, f: nat -> Complex, h: nat): Complex {
    Sum(|p|, OperatorTerms(p, f, h))
  }

  /** The two parts of (x - mu) p: p moved up by one, and mu p. */
  ghost function RaisedTerms(p: seq<Complex>, f: nat -> Complex, h: nat): nat -> Complex {
    (k: nat) => if 0 < k <= |p| then Mul(p[k - 1], f(h + k)) else ZERO
  }

  ghost function ScaledTerms(p: seq<Complex>, mu: Complex, f: nat -> Complex, h: nat): nat -> Complex {
    (k: nat) => if k < |p| then Mul(p[k], Mul(mu, f(h + k))) else ZERO
  }

  lemma {:induction false} TimesLinearAt(p: seq<Complex>, mu: Complex, k: nat)
    requires k <= |p|
    ensures TimesLinear(p, mu)[k]
         == Sub(if 0 < k then p[k - 1] else ZERO, if k < |p| then Mul(mu, p[k]) else ZERO)
  {
    hide Mul, Sub;
  }

  lemma {:induction false} TimesLinearTerm(p: seq<Complex>, mu: Complex, f: nat -> Complex, h: nat, k: nat)
    requires k <= |p|
    ensures OperatorTerms(TimesLinear(p, mu), f, h)(k) == Sub(RaisedTerms(p, f, h)(k), ScaledTerms(p, mu, f, h)(k))
  {
    hide Mul, TimesLinear;
    var v := f(h + k);
    var a, b := (if 0 < k then p[k - 1] else ZERO), (if k < |p| then Mul(mu, p[k]) else ZERO);
    TimesLinearAt(p, mu, k);
    MulSub(v, a, b);
    MulUnits(v);
    if k < |p| {
      MulComm(mu, p[k]);
      MulAssoc(p[k], mu, v);
    }
  }

  lemma {:induction false} ShiftedTerm(p: seq<Complex>, mu: Complex, f: nat -> Complex, h: nat, k: nat)
    requires k < |p|
    ensures OperatorTerms(p, Shifted(f, mu), h)(k)
         == Sub(RaisedTerms(p, f, h)(k + 1), ScaledTerms(p, mu, f, h)(k))
  {
    hide Mul, Shifted;
    ShiftedAt(f, mu, h + k);
    MulSub(p[k], f(h + k + 1), Mul(mu, f(h + k)));
  }

  lemma {:induction false} OperatorTimesLinear(p: seq<Complex>, mu: Complex, f: nat -> Complex, h: nat)
    ensures Operator(TimesLinear(p, mu), f, h) == Operator(p, Shifted(f, mu), h)
  {
    hide Mul, Add, Sub, TimesLinear, OperatorTerms, Shifted, RaisedTerms, ScaledTerms;
    var n := |p|;
    EndTerms(p, mu, f, h);
    var up, same := RaisedTerms(p, f, h), ScaledTerms(p, mu, f, h);
    forall k: nat | k < n + 1
      ensures OperatorTerms(TimesLinear(p, mu), f, h)(k) == Sub(up(k), same(k))
    {
      TimesLinearTerm(p, mu, f, h, k);
    }
    SumSub(n + 1, up, same, OperatorTerms(TimesLinear(p, mu), f, h));
    SumTruncate(n, n + 1, same);
    var next := (k: nat) => up(k + 1);
    SumFirst(n + 1, up, next);
    forall k: nat | k < n
      ensures OperatorTerms(p, Shifted(f, mu), h)(k) == Sub(next(k), same(k))
    {
      ShiftedTerm(p, mu, f, h, k);
    }
    SumSub(n, next, same, OperatorTerms(p, Shifted(f, mu), h));
    ZeroPlus(Sum(n, next));
  }

  lemma {:induction false} EndTerms(p: seq<Complex>, mu: Complex, f: nat -> Complex, h: nat)
    ensures RaisedTerms(p, f, h)(0) == ZERO && ScaledTerms(p, mu, f, h)(|p|) == ZERO
  {
    hide Mul;
  }

  lemma {:induction false} ZeroPlus(a: Complex)
    ensures Add(ZERO, a) == a
  {
  }

  /** Applying the factors one by one is applying their product. */
  lemma {:induction false} ChainIsOperator(roots: seq<Complex>, f: nat -> Complex, h: nat)
    ensures Chain(roots, f)(h) == Operator(MonicPoly(roots), f, h)
    decreases |roots|
  {
    hide Mul, TimesLinear;
    if roots == [] {
      MulUnits(f(h));
      SumStep(0, OperatorTerms([ONE], f, h));
      assert Sum(0, OperatorTerms([ONE], f, h)) == ZERO;
    } else {
      ChainIsOperator(roots[1..], Shifted(f, roots[0]), h);
      OperatorTimesLinear(MonicPoly(roots[1..]), roots[0], f, h);
    }
  }

  // ---------------------------------------------------------------- combinations of modes

  /** Column j of the confluent system: a root and a power s. */
  datatype Column = Column(lambda: Complex, s: nat)

  ghost function ModeTerms(cols: seq<Column>, gamma: Vector, h: nat): nat -> Complex {
    (j: nat) =>
      if j < |cols| && j < |gamma| then Mul(gamma[j], ModeValue(cols[j].lambda, cols[j].s, h)) else ZERO
  }

  /** gamma[0] mode 0 + ... + gamma[k-1] mode k-1. */
  ghost function PartialModes(cols: seq<Column>, gamma: Vector, k: nat): nat -> Complex {
    (h: nat) => Sum(k, ModeTerms(cols, gamma, h))
  }

  ghost function ModeCombination(cols: seq<Column>, gamma: Vector): nat -> Complex {
    PartialModes(cols, gamma, |cols|)
  }

  ghost function ChainTerms(roots: seq<Complex>, cols: seq<Column>, gamma: Vector, h: nat): nat -> Complex {
    (j: nat) =>
      if j < |cols| && j < |gamma| then Mul(gamma[j], Chain(roots, ModeSequence(cols[j].lambda, cols[j].s))(h))
      else ZERO
  }

  /** An operator acts on a combination mode by mode. */
  lemma {:induction false} ChainOfCombination(roots: seq<Complex>, cols: seq<Column>, gamma: Vector, k: nat)
    requires k <= |cols| == |gamma|
    ensures forall h: nat ::
      Chain(roots, PartialModes(cols, gamma, k))(h) == Sum(k, ChainTerms(roots, cols, gamma, h))
  {
    hide Mul, ModeValue, Chain, Sum;
    var f := PartialModes(cols, gamma, k);
    if k == 0 {
      forall h: nat
        ensures f(h) == ZERO && Sum(0, ChainTerms(roots, cols, gamma, h)) == ZERO
      {
        SumZero(0, ModeTerms(cols, gamma, h));
        SumZero(0, ChainTerms(roots, cols, gamma, h));
      }
      ChainOfZero(roots, f);
    } else {
      var g, m := PartialModes(cols, gamma, k - 1), ModeSequence(cols[k - 1].lambda, cols[k - 1].s);
      forall h: nat
        ensures f(h) == Add(Mul(ONE, g(h)), Mul(gamma[k - 1], m(h)))
      {
        SumStep(k - 1, ModeTerms(cols, gamma, h));
        MulUnits(g(h));
      }
      ChainLinear(roots, f, ONE, g, gamma[k - 1], m);
      ChainOfCombination(roots, cols, gamma, k - 1);
      forall h: nat
        ensures Chain(roots, f)(h) == Sum(k, ChainTerms(roots, cols, gamma, h))
      {
        SumStep(k - 1, ChainTerms(roots, cols, gamma, h));
        MulUnits(Chain(roots, g)(h));
      }
    }
  }

  /** Every column uses a root to a power below its multiplicity. */
  ghost predicate Covered(cols: seq<Column>, roots: seq<Complex>) {
    forall j :: 0 <= j < |cols| ==> cols[j].s < Multiplicity(cols[j].lambda, roots)
  }

  /** Columns of one root come with increasing powers. */
  ghost predicate Ordered(cols: seq<Column>) {
    forall i, j :: 0 <= i < j < |cols| && cols[i].lambda == cols[j].lambda ==> cols[i].s < cols[j].s
  }

  /** The polynomial of the roots annihilates every combination of their modes. */
  lemma {:induction false} CombinationAnnihilated(roots: seq<Complex>, cols: seq<Column>, gamma: Vector, h: nat)
    requires |gamma| == |cols| && Covered(cols, roots)
    ensures Operator(MonicPoly(roots), ModeCombination(cols, gamma), h) == ZERO
  {
    hide Mul, ModeValue, Operator;
    ChainIsOperator(roots, ModeCombination(cols, gamma), h);
    ChainOfCombination(roots, cols, gamma, |cols|);
    var terms := ChainTerms(roots, cols, gamma, h);
    forall j: nat | j < |cols|
      ensures terms(j) == ZERO
    {
      ChainOfMode(roots, cols[j].lambda, cols[j].s);
      MulUnits(gamma[j]);
    }
    SumZero(|cols|, terms);
  }

  // ---------------------------------------------------------------- independence

  function Without(lambda: Complex, roots: seq<Complex>): seq<Complex> {
    if roots == [] then []
    else (if roots[0] == lambda then [] else [roots[0]]) + Without(lambda, roots[1..])
  }

  function Copies(lambda: Complex, n: nat): seq<Complex> {
    seq(n, i => lambda)
  }

  lemma {:induction false} MultiplicityConcat(mu: Complex, a: seq<Complex>, b: seq<Complex>)
    ensures Multiplicity(mu, a + b) == Multiplicity(mu, a) + Multiplicity(mu, b)
  {
    if a == [] {
      assert a + b == b;
    } else {
      assert (a + b)[1..] == a[1..] + b;
      MultiplicityConcat(mu, a[1..], b);
    }
  }

  lemma {:induction false} MultiplicityWithout(mu: Complex, lambda: Complex, roots: seq<Complex>)
    ensures Multiplicity(mu, Without(lambda, roots)) == if mu == lambda then 0 else Multiplicity(mu, roots)
  {
    if roots != [] {
      MultiplicityWithout(mu, lambda, roots[1..]);
      if roots[0] != lambda {
        assert Without(lambda, roots)[1..] == Without(lambda, roots[1..]);
      } else {
        assert [] + Without(lambda, roots[1..]) == Without(lambda, roots[1..]);
      }
    }
  }

  lemma {:induction false} MultiplicityCopies(mu: Complex, lambda: Complex, n: nat)
    ensures Multiplicity(mu, Copies(lambda, n)) == if mu == lambda then n else 0
  {
    if n > 0 {
      MultiplicityCopies(mu, lambda, n - 1);
      assert Copies(lambda, n)[1..] == Copies(lambda, n - 1);
    }
  }

  /** All roots other than lambda, and s copies of lambda. */
  ghost function Isolating(lambda: Complex, s: nat, roots: seq<Complex>): seq<Complex> {
    Without(lambda, roots) + Copies(lambda, s)
  }

  lemma {:induction false} IsolatingMultiplicity(mu: Complex, lambda: Complex, s: nat, roots: seq<Complex>)
    ensures Multiplicity(mu, Isolating(lambda, s, roots)) == if mu == lambda then s else Multiplicity(mu, roots)
  {
    MultiplicityConcat(mu, Without(lambda, roots), Copies(lambda, s));
    MultiplicityWithout(mu, lambda, roots);
    MultiplicityCopies(mu, lambda, s);
  }

  /** The isolating operator leaves only the last column in use. */
  lemma {:induction false} IsolatedTerm(roots: seq<Complex>, cols: seq<Column>, gamma: Vector, j: nat, i: nat)
    requires |gamma| == |cols| && Covered(cols, roots) && Ordered(cols) && j < |cols| && i < |cols|
    requires forall k :: j < k < |cols| ==> gamma[k] == ZERO
    ensures var L := Isolating(cols[j].lambda, cols[j].s, roots);
      ChainTerms(L, cols, gamma, 0)(i) == if i == j then Mul(gamma[j], Spread(cols[j].lambda, L)) else ZERO
  {
    hide Mul, ModeValue, Isolating, Spread, Chain;
    var L := Isolating(cols[j].lambda, cols[j].s, roots);
    var value := Chain(L, ModeSequence(cols[i].lambda, cols[i].s))(0);
    IsolatingMultiplicity(cols[i].lambda, cols[j].lambda, cols[j].s, roots);
    ChainOfMode(L, cols[i].lambda, cols[i].s);
    MulUnits(gamma[i]);
    MulUnits(value);
    MulUnits(Spread(cols[j].lambda, L));
    if i < j {
      assert cols[i].lambda == cols[j].lambda ==> cols[i].s < cols[j].s;
    }
  }

  /** Modes are linearly independent: a combination that vanishes has only zero weights. */
  lemma {:induction false} ModesIndependent(roots: seq<Complex>, cols: seq<Column>, gamma: Vector)
    requires |gamma| == |cols| && Covered(cols, roots) && Ordered(cols)
    requires Vanishes(ModeCombination(cols, gamma))
    ensures forall j :: 0 <= j < |gamma| ==> gamma[j] == ZERO
  {
    WeightsVanish(roots, cols, gamma, |cols|);
  }

  lemma {:induction false} WeightsVanish(roots: seq<Complex>, cols: seq<Column>, gamma: Vector, n: nat)
    requires |gamma| == |cols| && Covered(cols, roots) && Ordered(cols) && n <= |cols|
    requires Vanishes(ModeCombination(cols, gamma))
    requires forall k :: n <= k < |cols| ==> gamma[k] == ZERO
    ensures forall j :: 0 <= j < |gamma| ==> gamma[j] == ZERO
  {
    if n > 0 {
      LastWeight(roots, cols, gamma, n - 1);
      WeightsVanish(roots, cols, gamma, n - 1);
    }
  }

  lemma {:induction false} LastWeight(roots: seq<Complex>, cols: seq<Column>, gamma: Vector, j: nat)
    requires |gamma| == |cols| && Covered(cols, roots) && Ordered(cols) && j < |cols|
    requires Vanishes(ModeCombination(cols, gamma))
    requires forall k :: j < k < |cols| ==> gamma[k] == ZERO
    ensures gamma[j] == ZERO
  {
    hide Mul, ModeValue, Isolating, Spread, Chain, Covered, Ordered;
    var L := Isolating(cols[j].lambda, cols[j].s, roots);
    ChainOfZero(L, ModeCombination(cols, gamma));
    ChainOfCombination(L, cols, gamma, |cols|);
    var terms := ChainTerms(L, cols, gamma, 0);
    forall i: nat | i < |cols|
      ensures terms(i) == if i == j then Mul(gamma[j], Spread(cols[j].lambda, L)) else ZERO
    {
      IsolatedTerm(roots, cols, gamma, j, i);
    }
    SumSingle(|cols|, j, terms);
    SpreadNonZero(cols[j].lambda, L);
    assert Chain(L, ModeCombination(cols, gamma))(0) == ZERO;
    NoZeroDivisors(gamma[j], Spread(cols[j].lambda, L));
  }
}
