/** Weighted windows of a sequence, v[0] s(i) + v[1] s(i+1) + ..., and the sequences no such
    window annihilates: those whose differences stop at a constant that is not zero. */
module SampleWindows {
  import opened ComplexField
  import opened Polynomials
  import opened NewtonGregory
  import opened LinearAlgebra
  import R = Recurrence

  /** s(i) - s(i+1). */
  ghost function Drop(s: nat -> Complex): nat -> Complex {
    (i: nat) => Sub(s(i), s(i + 1))
  }

  ghost function Windows(v: Vector, s: nat -> Complex): nat -> Complex {
    (i: nat) => Sum(|v|, R.RecurrenceTerms(v, s, i))
  }

  /** All differences of order k. */
  ghost function Differences(s: nat -> Complex, k: nat): nat -> Complex {
    (j: nat) => Difference(s, k, j)
  }

  lemma {:induction false} DropAt(s: nat -> Complex, i: nat)
    ensures Drop(s)(i) == Sub(s(i), s(i + 1))
  {
    hide Sub;
  }

  lemma {:induction false} DifferenceStep(s: nat -> Complex, k: nat, j: nat)
    ensures Difference(s, k + 1, j) == Sub(Difference(s, k, j), Difference(s, k, j + 1))
    ensures Difference(s, 0, j) == s(j)
  {
    hide Sub;
  }

  lemma {:induction false} DropShiftsOrder(s: nat -> Complex, k: nat, j: nat)
    ensures Difference(Drop(s), k, j) == Difference(s, k + 1, j)
  {
    hide Sub, Difference, Drop;
    var t := Drop(s);
    DifferenceStep(s, k, j);
    if k == 0 {
      DropAt(s, j);
      DifferenceStep(t, 0, j);
      DifferenceStep(s, 0, j);
      DifferenceStep(s, 0, j + 1);
    } else {
      DropShiftsOrder(s, k - 1, j);
      DropShiftsOrder(s, k - 1, j + 1);
      DifferenceStep(t, k - 1, j);
    }
  }

  /** Entry j of a window, and of the window of the drops. */
  lemma {:induction false} TermAt(v: Vector, s: nat -> Complex, i: nat, j: nat)
    requires j < |v|
    ensures R.RecurrenceTerms(v, s, i)(j) == Mul(v[j], s(i + j))
  {
    hide Mul;
  }

  lemma {:induction false} TermDrop(v: Vector, s: nat -> Complex, i: nat, j: nat)
    requires j < |v|
    ensures R.RecurrenceTerms(v, Drop(s), i)(j)
         == Sub(R.RecurrenceTerms(v, s, i)(j), R.RecurrenceTerms(v, s, i + 1)(j))
  {
    hide Mul, Sub, Drop, R.RecurrenceTerms;
    var n := i + j;
    TermAt(v, Drop(s), i, j);
    TermAt(v, s, i, j);
    TermAt(v, s, i + 1, j);
    DropAt(s, n);
    MulSub(v[j], s(n), s(n + 1));
    assert i + 1 + j == n + 1;
  }

  /** Dropping a window is the window of the drops. */
  lemma {:induction false} WindowDrop(v: Vector, s: nat -> Complex, i: nat)
    ensures Sub(Windows(v, s)(i), Windows(v, s)(i + 1)) == Windows(v, Drop(s))(i)
  {
    hide Mul, Drop, R.RecurrenceTerms;
    var f, g, d := R.RecurrenceTerms(v, s, i), R.RecurrenceTerms(v, s, i + 1), R.RecurrenceTerms(v, Drop(s), i);
    forall j: nat | j < |v|
      ensures d(j) == Sub(f(j), g(j))
    {
      TermDrop(v, s, i, j);
    }
    SumSub(|v|, f, g, d);
  }

  lemma {:induction false} SameWindows(v: Vector, s: nat -> Complex, t: nat -> Complex, i: nat)
    requires forall j: nat :: s(j) == t(j)
    ensures Windows(v, s)(i) == Windows(v, t)(i)
  {
    hide Mul;
    SumCongruence(|v|, R.RecurrenceTerms(v, s, i), R.RecurrenceTerms(v, t, i));
  }

  lemma {:induction false} WindowDifference(v: Vector, s: nat -> Complex, k: nat, j: nat)
    ensures Difference(Windows(v, s), k, j) == Windows(v, Differences(s, k))(j)
    decreases k
  {
    hide Windows, Difference, Drop, Sub;
    if k == 0 {
      DifferenceStep(Windows(v, s), 0, j);
      forall i: nat
        ensures s(i) == Differences(s, 0)(i)
      {
        DifferenceStep(s, 0, i);
      }
      SameWindows(v, s, Differences(s, 0), j);
    } else {
      var last, next := Differences(s, k - 1), Differences(s, k);
      WindowDifference(v, s, k - 1, j);
      WindowDifference(v, s, k - 1, j + 1);
      DifferenceStep(Windows(v, s), k - 1, j);
      WindowDrop(v, last, j);
      forall i: nat
        ensures Drop(last)(i) == next(i)
      {
        DropAt(last, i);
        DifferenceStep(s, k - 1, i);
      }
      SameWindows(v, Drop(last), next, j);
    }
  }

  /** When the next differences vanish the last ones are constant. */
  lemma {:induction false} LastIsConstant(s: nat -> Complex, e: nat, j: nat)
    requires e >= 1 && forall i: nat :: Difference(s, e, i) == ZERO
    ensures Difference(s, e - 1, j) == Difference(s, e - 1, 0)
    decreases j
  {
    if j > 0 {
      LastIsConstant(s, e, j - 1);
      assert Difference(s, e, j - 1) == ZERO;
    }
  }

  lemma {:induction false} WindowOfConstant(v: Vector, s: nat -> Complex, c: Complex)
    requires forall i: nat :: s(i) == c
    ensures Windows(v, s)(0) == Mul(c, PolyValue(v, ONE))
  {
    hide Mul, Pow;
    forall j: nat | j < |v|
      ensures R.RecurrenceTerms(v, s, 0)(j) == Mul(c, PolyTerms(v, ONE)(j))
    {
      PowOne(j);
      MulUnits(v[j]);
      MulComm(v[j], c);
    }
    SumScale(|v|, c, PolyTerms(v, ONE), R.RecurrenceTerms(v, s, 0));
  }

  lemma {:induction false} WindowFirst(v: Vector, s: nat -> Complex, i: nat)
    requires v != []
    ensures Windows(v, s)(i) == Add(Mul(v[0], s(i)), Windows(v[1..], s)(i + 1))
  {
    hide Mul;
    var f, g := R.RecurrenceTerms(v, s, i), R.RecurrenceTerms(v[1..], s, i + 1);
    forall j: nat | j < |v| - 1
      ensures g(j) == f(j + 1)
    {
      assert i + 1 + j == i + (j + 1);
    }
    SumFirst(|v|, f, g);
  }

  lemma {:induction false} PartsStep(v: Complex, q: Complex, x: Complex, y: Complex, w: Complex)
    ensures Add(Mul(v, x), Sub(Mul(q, y), w)) == Sub(Mul(Add(v, q), x), Add(Mul(q, Sub(x, y)), w))
  {
    hide Mul;
    MulSub(q, x, y);
    MulAdd(x, v, q);
  }

  lemma {:induction false} SubZero(x: Complex)
    ensures Sub(x, ZERO) == x == Add(x, ZERO) && Sub(x, x) == ZERO
  {
  }

  lemma {:induction false} QuotientFirst(v: Vector)
    requires |v| > 1
    ensures Quotient(v, ONE)[0] == PolyValue(v[1..], ONE) && Quotient(v, ONE)[1..] == Quotient(v[1..], ONE)
  {
    hide PolyValue;
  }

  /** Summation by parts: v(E) = v(1) - (1 - E) q(E), with q the quotient of v by x - 1. */
  lemma {:induction false} SummationByParts(v: Vector, s: nat -> Complex, i: nat)
    requires v != []
    ensures Windows(v, s)(i) == Sub(Mul(PolyValue(v, ONE), s(i)), Windows(Quotient(v, ONE), Drop(s))(i))
    decreases |v|
  {
    hide Mul, PolyValue, Windows, Add, Sub, Drop, Quotient;
    var rest, q := v[1..], Quotient(v, ONE);
    WindowFirst(v, s, i);
    PolyFirst(v, ONE);
    MulUnits(PolyValue(rest, ONE));
    if rest == [] {
      EmptyWindow(rest, s, i + 1);
      EmptyWindow(q, Drop(s), i);
      NoTerms(rest, ONE);
      MulUnits(ONE);
      SubZero(v[0]);
      SubZero(Mul(v[0], s(i)));
    } else {
      SummationByParts(rest, s, i + 1);
      WindowFirst(q, Drop(s), i);
      QuotientFirst(v);
      DropAt(s, i);
      PartsStep(v[0], q[0], s(i), s(i + 1), Windows(q[1..], Drop(s))(i + 1));
    }
  }

  lemma {:induction false} EmptyWindow(v: Vector, s: nat -> Complex, i: nat)
    requires v == []
    ensures Windows(v, s)(i) == ZERO
  {
  }

  /** The differences of s are zero from order e on, and the one before does not vanish. */
  ghost predicate StopsAt(s: nat -> Complex, e: nat) {
    e >= 1 && Difference(s, e - 1, 0) != ZERO && forall i: nat :: Difference(s, e, i) == ZERO
  }

  lemma {:induction false} WeightsCancel(v: Vector, s: nat -> Complex, e: nat)
    requires StopsAt(s, e) && forall i: nat :: i < e ==> Windows(v, s)(i) == ZERO
    ensures PolyValue(v, ONE) == ZERO
  {
    hide Mul, PolyValue, Windows, Difference;
    var last, c := Differences(s, e - 1), Difference(s, e - 1, 0);
    FlatDifference(Windows(v, s), e - 1, 0, e, ZERO);
    WindowDifference(v, s, e - 1, 0);
    forall j: nat
      ensures last(j) == c
    {
      LastIsConstant(s, e, j);
    }
    WindowOfConstant(v, last, c);
    NoZeroDivisors(c, PolyValue(v, ONE));
  }

  /** Without their common root the weights annihilate the drops. */
  lemma {:induction false} QuotientWindows(v: Vector, s: nat -> Complex, e: nat)
    requires v != [] && PolyValue(v, ONE) == ZERO && forall i: nat :: i < e ==> Windows(v, s)(i) == ZERO
    ensures forall i: nat :: i < e ==> Windows(Quotient(v, ONE), Drop(s))(i) == ZERO
  {
    hide Mul, PolyValue, Windows, Quotient, Drop;
    forall i: nat | i < e
      ensures Windows(Quotient(v, ONE), Drop(s))(i) == ZERO
    {
      SummationByParts(v, s, i);
      MulUnits(s(i));
    }
  }

  lemma {:induction false} DropStops(s: nat -> Complex, e: nat)
    requires StopsAt(s, e) && e > 1
    ensures StopsAt(Drop(s), e - 1)
  {
    hide Difference, Drop;
    DropShiftsOrder(s, e - 2, 0);
    var m, t := e - 1, Drop(s);
    forall i: nat
      ensures Difference(t, m, i) == ZERO
    {
      DropShiftsOrder(s, m, i);
    }
  }

  /** Main step: no more than e weights whose first e windows vanish are all zero. */
  lemma {:induction false} WindowsDecideWeights(v: Vector, s: nat -> Complex, e: nat)
    requires |v| <= e && StopsAt(s, e) && forall i: nat :: i < e ==> Windows(v, s)(i) == ZERO
    ensures AllZeros(v)
    decreases e
  {
    hide Mul, PolyValue, Windows, Difference, Quotient, StopsAt, Drop;
    if v != [] {
      WeightsCancel(v, s, e);
      if |v| > 1 {
        DropStops(s, e);
        QuotientWindows(v, s, e);
        WindowsDecideWeights(Quotient(v, ONE), Drop(s), e - 1);
      }
      QuotientZero(v, ONE);
    }
  }
}
