/** Finite linear recurrences: fitting one to samples through a Hankel system
    (src/math/hankel.cpp, src/math/companion.cpp), and the two carriers that continue it,
    the companion orbit and the rational long division (src/math/resolvent.cpp). */
module Recurrence {
  import opened ComplexField
  import opened LinearAlgebra
  import opened MatrixRank
  import opened Elimination
  import opened Results

  // ---------------------------------------------------------------- sequences

  ghost function RecurrenceTerms(c: Vector, s: nat -> Complex, n: nat): nat -> Complex {
    (j: nat) => if j < |c| then Mul(c[j], s(n + j)) else ZERO
  }

  /** s(n+r) + c[r-1] s(n+r-1) + ... + c[0] s(n) == 0. */
  ghost predicate Obeys(s: nat -> Complex, c: Vector, n: nat) {
    Add(s(n + |c|), Sum(|c|, RecurrenceTerms(c, s, n))) == ZERO
  }

  /** The state one step on: the window moves, the recurrence gives the new entry. */
  ghost function Next(c: Vector, Y: Vector): Vector
    requires |Y| == |c| > 0
  {
    Y[1..] + [Neg(Dot(c, Y))]
  }

  ghost function Orbit(c: Vector, Y: Vector, h: nat): (Z: Vector)
    requires |Y| == |c| > 0
    ensures |Z| == |c|
  {
    if h == 0 then Y else Next(c, Orbit(c, Y, h - 1))
  }

  /** The sequence the recurrence c continues from the initial samples Y. */
  ghost function Continuation(c: Vector, Y: Vector): nat -> Complex
    requires |Y| == |c|
  {
    (h: nat) => if |c| == 0 then ZERO else Orbit(c, Y, h)[0]
  }

  /** The state at h is a window of the sequence. */
  lemma {:induction false} OrbitWindow(c: Vector, Y: Vector, h: nat, i: nat)
    requires |Y| == |c| > i
    ensures Orbit(c, Y, h)[i] == Continuation(c, Y)(h + i)
    decreases i
  {
    if i > 0 {
      OrbitWindow(c, Y, h + 1, i - 1);
      assert Orbit(c, Y, h + 1)[i - 1] == Orbit(c, Y, h)[i];
    }
  }

  lemma {:induction false} ContinuationStarts(c: Vector, Y: Vector, i: nat)
    requires |Y| == |c| > i
    ensures Continuation(c, Y)(i) == Y[i]
  {
    OrbitWindow(c, Y, 0, i);
  }

  lemma {:induction false} ContinuationObeys(c: Vector, Y: Vector, n: nat)
    requires |Y| == |c| > 0
    ensures Obeys(Continuation(c, Y), c, n)
  {
    hide Mul, Continuation;
    var s := Continuation(c, Y);
    var state := Orbit(c, Y, n);
    forall j: nat | j < |c|
      ensures RecurrenceTerms(c, s, n)(j) == Products(c, state)(j)
    {
      OrbitWindow(c, Y, n, j);
    }
    SumCongruence(|c|, RecurrenceTerms(c, s, n), Products(c, state));
    OrbitWindow(c, Y, n + 1, |c| - 1);
    assert Orbit(c, Y, n + 1)[|c| - 1] == Neg(Dot(c, state));
  }

  /** A recurrence and its first samples determine the sequence. */
  lemma {:induction false} ContinuationUnique(c: Vector, Y: Vector, s: nat -> Complex, h: nat)
    requires |Y| == |c| > 0
    requires forall i: nat :: i < |c| ==> s(i) == Y[i]
    requires forall n: nat :: n + |c| <= h ==> Obeys(s, c, n)
    ensures s(h) == Continuation(c, Y)(h)
  {
    var r := |c|;
    hide Mul, Orbit;
    if h < r {
      ContinuationStarts(c, Y, h);
    } else {
      var t, n := Continuation(c, Y), h - r;
      forall j: nat | j < r
        ensures RecurrenceTerms(c, s, n)(j) == RecurrenceTerms(c, t, n)(j)
      {
        ContinuationUnique(c, Y, s, n + j);
      }
      SumCongruence(r, RecurrenceTerms(c, s, n), RecurrenceTerms(c, t, n));
      ContinuationObeys(c, Y, n);
      assert Obeys(s, c, n) && Obeys(t, c, n);
    }
  }

  // ---------------------------------------------------------------- the Hankel fit

  /** The m x m matrix of samples u[i+j]; beyond the last sample it holds zeros. */
  ghost function Hankel(u: seq<Complex>, m: nat): (H: Matrix)
    ensures IsSquare(H, m)
    ensures forall i: nat, j: nat :: i < m && j < m ==> H[i][j] == SampleAt(u, i + j)
  {
    seq(m, (i: nat) => seq(m, (j: nat) => SampleAt(u, i + j)))
  }

  method FillHankel(u: seq<Complex>, m: nat) returns (A: array2<Complex>)
    ensures fresh(A) && A.Length0 == m == A.Length1 && Rows(A) == Hankel(u, m)
  {
    A := new Complex[m, m]((i, j) => ZERO);
    var i := 0;
    while i < m
      invariant 0 <= i <= m
      invariant forall p: nat, q: nat :: p < i && q < m ==> A[p, q] == SampleAt(u, p + q)
    {
      var j := 0;
      while j < m
        invariant 0 <= j <= m
        invariant forall p: nat, q: nat :: p < i && q < m ==> A[p, q] == SampleAt(u, p + q)
        invariant forall q: nat :: q < j ==> A[i, q] == SampleAt(u, i + q)
      {
        A[i, j] := SampleAt(u, i + j);
        j := j + 1;
      }
      i := i + 1;
    }
    forall p: nat | p < m
      ensures Rows(A)[p] == Hankel(u, m)[p]
    {
    }
  }

  /** The largest order the samples and the configuration allow, at least 1. */
  function OrderBound(n: nat, N_max: int): (b: nat)
    ensures b >= 1
  {
    var k := if N_max < n / 2 then N_max else n / 2;
    if k < 1 then 1 else k
  }

  /** What `detect_min_rank` reports on samples u: every smaller order had full rank, and at
      tolerance 0 the reported order is deficient unless it is the bound. */
  ghost predicate Detected(u: seq<Complex>, N_max: int, tol: real, r: nat) {
    if |u| == 0 then r == 0
    else
      && 1 <= r <= OrderBound(|u|, N_max)
      && (forall m: nat :: 2 <= m <= r ==> !Singular(Hankel(u, m)))
      && (r < OrderBound(|u|, N_max) && tol <= 0.0 ==> Singular(Hankel(u, r + 1)))
  }

  /** The counted rank of the Hankel minor of size m is full. */
  ghost predicate FullMinor(u: seq<Complex>, m: nat, tol: real) {
    RankOf(Hankel(u, m), tol) == m
  }

  /** The first order whose next minor is deficient, the bound if there is none. */
  ghost predicate FirstDeficient(u: seq<Complex>, N_max: int, tol: real, r: nat) {
    if |u| == 0 then r == 0
    else
      && 1 <= r <= OrderBound(|u|, N_max)
      && (forall m: nat :: 2 <= m <= r ==> FullMinor(u, m, tol))
      && (r < OrderBound(|u|, N_max) ==> !FullMinor(u, r + 1, tol))
  }

  /** There is only one such order. */
  lemma {:induction false} DetectedOnce(u: seq<Complex>, N_max: int, tol: real, r: nat, s: nat)
    requires FirstDeficient(u, N_max, tol, r) && FirstDeficient(u, N_max, tol, s)
    ensures r == s
  {
    hide FullMinor, OrderBound;
    if |u| > 0 {
      var x: nat, y: nat := r + 1, s + 1;
      assert x <= s ==> FullMinor(u, x, tol);
      assert y <= r ==> FullMinor(u, y, tol);
    }
  }

  /** `detect_min_rank`. */
  method DetectMinRank(u: seq<Complex>, N_max: int, tol: real) returns (r: nat)
    ensures FirstDeficient(u, N_max, tol, r)
    ensures Detected(u, N_max, tol, r)
  {
    hide Singular, RankOf;
    if |u| == 0 {
      return 0;
    }
    var bound := OrderBound(|u|, N_max);
    var m := 1;
    while m <= bound
      invariant 1 <= m <= bound + 1
      invariant forall k: nat :: 2 <= k <= m ==> FullMinor(u, k, tol) && !Singular(Hankel(u, k))
    {
      var A := FillHankel(u, m + 1);
      var rank := GaussianRank(A, tol);
      if rank < m + 1 {
        return m;
      }
      m := m + 1;
    }
    r := bound;
  }

  /** c annihilates the first 2|c| samples. */
  ghost predicate Fits(u: seq<Complex>, c: Vector) {
    2 * |c| <= |u| && forall i: nat :: i < |c| ==> Obeys(Samples(u), c, i)
  }

  /** The guard under which the fit of order r exists. */
  ghost predicate Solvable(u: seq<Complex>, r: nat) {
    r == 0 || (2 * r <= |u| && !Singular(Hankel(u, r)))
  }

  /** Row i of the Hankel system is the recurrence at i. */
  lemma {:induction false} HankelRow(u: seq<Complex>, c: Vector, i: nat)
    requires i < |c| && 2 * |c| <= |u|
    ensures Dot(Hankel(u, |c|)[i], c) == Neg(u[i + |c|]) <==> Obeys(Samples(u), c, i)
  {
    hide Mul;
    var row := Hankel(u, |c|)[i];
    forall j: nat | j < |c|
      ensures Products(row, c)(j) == RecurrenceTerms(c, Samples(u), i)(j)
    {
      MulComm(row[j], c[j]);
    }
    SumCongruence(|c|, Products(row, c), RecurrenceTerms(c, Samples(u), i));
  }

  ghost function Target(u: seq<Complex>, r: nat): (b: Vector)
    requires 2 * r <= |u|
    ensures |b| == r && forall i: nat :: i < r ==> b[i] == Neg(u[i + r])
  {
    seq(r, i requires 0 <= i < r => Neg(u[i + r]))
  }

  lemma {:induction false} HankelSystem(u: seq<Complex>, c: Vector)
    requires 2 * |c| <= |u|
    ensures Solves(Hankel(u, |c|), Target(u, |c|), c) <==> Fits(u, c)
  {
    hide Dot, Obeys;
    var H, b := Hankel(u, |c|), Target(u, |c|);
    forall i: nat | i < |c|
      ensures SolvesRow(H, b, c, i) <==> Obeys(Samples(u), c, i)
    {
      HankelRow(u, c, i);
    }
  }

  method FillTarget(u: seq<Complex>, r: nat) returns (b: array<Complex>)
    requires 2 * r <= |u|
    ensures fresh(b) && b[..] == Target(u, r)
  {
    b := new Complex[r](i => ZERO);
    var i := 0;
    while i < r
      invariant 0 <= i <= r == b.Length && forall k :: 0 <= k < i ==> b[k] == Neg(u[k + r])
    {
      b[i] := Neg(u[i + r]);
      i := i + 1;
    }
  }

  lemma {:induction false} NothingFits(u: seq<Complex>)
    ensures Fits(u, [])
  {
    hide Obeys;
  }

  /** `solve_recurrence_from_hankel`. */
  method SolveRecurrence(u: seq<Complex>, r: nat) returns (out: Result<Vector>)
    ensures out.Ok? <==> Solvable(u, r)
    ensures out.Ok? ==> |out.value| == r && Fits(u, out.value)
  {
    hide Singular, Solves, Obeys, Hankel, Target, Fits;
    if r == 0 {
      NothingFits(u);
      return Ok([]);
    }
    if |u| < 2 * r {
      return NumericError;
    }
    var A := FillHankel(u, r);
    var b := FillTarget(u, r);
    var ok := SolveLinear(A, b);
    if !ok {
      return NumericError;
    }
    HankelSystem(u, b[..]);
    out := Ok(b[..]);
  }

  /** A fitted recurrence is the only one of its order. */
  lemma {:induction false} FitUnique(u: seq<Complex>, c: Vector, d: Vector)
    requires |c| == |d| && Fits(u, c) && Fits(u, d) && !Singular(Hankel(u, |c|))
    ensures c == d
  {
    HankelSystem(u, c);
    HankelSystem(u, d);
    SolutionUnique(Hankel(u, |c|), Target(u, |c|), c, d);
  }

  /** Whatever the tolerance, an order of 2 or more that was detected can be solved for. */
  lemma {:induction false} DetectedIsSolvable(u: seq<Complex>, N_max: int, tol: real, r: nat)
    requires Detected(u, N_max, tol, r)
    ensures r >= 2 ==> 2 * r <= |u| && !Singular(Hankel(u, r))
    ensures Solvable(u, r) <==> r != 1 || (|u| >= 2 && u[0] != ZERO)
  {
    hide Singular;
    if r >= 2 {
      assert !Singular(Hankel(u, r));
    } else if r == 1 {
      HankelOne(u);
    }
  }

  lemma {:induction false} HankelOne(u: seq<Complex>)
    requires |u| > 0
    ensures Singular(Hankel(u, 1)) <==> u[0] == ZERO
  {
    var H := Hankel(u, 1);
    if u[0] == ZERO {
      NoPivotSingular(H, 0);
    } else {
      ClearedNotSingular(H);
    }
  }

  /** Samples that obey an order-d recurrence make every larger Hankel minor singular, as
      far as the samples reach. */
  lemma {:induction false} RecurrenceMakesSingular(u: seq<Complex>, c: Vector)
    requires 2 * |c| < |u|
    requires forall n: nat :: n + |c| < |u| ==> Obeys(Samples(u), c, n)
    ensures Singular(Hankel(u, |c| + 1))
  {
    hide Mul;
    var d := |c|;
    var H, x, z := Hankel(u, d + 1), c + [ONE], ZeroVector(d + 1);
    forall i: nat | i < |H|
      ensures SolvesRow(H, z, x, i)
    {
      forall j: nat | j < d
        ensures Products(H[i], x)(j) == RecurrenceTerms(c, Samples(u), i)(j)
      {
        MulComm(H[i][j], c[j]);
      }
      SumCongruence(d, Products(H[i], x), RecurrenceTerms(c, Samples(u), i));
      MulUnits(H[i][d]);
      assert Obeys(Samples(u), c, i);
    }
    assert InKernel(H, x);
    assert x[d] != ZERO;
  }

  /** Recovery: when the samples obey an order-d recurrence and the leading minors of size d
      and of the sizes from 2 up to it are nonsingular, detection at tolerance 0 finds d and
      the fit finds the recurrence. */
  lemma {:induction false} Recovery(u: seq<Complex>, c: Vector, N_max: int, r: nat, fit: Vector)
    requires 1 <= |c| <= N_max && 2 * |c| <= |u|
    requires forall n: nat :: n + |c| < |u| ==> Obeys(Samples(u), c, n)
    requires !Singular(Hankel(u, |c|)) && forall m: nat :: 2 <= m < |c| ==> !Singular(Hankel(u, m))
    requires Detected(u, N_max, 0.0, r)
    requires |fit| == r && Fits(u, fit)
    ensures r == |c|
    ensures fit == c
  {
    hide Singular, Obeys;
    var d := |c|;
    if r > d {
      RecurrenceMakesSingular(u, c);
    }
    assert Fits(u, c);
    FitUnique(u, c, fit);
  }

  /** ... and the orbit then extrapolates the sequence the samples came from. */
  lemma {:induction false} RecoveryExtrapolates(s: nat -> Complex, u: seq<Complex>, c: Vector, N_max: int, r: nat,
                                                fit: Vector, h: nat)
    requires 1 <= |c| <= N_max && 2 * |c| <= |u|
    requires forall n: nat :: n < |u| ==> u[n] == s(n)
    requires forall n: nat :: Obeys(s, c, n)
    requires !Singular(Hankel(u, |c|)) && forall m: nat :: 2 <= m < |c| ==> !Singular(Hankel(u, m))
    requires Detected(u, N_max, 0.0, r)
    requires |fit| == r && Fits(u, fit)
    ensures |fit| == |c| <= |u|
    ensures Continuation(fit, u[..|fit|])(h) == s(h)
  {
    hide Singular;
    forall n: nat | n + |c| < |u|
      ensures Obeys(Samples(u), c, n)
    {
      assert Obeys(s, c, n);
      SumCongruence(|c|, RecurrenceTerms(c, Samples(u), n), RecurrenceTerms(c, s, n));
    }
    Recovery(u, c, N_max, r, fit);
    ContinuationUnique(c, u[..|c|], s, h);
  }

  /** A fitted recurrence reproduces the 2r samples it was fitted to. */
  lemma {:induction false} FitReproduces(u: seq<Complex>, c: Vector, h: nat)
    requires Fits(u, c) && h < 2 * |c|
    ensures Continuation(c, u[..|c|])(h) == u[h]
  {
    ContinuationUnique(c, u[..|c|], Samples(u), h);
  }

  // ---------------------------------------------------------------- the companion orbit

  datatype Companion = Companion(r: nat, C: Matrix, Y0: Vector)

  /** Shift rows above, the negated coefficients in the last row. */
  ghost predicate IsCompanion(C: Matrix, c: Vector) {
    && IsSquare(C, |c|)
    && (forall i, j :: 0 <= i < |c| - 1 && 0 <= j < |c| ==> C[i][j] == if j == i + 1 then ONE else ZERO)
    && (|c| > 0 ==> forall j :: 0 <= j < |c| ==> C[|c| - 1][j] == Neg(c[j]))
  }

  /** The first r samples, with zeros for those that are missing. */
  ghost function Padded(u: seq<Complex>, r: nat): (Y: Vector)
    ensures |Y| == r && forall i: nat :: i < r ==> Y[i] == SampleAt(u, i)
  {
    seq(r, (i: nat) => SampleAt(u, i))
  }

  /** `build_companion_state`. */
  method BuildCompanion(c: Vector, init: seq<Complex>) returns (cs: Companion)
    ensures cs.r == |c| && IsCompanion(cs.C, c) && cs.Y0 == Padded(init, |c|)
  {
    var r := |c|;
    var C := seq(r, i => ZeroVector(r));
    var i := 0;
    while i + 1 < r
      invariant 0 <= i && (r > 0 ==> i <= r - 1) && IsSquare(C, r)
      invariant forall p, q :: 0 <= p < i && 0 <= q < r ==> C[p][q] == if q == p + 1 then ONE else ZERO
      invariant forall p, q :: i <= p < r && 0 <= q < r ==> C[p][q] == ZERO
    {
      C := C[i := C[i][i + 1 := ONE]];
      i := i + 1;
    }
    var j := 0;
    while j < r
      invariant 0 <= j <= r && IsSquare(C, r)
      invariant forall p, q :: 0 <= p < r - 1 && 0 <= q < r ==> C[p][q] == if q == p + 1 then ONE else ZERO
      invariant forall q :: 0 <= q < j ==> C[r - 1][q] == Neg(c[q])
    {
      C := C[r - 1 := C[r - 1][j := Neg(c[j])]];
      j := j + 1;
    }
    var Y0 := ZeroVector(r);
    i := 0;
    while i < r && i < |init|
      invariant 0 <= i <= r && i <= |init| && |Y0| == r
      invariant forall k :: 0 <= k < i ==> Y0[k] == init[k]
      invariant forall k :: i <= k < r ==> Y0[k] == ZERO
    {
      Y0 := Y0[i := init[i]];
      i := i + 1;
    }
    cs := Companion(r, C, Y0);
  }

  /** One companion step is one step of the recurrence. */
  lemma {:induction false} CompanionStep(C: Matrix, c: Vector, Y: Vector, Z: Vector)
    requires IsCompanion(C, c) && |Y| == |Z| == |c| > 0
    requires forall i: nat :: i < |c| ==> Z[i] == Dot(C[i], Y)
    ensures Z == Next(c, Y)
  {
    hide Mul;
    forall i: nat | i < |c|
      ensures Z[i] == Next(c, Y)[i]
    {
      if i + 1 < |c| {
        DotSingle(C[i], Y, i + 1);
        MulUnits(Y[i + 1]);
      } else {
        NegatedDot(C[i], c, Y);
      }
    }
  }

  lemma {:induction false} NegatedDot(a: Vector, c: Vector, Y: Vector)
    requires |a| == |c| == |Y| && forall j :: 0 <= j < |c| ==> a[j] == Neg(c[j])
    ensures Dot(a, Y) == Neg(Dot(c, Y))
  {
    hide Mul;
    var z := (j: nat) => ZERO;
    forall j: nat | j < |c|
      ensures Products(a, Y)(j) == Sub(z(j), Products(c, Y)(j))
    {
      MulNeg(c[j], Y[j]);
    }
    SumSub(|c|, z, Products(c, Y), Products(a, Y));
    SumZero(|c|, z);
  }

  method MatrixRow(row: Vector, Y: Vector) returns (acc: Complex)
    requires |row| == |Y|
    ensures acc == Dot(row, Y)
  {
    hide Mul;
    acc := ZERO;
    var j := 0;
    while j < |row|
      invariant 0 <= j <= |row| && acc == Sum(j, Products(row, Y))
    {
      acc := Add(acc, Mul(row[j], Y[j]));
      j := j + 1;
    }
  }

  /** `eval_companion`: the orbit after h steps, read at its first entry. */
  method EvalCompanion(cs: Companion, ghost c: Vector, h: int) returns (v: Complex)
    requires cs.r == |c| == |cs.Y0| && IsCompanion(cs.C, c)
    ensures v == Continuation(c, cs.Y0)(if h < 0 then 0 else h)
  {
    hide Dot, Mul;
    if cs.r == 0 {
      return ZERO;
    }
    var Y, tmp := cs.Y0, ZeroVector(cs.r);
    var step := 0;
    while step < h
      invariant 0 <= step && (step <= h || step == 0) && |tmp| == cs.r && Y == Orbit(c, cs.Y0, step)
    {
      var i := 0;
      while i < cs.r
        invariant 0 <= i <= cs.r && |tmp| == cs.r
        invariant forall k: nat :: k < i ==> tmp[k] == Dot(cs.C[k], Y)
      {
        var acc := MatrixRow(cs.C[i], Y);
        tmp := tmp[i := acc];
        i := i + 1;
      }
      CompanionStep(cs.C, c, Y, tmp);
      Y, tmp := tmp, Y;
      step := step + 1;
    }
    v := Y[0];
  }

  // ---------------------------------------------------------------- the rational carrier

  datatype Rational = Rational(P: seq<Complex>, Q: seq<Complex>)

  /** The terms of coefficient n of a product of power series. */
  ghost function ProductTerms(f: nat -> Complex, g: nat -> Complex, n: nat): nat -> Complex {
    (k: nat) => if k <= n then Mul(f(k), g(n - k)) else ZERO
  }

  ghost function Convolution(f: nat -> Complex, g: nat -> Complex, n: nat): Complex {
    Sum(n + 1, ProductTerms(f, g, n))
  }

  /** Coefficient n of Q u is coefficient n of P. */
  ghost predicate Divides(rm: Rational, u: nat -> Complex, n: nat) {
    Convolution(Samples(rm.Q), u, n) == Samples(rm.P)(n)
  }

  /** The partial sum of the later terms, Q[1] u[n-1] + ... + Q[k-1] u[n-k+1]. */
  ghost function LaterTerms(Q: seq<Complex>, u: nat -> Complex, n: nat, k: nat): Complex
    requires 1 <= k <= n + 1
  {
    if k == 1 then ZERO else Add(LaterTerms(Q, u, n, k - 1), ProductTerms(Samples(Q), u, n)(k - 1))
  }

  lemma {:induction false} ConvolutionSplit(Q: seq<Complex>, u: nat -> Complex, n: nat, k: nat)
    requires 1 <= k <= n + 1
    ensures Sum(k, ProductTerms(Samples(Q), u, n)) == Add(Mul(Samples(Q)(0), u(n)), LaterTerms(Q, u, n, k))
  {
    hide Mul;
    if k == 1 {
      assert Sum(0, ProductTerms(Samples(Q), u, n)) == ZERO;
    } else {
      ConvolutionSplit(Q, u, n, k - 1);
    }
  }

  /** Terms beyond the last coefficient of Q do not count. */
  lemma {:induction false} LaterTermsStop(Q: seq<Complex>, u: nat -> Complex, n: nat, k: nat, k': nat)
    requires 1 <= k <= k' <= n + 1 && |Q| <= k
    ensures LaterTerms(Q, u, n, k) == LaterTerms(Q, u, n, k')
  {
    hide Mul;
    if k < k' {
      LaterTermsStop(Q, u, n, k, k' - 1);
      MulUnits(u(n - (k' - 1)));
    }
  }

  lemma {:induction false} LaterTermsCongruence(Q: seq<Complex>, u: nat -> Complex, v: nat -> Complex, n: nat, k: nat)
    requires 1 <= k <= n + 1 && forall m: nat :: m < n ==> u(m) == v(m)
    ensures LaterTerms(Q, u, n, k) == LaterTerms(Q, v, n, k)
  {
    if k > 1 {
      LaterTermsCongruence(Q, u, v, n, k - 1);
    }
  }

  /** `build_rational_from_recurrence`. */
  method BuildRational(c: Vector, init: seq<Complex>) returns (out: Result<Rational>)
    ensures out.Ok? <==> |init| >= |c|
    ensures out.Ok? ==> FromRecurrence(out.value, c, init)
  {
    var r := |c|;
    var Q := ZeroVector(r + 1)[0 := ONE];
    var j := 1;
    while j <= r
      invariant 1 <= j <= r + 1 && |Q| == r + 1 && Q[0] == ONE
      invariant forall k :: 1 <= k < j ==> Q[k] == c[r - k]
    {
      Q := Q[j := c[r - j]];
      j := j + 1;
    }
    if |init| < r {
      return NumericError;
    }
    hide Mul;
    var P := ZeroVector(r);
    var n := 0;
    while n < r
      invariant 0 <= n <= r && |P| == r
      invariant forall m: nat :: m < n ==> P[m] == Convolution(Samples(Q), Samples(init), m)
    {
      var pn := init[n];
      j := 1;
      while j <= n
        invariant 1 <= j <= n + 1
        invariant pn == Add(init[n], LaterTerms(Q, Samples(init), n, j))
      {
        pn := Add(pn, Mul(Q[j], init[n - j]));
        j := j + 1;
      }
      ConvolutionSplit(Q, Samples(init), n, n + 1);
      MulUnits(init[n]);
      P := P[n := pn];
      n := n + 1;
    }
    out := Ok(Rational(P, Q));
  }

  /** Q(z) = 1 + c[r-1] z + ... + c[0] z^r, and P is the product of Q with the samples,
      cut off at z^r. */
  ghost predicate FromRecurrence(rm: Rational, c: Vector, init: seq<Complex>) {
    && |rm.Q| == |c| + 1 && rm.Q[0] == ONE && |rm.P| == |c| <= |init|
    && (forall k :: 1 <= k <= |c| ==> rm.Q[k] == c[|c| - k])
    && (forall n: nat :: n < |c| ==> rm.P[n] == Convolution(Samples(rm.Q), Samples(init), n))
  }

  ghost predicate Degenerate(rm: Rational) {
    |rm.Q| == 0 || rm.Q[0] == ZERO
  }

  /** `eval_rational_coeffs`: the power-series long division P / Q up to degree H. */
  method EvalRational(rm: Rational, H: nat) returns (u: seq<Complex>)
    ensures |u| == H + 1
    ensures Degenerate(rm) ==> forall n :: 0 <= n <= H ==> u[n] == ZERO
    ensures !Degenerate(rm) ==> forall n: nat :: n <= H ==> Divides(rm, Samples(u), n)
    ensures forall n: nat :: n <= H ==> u[n] == Series(rm)(n)
  {
    hide Mul, Inv, SeriesPrefix;
    u := ZeroVector(H + 1);
    if |rm.Q| == 0 || rm.Q[0] == ZERO {
      return;
    }
    var n := 0;
    while n <= H
      invariant 0 <= n <= H + 1 && |u| == H + 1
      invariant forall m: nat :: m < n ==> Divides(rm, Samples(u), m)
    {
      var v := if n < |rm.P| then rm.P[n] else ZERO;
      ghost var p := v;
      var k := 1;
      while k < |rm.Q| && n >= k
        invariant 1 <= k <= n + 1 && k <= |rm.Q|
        invariant v == Sub(p, LaterTerms(rm.Q, Samples(u), n, k))
      {
        v := Sub(v, Mul(rm.Q[k], u[n - k]));
        k := k + 1;
      }
      ghost var before := u;
      u := u[n := Div(v, rm.Q[0])];
      DivisionStep(rm, before, u, n, k, v);
      forall m: nat | m < n
        ensures Divides(rm, Samples(u), m)
      {
        DividesPrefix(rm, Samples(before), Samples(u), m);
      }
      n := n + 1;
    }
    forall h: nat | h <= H
      ensures u[h] == Series(rm)(h)
    {
      EvaluatesSeries(rm, u, h);
    }
  }

  lemma {:induction false} DivisionStep(rm: Rational, u: seq<Complex>, u': seq<Complex>, n: nat, k: nat, v: Complex)
    requires !Degenerate(rm) && n < |u| && 1 <= k <= n + 1
    requires k == n + 1 || k == |rm.Q|
    requires v == Sub(Samples(rm.P)(n), LaterTerms(rm.Q, Samples(u), n, k))
    requires u' == u[n := Div(v, rm.Q[0])]
    ensures Divides(rm, Samples(u'), n)
  {
    hide Mul, Inv;
    if k == |rm.Q| {
      LaterTermsStop(rm.Q, Samples(u), n, k, n + 1);
    }
    LaterTermsCongruence(rm.Q, Samples(u), Samples(u'), n, n + 1);
    ConvolutionSplit(rm.Q, Samples(u'), n, n + 1);
    DivMul(v, rm.Q[0]);
  }

  lemma {:induction false} DividesPrefix(rm: Rational, u: nat -> Complex, u': nat -> Complex, n: nat)
    requires Divides(rm, u, n) && forall m: nat :: m <= n ==> u(m) == u'(m)
    ensures Divides(rm, u', n)
  {
    SumCongruence(n + 1, ProductTerms(Samples(rm.Q), u, n), ProductTerms(Samples(rm.Q), u', n));
  }

  /** A rational function has one power series. */
  lemma {:induction false} DivisionUnique(rm: Rational, u: nat -> Complex, v: nat -> Complex, h: nat)
    requires !Degenerate(rm)
    requires forall n: nat :: n <= h ==> Divides(rm, u, n) && Divides(rm, v, n)
    ensures u(h) == v(h)
  {
    forall m: nat | m < h
      ensures u(m) == v(m)
    {
      DivisionUnique(rm, u, v, m);
    }
    hide Mul;
    assert Divides(rm, u, h) && Divides(rm, v, h);
    ConvolutionSplit(rm.Q, u, h, h + 1);
    ConvolutionSplit(rm.Q, v, h, h + 1);
    LaterTermsCongruence(rm.Q, u, v, h, h + 1);
    MulCancel(rm.Q[0], u(h), v(h));
  }

  /** The first n coefficients of the power series P / Q. */
  ghost function SeriesPrefix(rm: Rational, n: nat): (u: seq<Complex>)
    requires !Degenerate(rm)
    ensures |u| == n
  {
    if n == 0 then []
    else
      var u := SeriesPrefix(rm, n - 1);
      u + [Div(Sub(Samples(rm.P)(n - 1), LaterTerms(rm.Q, Samples(u), n - 1, n)), rm.Q[0])]
  }

  /** The power series P / Q; zero where the division is refused. */
  ghost function Series(rm: Rational): nat -> Complex {
    (n: nat) => if Degenerate(rm) then ZERO else SeriesPrefix(rm, n + 1)[n]
  }

  lemma {:induction false} SeriesPrefixes(rm: Rational, m: nat, n: nat)
    requires !Degenerate(rm) && m < n
    ensures SeriesPrefix(rm, n)[m] == Series(rm)(m)
  {
    if m < n - 1 {
      SeriesPrefixes(rm, m, n - 1);
    }
  }

  lemma {:induction false} SeriesDivides(rm: Rational, n: nat)
    requires !Degenerate(rm)
    ensures Divides(rm, Series(rm), n)
  {
    hide Mul, Inv, Convolution;
    var u := SeriesPrefix(rm, n);
    forall m: nat | m < n
      ensures u[m] == Series(rm)(m)
    {
      SeriesPrefixes(rm, m, n);
    }
    LaterTermsCongruence(rm.Q, Samples(u), Series(rm), n, n + 1);
    ConvolutionSplit(rm.Q, Series(rm), n, n + 1);
    DivMul(Sub(Samples(rm.P)(n), LaterTerms(rm.Q, Samples(u), n, n + 1)), rm.Q[0]);
    ConvolutionAll(rm.Q, Series(rm), n);
  }

  lemma {:induction false} ConvolutionAll(Q: seq<Complex>, u: nat -> Complex, n: nat)
    ensures Convolution(Samples(Q), u, n) == Sum(n + 1, ProductTerms(Samples(Q), u, n))
  {
    hide Mul;
  }

  /** What the long division returns is that power series. */
  lemma {:induction false} EvaluatesSeries(rm: Rational, u: seq<Complex>, h: nat)
    requires !Degenerate(rm) && h < |u|
    requires forall n: nat :: n < |u| ==> Divides(rm, Samples(u), n)
    ensures u[h] == Series(rm)(h)
  {
    hide Divides;
    forall n: nat | n <= h
      ensures Divides(rm, Series(rm), n)
    {
      SeriesDivides(rm, n);
    }
    DivisionUnique(rm, Samples(u), Series(rm), h);
  }

  /** The product of Q with a sequence that obeys the recurrence vanishes from degree r on. */
  lemma {:induction false} ConvolutionObeys(rm: Rational, c: Vector, init: seq<Complex>, s: nat -> Complex, n: nat)
    requires FromRecurrence(rm, c, init)
    ensures Convolution(Samples(rm.Q), s, n + |c|) == Add(s(n + |c|), Sum(|c|, RecurrenceTerms(c, s, n)))
  {
    hide Mul, FromRecurrence, ProductTerms, RecurrenceTerms;
    var r, N := |c|, n + |c|;
    var f, terms := ProductTerms(Samples(rm.Q), s, N), RecurrenceTerms(c, s, n);
    LeadingTerm(rm, c, init, s, n);
    TruncatedProduct(rm.Q, s, N);
    var g := (i: nat) => f(i + 1);
    SumFirst(r + 1, f, g);
    forall i: nat | i < r
      ensures g(i) == terms(r - 1 - i)
    {
      ReversedTerm(rm, c, init, s, n, i);
    }
    SumReverse(r, terms, g);
  }

  lemma {:induction false} LeadingTerm(rm: Rational, c: Vector, init: seq<Complex>, s: nat -> Complex, n: nat)
    requires FromRecurrence(rm, c, init)
    ensures |rm.Q| == |c| + 1
    ensures ProductTerms(Samples(rm.Q), s, n + |c|)(0) == s(n + |c|)
  {
    hide Mul, Convolution;
    MulUnits(s(n + |c|));
  }

  /** The product needs no more terms than Q has. */
  lemma {:induction false} TruncatedProduct(Q: seq<Complex>, s: nat -> Complex, N: nat)
    requires |Q| <= N + 1
    ensures Convolution(Samples(Q), s, N) == Sum(|Q|, ProductTerms(Samples(Q), s, N))
  {
    hide Mul;
    var f := ProductTerms(Samples(Q), s, N);
    forall k: nat | |Q| <= k < N + 1
      ensures f(k) == ZERO
    {
      MulUnits(s(N - k));
    }
    SumTruncate(|Q|, N + 1, f);
  }

  lemma {:induction false} ReversedTerm(rm: Rational, c: Vector, init: seq<Complex>, s: nat -> Complex, n: nat, i: nat)
    requires FromRecurrence(rm, c, init) && i < |c|
    ensures ProductTerms(Samples(rm.Q), s, n + |c|)(i + 1) == RecurrenceTerms(c, s, n)(|c| - 1 - i)
  {
    hide Mul, Convolution;
    assert n + |c| - (i + 1) == n + (|c| - 1 - i);
    assert rm.Q[i + 1] == c[|c| - (i + 1)];
  }

  /** The companion orbit and the long division agree at every horizon. */
  lemma {:induction false} CarriersAgree(rm: Rational, c: Vector, init: seq<Complex>, h: nat)
    requires FromRecurrence(rm, c, init)
    ensures !Degenerate(rm) && Series(rm)(h) == Continuation(c, init[..|c|])(h)
  {
    hide Convolution, Orbit, Mul, Divides, SeriesPrefix;
    forall n: nat | n <= h
      ensures Divides(rm, Continuation(c, init[..|c|]), n) && Divides(rm, Series(rm), n)
    {
      OrbitDivides(rm, c, init, n);
      SeriesDivides(rm, n);
    }
    DivisionUnique(rm, Series(rm), Continuation(c, init[..|c|]), h);
  }

  lemma {:induction false} OrbitStarts(rm: Rational, c: Vector, init: seq<Complex>, n: nat)
    requires FromRecurrence(rm, c, init) && n < |c|
    ensures Divides(rm, Continuation(c, init[..|c|]), n)
  {
    hide Mul, Orbit, Continuation;
    var s := Continuation(c, init[..|c|]);
    forall m: nat | m <= n
      ensures s(m) == Samples(init)(m)
    {
      ContinuationStarts(c, init[..|c|], m);
    }
    SumCongruence(n + 1, ProductTerms(Samples(rm.Q), s, n), ProductTerms(Samples(rm.Q), Samples(init), n));
  }

  lemma {:induction false} OrbitContinues(rm: Rational, c: Vector, init: seq<Complex>, m: nat)
    requires FromRecurrence(rm, c, init) && |c| <= |init|
    ensures Convolution(Samples(rm.Q), Continuation(c, init[..|c|]), m + |c|) == ZERO
  {
    hide FromRecurrence, Convolution, Continuation, RecurrenceTerms;
    var s := Continuation(c, init[..|c|]);
    ConvolutionObeys(rm, c, init, s, m);
    if |c| > 0 {
      ContinuationObeys(c, init[..|c|], m);
    } else {
      EmptyOrbit(c, init[..|c|], m);
    }
  }

  lemma {:induction false} EmptyOrbit(c: Vector, Y: Vector, n: nat)
    requires |Y| == |c| == 0
    ensures Obeys(Continuation(c, Y), c, n)
  {
  }

  lemma {:induction false} DividesBeyond(rm: Rational, s: nat -> Complex, n: nat)
    requires n >= |rm.P| && Convolution(Samples(rm.Q), s, n) == ZERO
    ensures Divides(rm, s, n)
  {
    hide Convolution;
  }

  /** Q times the orbit is P, then zeros. */
  lemma {:induction false} OrbitDivides(rm: Rational, c: Vector, init: seq<Complex>, n: nat)
    requires FromRecurrence(rm, c, init)
    ensures Divides(rm, Continuation(c, init[..|c|]), n)
  {
    hide FromRecurrence, Divides, Continuation, Convolution;
    FromLengths(rm, c, init);
    if n < |c| {
      OrbitStarts(rm, c, init, n);
    } else {
      OrbitContinues(rm, c, init, n - |c|);
      DividesBeyond(rm, Continuation(c, init[..|c|]), n);
    }
  }

  lemma {:induction false} FromLengths(rm: Rational, c: Vector, init: seq<Complex>)
    requires FromRecurrence(rm, c, init)
    ensures |rm.P| == |c| <= |init|
  {
    hide Convolution;
  }

  /** `poly_mul`: the coefficients of the product. */
  method PolyMul(a: seq<Complex>, b: seq<Complex>) returns (r: seq<Complex>)
    ensures |a| == 0 || |b| == 0 ==> r == []
    ensures |a| > 0 && |b| > 0 ==> |r| == |a| + |b| - 1
    ensures forall n: nat :: n < |r| ==> r[n] == Convolution(Samples(a), Samples(b), n)
  {
    hide Mul;
    if |a| == 0 || |b| == 0 {
      return [];
    }
    r := ZeroVector(|a| + |b| - 1);
    var i := 0;
    while i < |a|
      invariant 0 <= i <= |a| && |r| == |a| + |b| - 1
      invariant forall n: nat :: n < |r| ==> r[n] == Sum(i, ProductTerms(Samples(a), Samples(b), n))
    {
      ghost var before := r;
      var j := 0;
      while j < |b|
        invariant 0 <= j <= |b| && |r| == |before|
        invariant forall n: nat :: n < |r| ==>
          r[n] == if i <= n < i + j then Add(before[n], Mul(a[i], b[n - i])) else before[n]
      {
        r := r[i + j := Add(r[i + j], Mul(a[i], b[j]))];
        j := j + 1;
      }
      forall n: nat | n < |r|
        ensures r[n] == Sum(i + 1, ProductTerms(Samples(a), Samples(b), n))
      {
        MulUnits(a[i]);
      }
      i := i + 1;
    }
    forall n: nat | n < |r|
      ensures r[n] == Convolution(Samples(a), Samples(b), n)
    {
      if |a| <= n + 1 {
        TruncatedProduct(a, Samples(b), n);
      } else {
        SumTruncate(n + 1, |a|, ProductTerms(Samples(a), Samples(b), n));
      }
    }
  }
}
