/** Linear systems over the complex numbers: what row operations preserve and what an
    upper-triangular system decides. */
module LinearAlgebra {
  import opened ComplexField

  type Vector = seq<Complex>
  type Matrix = seq<seq<Complex>>

  ghost predicate IsSquare(A: Matrix, m: nat) {
    |A| == m && forall i :: 0 <= i < m ==> |A[i]| == m
  }

  ghost function Products(a: Vector, x: Vector): nat -> Complex {
    (j: nat) => if j < |a| && j < |x| then Mul(a[j], x[j]) else ZERO
  }

  ghost function Dot(a: Vector, x: Vector): Complex {
    Sum(|a|, Products(a, x))
  }

  /** x solves row i of A x = b. */
  ghost predicate SolvesRow(A: Matrix, b: Vector, x: Vector, i: nat)
    requires i < |A| == |b|
  {
    Dot(A[i], x) == b[i]
  }

  ghost predicate Solves(A: Matrix, b: Vector, x: Vector) {
    |b| == |A| == |x| && forall i: nat :: i < |A| ==> SolvesRow(A, b, x, i)
  }

  function ZeroVector(m: nat): (z: Vector)
    ensures |z| == m && forall i :: 0 <= i < m ==> z[i] == ZERO
  {
    seq(m, i => ZERO)
  }

  ghost predicate InKernel(A: Matrix, x: Vector) {
    Solves(A, ZeroVector(|A|), x)
  }

  ghost predicate NonZero(x: Vector) {
    exists j :: 0 <= j < |x| && x[j] != ZERO
  }

  /** A singular matrix sends some vector other than 0 to 0. */
  ghost predicate Singular(A: Matrix) {
    exists x: Vector :: |x| == |A| && InKernel(A, x) && NonZero(x)
  }

  // ---------------------------------------------------------------- dot products

  lemma {:induction false} DotUpdate(a: Vector, x: Vector, k: nat, v: Complex)
    requires k < |a| == |x|
    ensures Dot(a, x[k := v]) == Add(Dot(a, x), Mul(a[k], Sub(v, x[k])))
  {
    hide Mul;
    var delta := (j: nat) => if j == k then Mul(a[k], Sub(v, x[k])) else ZERO;
    MulSub(a[k], v, x[k]);
    SumAdd(|a|, Products(a, x), delta, Products(a, x[k := v]));
    SumSingle(|a|, k, delta);
  }

  lemma {:induction false} DotSub(a: Vector, x: Vector, y: Vector, d: Vector)
    requires |a| == |x| == |y| == |d| && forall j :: 0 <= j < |d| ==> d[j] == Sub(x[j], y[j])
    ensures Dot(a, d) == Sub(Dot(a, x), Dot(a, y))
  {
    hide Mul;
    forall j: nat | j < |a|
      ensures Products(a, d)(j) == Sub(Products(a, x)(j), Products(a, y)(j))
    {
      MulSub(a[j], x[j], y[j]);
    }
    SumSub(|a|, Products(a, x), Products(a, y), Products(a, d));
  }

  /** Only entry k of x meets an entry of a that is not zero. */
  lemma {:induction false} DotSingle(a: Vector, x: Vector, k: nat)
    requires k < |a| == |x|
    requires forall j :: 0 <= j < |a| && j != k ==> a[j] == ZERO || x[j] == ZERO
    ensures Dot(a, x) == Mul(a[k], x[k])
  {
    hide Mul;
    forall j: nat | j < |a| && j != k
      ensures Products(a, x)(j) == ZERO
    {
      MulUnits(a[j]);
      MulUnits(x[j]);
    }
    SumSingle(|a|, k, Products(a, x));
  }

  /** The row a - f p. */
  function RowMinus(a: Vector, f: Complex, p: Vector): (r: Vector)
    requires |a| == |p|
    ensures |r| == |a|
  {
    seq(|a|, j requires 0 <= j < |a| => Sub(a[j], Mul(f, p[j])))
  }

  lemma {:induction false} DotRowMinus(a: Vector, f: Complex, p: Vector, x: Vector)
    requires |a| == |p| == |x|
    ensures Dot(RowMinus(a, f, p), x) == Sub(Dot(a, x), Mul(f, Dot(p, x)))
  {
    hide Mul;
    var scaled := (j: nat) => Mul(f, Products(p, x)(j));
    SumScale(|a|, f, Products(p, x), scaled);
    forall j: nat | j < |a|
      ensures Products(RowMinus(a, f, p), x)(j) == Sub(Products(a, x)(j), scaled(j))
    {
      MulSub(x[j], a[j], Mul(f, p[j]));
      MulAssoc(f, p[j], x[j]);
    }
    SumSub(|a|, Products(a, x), scaled, Products(RowMinus(a, f, p), x));
  }

  // ---------------------------------------------------------------- row operations

  /** Every solution of one system solves the other, and likewise for the kernels. */
  ghost predicate Equivalent(A: Matrix, b: Vector, A': Matrix, b': Vector) {
    && |A| == |A'| == |b| == |b'|
    && (forall x: Vector {:trigger Solves(A, b, x)} {:trigger Solves(A', b', x)} ::
          |x| == |A| ==> (Solves(A, b, x) <==> Solves(A', b', x)))
    && SameKernel(A, A')
  }

  ghost predicate SameKernel(A: Matrix, A': Matrix) {
    && |A| == |A'|
    && (forall x: Vector {:trigger InKernel(A, x)} {:trigger InKernel(A', x)} ::
          |x| == |A| ==> (InKernel(A, x) <==> InKernel(A', x)))
  }

  lemma {:induction false} EquivalentTransitive(A: Matrix, b: Vector, A': Matrix, b': Vector, A'': Matrix, b'': Vector)
    requires Equivalent(A, b, A', b') && Equivalent(A', b', A'', b'')
    ensures Equivalent(A, b, A'', b'')
  {
    hide Solves, InKernel;
  }

  lemma {:induction false} SameKernelSingular(A: Matrix, A': Matrix)
    requires SameKernel(A, A')
    ensures Singular(A) <==> Singular(A')
  {
    hide InKernel, NonZero;
  }

  lemma {:induction false} SwapSolves(A: Matrix, b: Vector, x: Vector, i: nat, j: nat)
    requires IsSquare(A, |A|) && |b| == |A| == |x| && i < |A| && j < |A|
    ensures Solves(A, b, x) <==> Solves(A[i := A[j]][j := A[i]], b[i := b[j]][j := b[i]], x)
  {
    hide Dot;
    var A', b' := A[i := A[j]][j := A[i]], b[i := b[j]][j := b[i]];
    forall r: nat | r < |A|
      ensures SolvesRow(A', b', x, r) == SolvesRow(A, b, x, if r == i then j else if r == j then i else r)
    {
    }
    if Solves(A', b', x) {
      forall r: nat | r < |A|
        ensures SolvesRow(A, b, x, r)
      {
        assert SolvesRow(A', b', x, if r == i then j else if r == j then i else r);
      }
    }
  }

  lemma {:induction false} SwapEquivalent(A: Matrix, b: Vector, i: nat, j: nat)
    requires IsSquare(A, |A|) && |b| == |A| && i < |A| && j < |A|
    ensures Equivalent(A, b, A[i := A[j]][j := A[i]], b[i := b[j]][j := b[i]])
  {
    hide Solves;
    var A', b' := A[i := A[j]][j := A[i]], b[i := b[j]][j := b[i]];
    var z := ZeroVector(|A|);
    assert z[i := z[j]][j := z[i]] == z;
    forall x: Vector | |x| == |A|
      ensures Solves(A, b, x) <==> Solves(A', b', x)
      ensures InKernel(A, x) <==> InKernel(A', x)
    {
      SwapSolves(A, b, x, i, j);
      SwapSolves(A, z, x, i, j);
    }
  }

  lemma {:induction false} EliminateSolves(A: Matrix, b: Vector, x: Vector, r: nat, f: Complex, p: nat)
    requires IsSquare(A, |A|) && |b| == |A| == |x| && r < |A| && p < |A| && r != p
    ensures Solves(A, b, x)
       <==> Solves(A[r := RowMinus(A[r], f, A[p])], b[r := Sub(b[r], Mul(f, b[p]))], x)
  {
    hide Dot, Mul;
    var A', b' := A[r := RowMinus(A[r], f, A[p])], b[r := Sub(b[r], Mul(f, b[p]))];
    DotRowMinus(A[r], f, A[p], x);
    forall i: nat | i < |A| && i != r
      ensures SolvesRow(A', b', x, i) == SolvesRow(A, b, x, i)
    {
    }
    if Solves(A', b', x) {
      assert SolvesRow(A', b', x, p) && SolvesRow(A', b', x, r);
      assert SolvesRow(A, b, x, r);
    }
    if Solves(A, b, x) {
      assert SolvesRow(A, b, x, p) && SolvesRow(A, b, x, r);
      assert SolvesRow(A', b', x, r);
    }
  }

  lemma {:induction false} EliminateEquivalent(A: Matrix, b: Vector, r: nat, f: Complex, p: nat)
    requires IsSquare(A, |A|) && |b| == |A| && r < |A| && p < |A| && r != p
    ensures Equivalent(A, b, A[r := RowMinus(A[r], f, A[p])], b[r := Sub(b[r], Mul(f, b[p]))])
  {
    hide Solves, Mul, RowMinus;
    var A', b' := A[r := RowMinus(A[r], f, A[p])], b[r := Sub(b[r], Mul(f, b[p]))];
    var z := ZeroVector(|A|);
    MulUnits(f);
    assert z[r := Sub(z[r], Mul(f, z[p]))] == z;
    forall x: Vector | |x| == |A|
      ensures Solves(A, b, x) <==> Solves(A', b', x)
      ensures InKernel(A, x) <==> InKernel(A', x)
    {
      EliminateSolves(A, b, x, r, f, p);
      EliminateSolves(A, z, x, r, f, p);
    }
  }

  // ---------------------------------------------------------------- triangular systems

  /** The first `col` columns are in upper-triangular form with non-zero pivots. */
  ghost predicate Cleared(A: Matrix, col: nat) {
    && IsSquare(A, |A|) && col <= |A|
    && (forall c :: 0 <= c < col ==> A[c][c] != ZERO)
    && (forall r, c :: 0 <= c < col && c < r < |A| ==> A[r][c] == ZERO)
  }

  /** Rows from i on are solved by x; the pivots above make the other rows solvable too. */
  lemma {:induction false} CompleteKernel(A: Matrix, col: nat, i: nat, x: Vector) returns (y: Vector)
    requires Cleared(A, col) && i <= col && |x| == |A|
    requires forall r: nat :: i <= r < |A| ==> SolvesRow(A, ZeroVector(|A|), x, r)
    ensures |y| == |A| && y[i..] == x[i..] && InKernel(A, y)
  {
    hide Mul, Dot, Inv;
    if i == 0 {
      y := x;
    } else {
      var k := i - 1;
      var v := Sub(x[k], Div(Dot(A[k], x), A[k][k]));
      var x' := x[k := v];
      forall r: nat | k <= r < |A|
        ensures SolvesRow(A, ZeroVector(|A|), x', r)
      {
        DotUpdate(A[r], x, k, v);
        MulUnits(Sub(v, x[k]));
        if r == k {
          var q := Div(Dot(A[k], x), A[k][k]);
          assert Sub(v, x[k]) == Neg(q);
          MulNeg(A[k][k], q);
          DivMul(Dot(A[k], x), A[k][k]);
        } else {
          assert SolvesRow(A, ZeroVector(|A|), x, r);
        }
      }
      y := CompleteKernel(A, col, k, x');
      assert y[i..] == y[k..][1..] == x'[k..][1..] == x[i..];
    }
  }

  /** A column with no pivot left makes the matrix singular. */
  lemma {:induction false} NoPivotSingular(A: Matrix, col: nat)
    requires Cleared(A, col) && col < |A|
    requires forall r :: col <= r < |A| ==> A[r][col] == ZERO
    ensures Singular(A)
  {
    hide Mul, Dot;
    var x := ZeroVector(|A|)[col := ONE];
    forall r: nat | col <= r < |A|
      ensures SolvesRow(A, ZeroVector(|A|), x, r)
    {
      DotSingle(A[r], x, col);
      MulUnits(ONE);
    }
    var y := CompleteKernel(A, col, col, x);
    assert y[col] == y[col..][0] == x[col..][0] == ONE;
    assert NonZero(y);
  }

  /** With every pivot in place only 0 is sent to 0. */
  lemma {:induction false} ClearedNotSingular(A: Matrix)
    requires Cleared(A, |A|)
    ensures !Singular(A)
  {
    if Singular(A) {
      var x: Vector :| |x| == |A| && InKernel(A, x) && NonZero(x);
      KernelTail(A, x, 0);
    }
  }

  lemma {:induction false} KernelTail(A: Matrix, x: Vector, k: nat)
    requires Cleared(A, |A|) && |x| == |A| && InKernel(A, x) && k <= |A|
    ensures forall j :: k <= j < |x| ==> x[j] == ZERO
    decreases |A| - k
  {
    if k < |A| {
      hide Mul, Dot;
      KernelTail(A, x, k + 1);
      assert SolvesRow(A, ZeroVector(|A|), x, k);
      DotSingle(A[k], x, k);
      NoZeroDivisors(A[k][k], x[k]);
    }
  }

  /** A nonsingular system has at most one solution. */
  lemma {:induction false} SolutionUnique(A: Matrix, b: Vector, x: Vector, y: Vector)
    requires IsSquare(A, |A|) && !Singular(A) && Solves(A, b, x) && Solves(A, b, y)
    ensures x == y
  {
    hide Dot;
    var d := seq(|x|, j requires 0 <= j < |x| => Sub(x[j], y[j]));
    forall i: nat | i < |A|
      ensures SolvesRow(A, ZeroVector(|A|), d, i)
    {
      assert SolvesRow(A, b, x, i) && SolvesRow(A, b, y, i);
      DotSub(A[i], x, y, d);
    }
    assert InKernel(A, d);
    assert !NonZero(d);
    forall j | 0 <= j < |x|
      ensures x[j] == y[j]
    {
      assert d[j] == ZERO;
    }
  }
}
