/** Gaussian elimination with partial pivoting, in place: `solve_linear` of
    src/math/companion.cpp and src/math/spectral.cpp, and `gaussian_rank_inplace` of
    src/math/hankel.cpp.  The row-major buffers of the source are two-dimensional arrays. */
module Elimination {
  import opened ComplexField
  import opened LinearAlgebra
  import opened MatrixRank

  /** The matrix an array holds. */
  ghost function RowAt(A: array2<Complex>, i: nat): (row: Vector)
    requires i < A.Length0
    reads A
    ensures |row| == A.Length1 && forall j :: 0 <= j < A.Length1 ==> row[j] == A[i, j]
  {
    seq(A.Length1, j requires 0 <= j < A.Length1 reads A => A[i, j])
  }

  ghost function Rows(A: array2<Complex>): (M: Matrix)
    reads A
    ensures |M| == A.Length0
    ensures forall i :: 0 <= i < A.Length0 ==> M[i] == RowAt(A, i)
  {
    seq(A.Length0, i requires 0 <= i < A.Length0 reads A => RowAt(A, i))
  }

  /** The first row from `col` down whose entry in column `col` is largest. */
  method SolvePivot(A: array2<Complex>, col: nat) returns (pivot: nat, best: real)
    requires col < A.Length0 == A.Length1
    ensures col <= pivot < A.Length0 && best == Norm2(A[pivot, col])
    ensures forall r :: col <= r < A.Length0 ==> Norm2(A[r, col]) <= best
    ensures forall r :: col <= r < pivot ==> Norm2(A[r, col]) < best
  {
    pivot := col;
    best := Norm2(A[col, col]);
    var row := col + 1;
    while row < A.Length0
      invariant col + 1 <= row <= A.Length0 && col <= pivot < row && best == Norm2(A[pivot, col])
      invariant forall r :: col <= r < row ==> Norm2(A[r, col]) <= best
      invariant forall r :: col <= r < pivot ==> Norm2(A[r, col]) < best
    {
      var v := Norm2(A[row, col]);
      if v > best {
        best, pivot := v, row;
      }
      row := row + 1;
    }
  }

  /** The rank loop's search starts from 0 and may find nothing. */
  method RankPivot(A: array2<Complex>, top: nat, col: nat) returns (pivot: int, best: real)
    requires top <= col < A.Length0 == A.Length1
    ensures IsSquare(Rows(A), |Rows(A)|) && pivot == PivotRow(Rows(A), top, col, A.Length0)
    ensures pivot == -1 || top <= pivot < A.Length0
    ensures pivot == -1 ==> forall r :: top <= r < A.Length0 ==> A[r, col] == ZERO
    ensures pivot >= 0 ==> best == Norm2(A[pivot, col]) && A[pivot, col] != ZERO
    ensures pivot >= 0 ==> forall r :: top <= r < A.Length0 ==> Norm2(A[r, col]) <= best
    ensures pivot >= 0 ==> forall r :: top <= r < pivot ==> Norm2(A[r, col]) < best
  {
    hide Norm2, PivotRow;
    pivot, best := -1, 0.0;
    PivotNone(Rows(A), top, col);
    var row := top;
    while row < A.Length0
      invariant top <= row <= A.Length0 && pivot == PivotRow(Rows(A), top, col, row)
      invariant pivot == -1 || top <= pivot < row
      invariant pivot == -1 ==> best == 0.0 && forall r :: top <= r < row ==> A[r, col] == ZERO
      invariant pivot >= 0 ==> best == Norm2(A[pivot, col]) > 0.0 && A[pivot, col] != ZERO
      invariant pivot >= 0 ==> forall r :: top <= r < row ==> Norm2(A[r, col]) <= best
      invariant pivot >= 0 ==> forall r :: top <= r < pivot ==> Norm2(A[r, col]) < best
    {
      var v := Norm2(A[row, col]);
      Norm2Zero(A[row, col]);
      Norm2Zero(ZERO);
      PivotNext(Rows(A), top, col, row);
      if v > best {
        best, pivot := v, row;
      }
      row := row + 1;
    }
  }

  method SwapRows(A: array2<Complex>, i: nat, j: nat)
    requires i < A.Length0 && j < A.Length0
    modifies A
    ensures Rows(A) == old(Rows(A))[i := old(Rows(A))[j]][j := old(Rows(A))[i]]
  {
    var c := 0;
    while c < A.Length1
      invariant 0 <= c <= A.Length1
      invariant forall k :: 0 <= k < c ==> A[i, k] == old(A[j, k]) && A[j, k] == old(A[i, k])
      invariant forall k :: c <= k < A.Length1 ==> A[i, k] == old(A[i, k]) && A[j, k] == old(A[j, k])
      invariant forall r, k :: 0 <= r < A.Length0 && r != i && r != j && 0 <= k < A.Length1 ==>
        A[r, k] == old(A[r, k])
    {
      A[i, c], A[j, c] := A[j, c], A[i, c];
      c := c + 1;
    }
    forall r | 0 <= r < A.Length0 && r != i && r != j
      ensures Rows(A)[r] == old(Rows(A))[r]
    {
      assert RowAt(A, r) == old(RowAt(A, r));
    }
    assert RowAt(A, i) == old(RowAt(A, j));
    assert RowAt(A, j) == old(RowAt(A, i));
  }

  /** Row r minus f times row p, from column `col` on. */
  method SubtractRow(A: array2<Complex>, r: nat, f: Complex, p: nat, col: nat)
    requires r < A.Length0 && p < A.Length0 && r != p && col < A.Length1
    modifies A
    ensures forall i: nat :: i < A.Length0 && i != r ==> RowAt(A, i) == old(RowAt(A, i))
    ensures forall c :: col <= c < A.Length1 ==> A[r, c] == Sub(old(A[r, c]), Mul(f, old(A[p, c])))
    ensures forall c :: 0 <= c < col ==> A[r, c] == old(A[r, c])
  {
    hide Mul;
    var c := col;
    while c < A.Length1
      invariant col <= c <= A.Length1
      invariant forall k :: col <= k < c ==> A[r, k] == Sub(old(A[r, k]), Mul(f, old(A[p, k])))
      invariant forall k :: 0 <= k < col ==> A[r, k] == old(A[r, k])
      invariant forall k :: c <= k < A.Length1 ==> A[r, k] == old(A[r, k])
      invariant forall i, k :: 0 <= i < A.Length0 && i != r && 0 <= k < A.Length1 ==> A[i, k] == old(A[i, k])
    {
      A[r, c] := Sub(A[r, c], Mul(f, A[p, c]));
      c := c + 1;
    }
    forall i: nat | i < A.Length0 && i != r
      ensures RowAt(A, i) == old(RowAt(A, i))
    {
    }
  }

  /** Rows below p lose their entry in column p; b, if there is one, follows. */
  ghost predicate EliminatedBelow(A: Matrix, b: Vector, p: nat, row: nat) {
    && Cleared(A, p) && p < |A| == |b| && A[p][p] != ZERO
    && forall r :: p < r < row && r < |A| ==> A[r][p] == ZERO
  }

  /** One elimination row keeps the system and clears one more entry. */
  lemma {:induction false} EliminateStep(A: Matrix, b: Vector, p: nat, row: nat, f: Complex, A': Matrix)
    requires EliminatedBelow(A, b, p, row) && p < row < |A| && f == Div(A[row][p], A[p][p])
    requires |A'| == |A| && (forall i :: 0 <= i < |A| && i != row ==> A'[i] == A[i])
    requires |A'[row]| == |A|
    requires forall c :: p <= c < |A| ==> A'[row][c] == Sub(A[row][c], Mul(f, A[p][c]))
    requires forall c :: 0 <= c < p ==> A'[row][c] == A[row][c]
    ensures var b' := b[row := Sub(b[row], Mul(f, b[p]))];
      Equivalent(A, b, A', b') && EliminatedBelow(A', b', p, row + 1)
  {
    hide Mul, Inv, Equivalent;
    MulUnits(f);
    forall c | 0 <= c < |A|
      ensures A'[row][c] == RowMinus(A[row], f, A[p])[c]
    {
      if c < p {
        assert A[row][c] == ZERO && A[p][c] == ZERO;
      }
    }
    assert A'[row] == RowMinus(A[row], f, A[p]);
    assert A' == A[row := RowMinus(A[row], f, A[p])];
    EliminateEquivalent(A, b, row, f, p);
    DivMul(A[row][p], A[p][p]);
  }

  /** The elimination below pivot row p, with the right-hand side. */
  method EliminateColumn(A: array2<Complex>, b: array<Complex>, p: nat)
    requires p < A.Length0 == A.Length1 == b.Length
    requires Cleared(Rows(A), p) && A[p, p] != ZERO
    modifies A, b
    ensures Cleared(Rows(A), p + 1)
    ensures Equivalent(old(Rows(A)), old(b[..]), Rows(A), b[..])
  {
    hide Mul, Inv, Equivalent, RowMinus;
    EquivalentReflexive(Rows(A), b[..]);
    ghost var A0, b0 := Rows(A), b[..];
    var d := A[p, p];
    var row := p + 1;
    while row < A.Length0
      invariant p + 1 <= row <= A.Length0
      invariant EliminatedBelow(Rows(A), b[..], p, row) && A[p, p] == d
      invariant Equivalent(A0, b0, Rows(A), b[..])
    {
      ghost var A1, b1 := Rows(A), b[..];
      var f := Div(A[row, p], d);
      SubtractRow(A, row, f, p, p);
      b[row] := Sub(b[row], Mul(f, b[p]));
      ghost var A2, b2 := Rows(A), b[..];
      assert b2 == b1[row := Sub(b1[row], Mul(f, b1[p]))];
      EliminateStep(A1, b1, p, row, f, A2);
      EquivalentTransitive(A0, b0, A1, b1, A2, b2);
      row := row + 1;
    }
  }

  lemma {:induction false} EquivalentReflexive(A: Matrix, b: Vector)
    requires |A| == |b|
    ensures Equivalent(A, b, A, b)
  {
  }

  lemma {:induction false} SwapCleared(A: Matrix, col: nat, pivot: nat)
    requires Cleared(A, col) && col <= pivot < |A|
    ensures Cleared(A[col := A[pivot]][pivot := A[col]], col)
  {
  }

  /** `solve_linear`: fails exactly when the matrix is singular, and otherwise leaves in b
      the solution of the system it was given. */
  method SolveLinear(A: array2<Complex>, b: array<Complex>) returns (ok: bool)
    requires A.Length0 == A.Length1 == b.Length
    modifies A, b
    ensures ok <==> !Singular(old(Rows(A)))
    ensures ok ==> Solves(old(Rows(A)), old(b[..]), b[..])
  {
    hide Mul, Inv, Equivalent, Singular, Solves, Norm2;
    ghost var A0, b0 := Rows(A), b[..];
    EquivalentReflexive(A0, b0);
    var col := 0;
    while col < A.Length0
      invariant 0 <= col <= A.Length0
      invariant Cleared(Rows(A), col) && Equivalent(A0, b0, Rows(A), b[..])
    {
      var pivot, best := SolvePivot(A, col);
      Norm2Zero(A[pivot, col]);
      if best == 0.0 {
        forall r | col <= r < A.Length0
          ensures A[r, col] == ZERO
        {
          Norm2Zero(A[r, col]);
        }
        NoPivotSingular(Rows(A), col);
        KernelOfEquivalent(A0, b0, Rows(A), b[..]);
        return false;
      }
      if pivot != col {
        ghost var A1, b1 := Rows(A), b[..];
        SwapRows(A, col, pivot);
        b[col], b[pivot] := b[pivot], b[col];
        assert b[..] == b1[col := b1[pivot]][pivot := b1[col]];
        SwapEquivalent(A1, b1, col, pivot);
        SwapCleared(A1, col, pivot);
        EquivalentTransitive(A0, b0, A1, b1, Rows(A), b[..]);
        assert Rows(A)[col][col] == A1[pivot][col];
      }
      assert A[col, col] != ZERO;
      ghost var A2, b2 := Rows(A), b[..];
      EliminateColumn(A, b, col);
      EquivalentTransitive(A0, b0, A2, b2, Rows(A), b[..]);
      col := col + 1;
    }
    ClearedNotSingular(Rows(A));
    KernelOfEquivalent(A0, b0, Rows(A), b[..]);
    ghost var bt := b[..];
    BackSubstitute(A, b);
    SolutionOfEquivalent(A0, b0, Rows(A), bt, b[..]);
    ok := true;
  }

  lemma {:induction false} KernelOfEquivalent(A: Matrix, b: Vector, A': Matrix, b': Vector)
    requires Equivalent(A, b, A', b')
    ensures Singular(A) <==> Singular(A')
  {
    SameKernelSingular(A, A');
  }

  lemma {:induction false} SolutionOfEquivalent(A: Matrix, b: Vector, A': Matrix, b': Vector, x: Vector)
    requires Equivalent(A, b, A', b') && Solves(A', b', x)
    ensures Solves(A, b, x)
  {
  }

  /** Back substitution in a triangular system, overwriting b with the solution. */
  method BackSubstitute(A: array2<Complex>, b: array<Complex>)
    requires A.Length0 == A.Length1 == b.Length && Cleared(Rows(A), A.Length0)
    modifies b
    ensures Solves(Rows(A), old(b[..]), b[..])
  {
    hide Mul, Inv, Dot;
    var m := A.Length0;
    ghost var M, b0 := Rows(A), b[..];
    var row := m - 1;
    while row >= 0
      invariant -1 <= row < m && Rows(A) == M && |b[..]| == m
      invariant forall i :: 0 <= i <= row ==> b[i] == b0[i]
      invariant forall i: nat :: row < i < m ==> SolvesRow(M, b0, b[..], i)
    {
      var s := PartialRow(A, b, row);
      ghost var x := b[..];
      assert M[row][row] == A[row, row];
      var v := Div(s, A[row, row]);
      b[row] := v;
      assert b[..] == x[row := v];
      forall i: nat | row <= i < m
        ensures SolvesRow(M, b0, b[..], i)
      {
        if i > row {
          assert SolvesRow(M, b0, x, i) && M[i][row] == ZERO;
          DotUpdate(M[i], x, row, v);
          MulUnits(Sub(v, x[row]));
        } else {
          SubstituteRow(M[row], x, row, b0[row], s);
        }
      }
      row := row - 1;
    }
  }

  /** s = b[row] - sum of A[row][c] b[c] over c > row. */
  method PartialRow(A: array2<Complex>, b: array<Complex>, row: nat) returns (s: Complex)
    requires A.Length0 == A.Length1 == b.Length && row < b.Length
    ensures s == Sub(b[row], Tail(RowAt(A, row), b[..], row + 1, b.Length))
  {
    hide Mul;
    s := b[row];
    var c := row + 1;
    while c < b.Length
      invariant row + 1 <= c <= b.Length
      invariant s == Sub(b[row], Tail(RowAt(A, row), b[..], row + 1, c))
    {
      s := Sub(s, Mul(A[row, c], b[c]));
      c := c + 1;
    }
  }

  /** The sum of a[c] x[c] for lo <= c < hi. */
  ghost function Tail(a: Vector, x: Vector, lo: nat, hi: nat): Complex
    requires lo <= hi <= |a| == |x|
  {
    if hi == lo then ZERO else Add(Tail(a, x, lo, hi - 1), Mul(a[hi - 1], x[hi - 1]))
  }

  /** A row that starts at column k: its dot product is the pivot term plus the tail. */
  lemma {:induction false} TriangularDot(a: Vector, x: Vector, k: nat, n: nat)
    requires k < n <= |a| == |x| && forall j :: 0 <= j < k ==> a[j] == ZERO
    ensures Sum(n, Products(a, x)) == Add(Mul(a[k], x[k]), Tail(a, x, k + 1, n))
  {
    hide Mul;
    if n == k + 1 {
      forall j: nat | j < k
        ensures Products(a, x)(j) == ZERO
      {
        MulUnits(x[j]);
      }
      SumZero(k, Products(a, x));
    } else {
      TriangularDot(a, x, k, n - 1);
    }
  }

  lemma {:induction false} TailUpdate(a: Vector, x: Vector, k: nat, v: Complex, lo: nat, hi: nat)
    requires k < lo <= hi <= |a| == |x|
    ensures Tail(a, x[k := v], lo, hi) == Tail(a, x, lo, hi)
  {
    if lo < hi {
      TailUpdate(a, x, k, v, lo, hi - 1);
    }
  }

  lemma {:induction false} SubstituteRow(a: Vector, x: Vector, k: nat, target: Complex, s: Complex)
    requires k < |a| == |x| && a[k] != ZERO && forall j :: 0 <= j < k ==> a[j] == ZERO
    requires s == Sub(target, Tail(a, x, k + 1, |a|))
    ensures Dot(a, x[k := Div(s, a[k])]) == target
  {
    hide Mul, Inv;
    var v := Div(s, a[k]);
    TriangularDot(a, x[k := v], k, |a|);
    TailUpdate(a, x, k, v, k + 1, |a|);
    DivMul(s, a[k]);
  }

  // ---------------------------------------------------------------- rank

  /** `gaussian_rank_inplace`, at any tolerance.  Full rank means nonsingular; at tolerance 0
      the result is the rank, so a smaller one means singular. */
  method GaussianRank(A: array2<Complex>, tol: real) returns (rank: nat)
    requires A.Length0 == A.Length1
    modifies A
    ensures IsSquare(old(Rows(A)), A.Length0) && rank == RankOf(old(Rows(A)), tol) <= A.Length0
    ensures rank == A.Length0 ==> !Singular(old(Rows(A)))
    ensures rank < A.Length0 && tol <= 0.0 ==> Singular(old(Rows(A)))
  {
    hide Mul, Inv, Singular, Norm2, CountedRank, RankAtLeast, RankAtMost, PivotRow, Eliminated, BelowTolerance;
    var m := A.Length0;
    ghost var A0 := Rows(A);
    rank := 0;
    var col := 0;
    while col < m
      invariant 0 <= col <= m && rank <= col && IsSquare(Rows(A), m)
      invariant CountedRank(A0, tol, 0, 0) == CountedRank(Rows(A), tol, rank, col)
    {
      CountStep(Rows(A), tol, rank, col);
      var pivot, best := RankPivot(A, rank, col);
      if !(pivot < 0 || BelowTolerance(best, tol)) {
        ghost var A1 := Rows(A);
        if pivot != rank {
          SwapRows(A, rank, pivot);
        }
        assert Rows(A) == Swapped(A1, rank, pivot);
        EliminateForRank(A, rank, col);
        rank := rank + 1;
      }
      col := col + 1;
    }
    CountEnds(Rows(A), tol, rank);
    CountsRank(A0, tol);
    FullRank(A0, rank);
  }

  /** The elimination below row `top` in column `col`. */
  method EliminateForRank(A: array2<Complex>, top: nat, col: nat)
    requires A.Length0 == A.Length1 && top <= col < A.Length1 && A[top, col] != ZERO
    modifies A
    ensures IsSquare(old(Rows(A)), A.Length0) && Rows(A) == Eliminated(old(Rows(A)), top, col)
  {
    hide Mul, Inv, PartialMinus;
    ghost var A0 := Rows(A);
    var d := A[top, col];
    var row := top + 1;
    while row < A.Length0
      invariant top + 1 <= row <= A.Length0 && A[top, col] == d
      invariant forall r: nat :: r <= top || row <= r < A.Length0 ==> RowAt(A, r) == A0[r]
      invariant forall r: nat :: top < r < row ==> RowAt(A, r) == PartialMinus(A0[r], Div(A0[r][col], d), A0[top], col)
    {
      ghost var a := RowAt(A, row);
      var f := Div(A[row, col], d);
      assert a == A0[row] && f == Div(A0[row][col], d);
      ghost var p := RowAt(A, top);
      SubtractRow(A, row, f, top, col);
      MinusAt(a, f, p, col, RowAt(A, row));
      row := row + 1;
    }
    assert Rows(A) == Eliminated(A0, top, col);
  }

  lemma {:induction false} MinusAt(a: Vector, f: Complex, p: Vector, col: nat, r: Vector)
    requires |a| == |p| == |r| && forall c: nat :: c < |a| ==> r[c] == if c < col then a[c] else Sub(a[c], Mul(f, p[c]))
    ensures r == PartialMinus(a, f, p, col)
  {
    hide Mul;
  }
}
