/** Rank by columns, and the number that elimination with a tolerance counts. */
module MatrixRank {
  import opened ComplexField
  import opened LinearAlgebra

  // ---------------------------------------------------------------- independent columns

  ghost predicate SupportedOn(x: Vector, S: set<nat>) {
    forall j: nat :: j < |x| && j !in S ==> x[j] == ZERO
  }

  /** No combination of these columns but the trivial one vanishes. */
  ghost predicate Independent(A: Matrix, S: set<nat>) {
    forall x: Vector :: |x| == |A| && SupportedOn(x, S) && InKernel(A, x) ==> !NonZero(x)
  }

  ghost predicate IsColumns(A: Matrix, S: set<nat>) {
    forall j :: j in S ==> j < |A|
  }

  /** k columns are independent. */
  ghost predicate RankAtLeast(A: Matrix, k: nat) {
    exists S: set<nat> :: IsColumns(A, S) && |S| == k && Independent(A, S)
  }

  /** No more than k columns are. */
  ghost predicate RankAtMost(A: Matrix, k: nat) {
    forall S: set<nat> :: IsColumns(A, S) && |S| > k ==> !Independent(A, S)
  }

  /** The two matrices relate the columns of S in the same way. */
  ghost predicate SameRelations(A: Matrix, B: Matrix, S: set<nat>) {
    |A| == |B| && forall x: Vector :: |x| == |A| && SupportedOn(x, S) ==> (InKernel(A, x) <==> InKernel(B, x))
  }

  lemma {:induction false} IndependentTransfers(A: Matrix, B: Matrix, T: set<nat>, S: set<nat>)
    requires SameRelations(A, B, T) && S <= T
    ensures Independent(A, S) <==> Independent(B, S)
  {
    hide InKernel, NonZero;
    forall x: Vector | |x| == |A| && SupportedOn(x, S)
      ensures InKernel(A, x) <==> InKernel(B, x)
    {
      assert SupportedOn(x, T);
    }
  }

  // ---------------------------------------------------------------- more columns than rows

  /** The rows annihilate x. */
  ghost predicate Annihilates(rows: Matrix, x: Vector) {
    forall i :: 0 <= i < |rows| ==> Dot(rows[i], x) == ZERO
  }

  ghost predicate RowsOfLength(rows: Matrix, n: nat) {
    forall i :: 0 <= i < |rows| ==> |rows[i]| == n
  }

  ghost function Reduce(rows: Matrix, row: Vector, j: nat): (out: Matrix)
    requires RowsOfLength(rows, |row|) && j < |row| && row[j] != ZERO
    ensures |out| == |rows| && RowsOfLength(out, |row|)
    ensures forall i :: 0 <= i < |rows| ==> out[i] == RowMinus(rows[i], Div(rows[i][j], row[j]), row)
  {
    seq(|rows|, i requires 0 <= i < |rows| => RowMinus(rows[i], Div(rows[i][j], row[j]), row))
  }

  /** Fewer equations than columns: some combination of the columns vanishes. */
  lemma {:induction false} FewerRows(rows: Matrix, n: nat, S: set<nat>) returns (x: Vector)
    requires RowsOfLength(rows, n) && (forall j :: j in S ==> j < n) && |S| > |rows|
    ensures |x| == n && SupportedOn(x, S) && NonZero(x) && Annihilates(rows, x)
    decreases |rows|
  {
    hide Mul, Inv, Dot, RowMinus;
    if rows == [] {
      var j :| j in S;
      x := ZeroVector(n)[j := ONE];
      assert x[j] != ZERO;
    } else {
      var row, rest := rows[|rows| - 1], rows[..|rows| - 1];
      assert rows == rest + [row];
      if forall j :: j in S ==> row[j] == ZERO {
        x := FewerRows(rest, n, S);
        ZeroDot(row, x, S);
        assert forall i :: 0 <= i < |rest| ==> rows[i] == rest[i];
      } else {
        var j :| j in S && row[j] != ZERO;
        var y := FewerRows(Reduce(rest, row, j), n, S - {j});
        x := Extended(rest, row, j, y, S);
      }
    }
  }

  lemma {:induction false} ZeroDot(row: Vector, x: Vector, S: set<nat>)
    requires |row| == |x| && SupportedOn(x, S) && forall j :: j in S ==> j < |row| && row[j] == ZERO
    ensures Dot(row, x) == ZERO
  {
    hide Mul;
    forall j: nat | j < |row|
      ensures Products(row, x)(j) == ZERO
    {
      MulUnits(x[j]);
      MulUnits(row[j]);
    }
    SumZero(|row|, Products(row, x));
  }

  /** A combination for the reduced rows, completed at the pivot column. */
  lemma {:induction false} Extended(rest: Matrix, row: Vector, j: nat, y: Vector, S: set<nat>) returns (x: Vector)
    requires RowsOfLength(rest, |row|) && j < |row| == |y| && row[j] != ZERO && j in S
    requires SupportedOn(y, S - {j}) && NonZero(y) && Annihilates(Reduce(rest, row, j), y)
    ensures |x| == |y| && SupportedOn(x, S) && NonZero(x) && Annihilates(rest + [row], x)
  {
    hide Mul, Inv, Dot, RowMinus;
    var v := Neg(Div(Dot(row, y), row[j]));
    assert y[j] == ZERO;
    x := y[j := v];
    var k :| 0 <= k < |y| && y[k] != ZERO;
    assert x[k] != ZERO;
    PivotDot(row, y, j);
    forall i | 0 <= i < |rest|
      ensures Dot(rest[i], x) == ZERO
    {
      ReducedDot(rest[i], row, j, y, v);
    }
  }

  lemma {:induction false} PivotDot(row: Vector, y: Vector, j: nat)
    requires j < |row| == |y| && row[j] != ZERO && y[j] == ZERO
    ensures Dot(row, y[j := Neg(Div(Dot(row, y), row[j]))]) == ZERO
  {
    hide Mul, Inv, Dot;
    var v := Neg(Div(Dot(row, y), row[j]));
    DotUpdate(row, y, j, v);
    assert Sub(v, ZERO) == v;
    MulNeg(row[j], Div(Dot(row, y), row[j]));
    DivMul(Dot(row, y), row[j]);
  }

  lemma {:induction false} ReducedDot(a: Vector, row: Vector, j: nat, y: Vector, v: Complex)
    requires j < |row| == |y| == |a| && row[j] != ZERO && y[j] == ZERO
    requires Dot(RowMinus(a, Div(a[j], row[j]), row), y) == ZERO && Dot(row, y[j := v]) == ZERO
    ensures Dot(a, y[j := v]) == ZERO
  {
    hide Mul, Inv, Dot;
    var f := Div(a[j], row[j]);
    var b := RowMinus(a, f, row);
    DivMul(a[j], row[j]);
    assert b[j] == ZERO;
    DotUpdate(b, y, j, v);
    MulUnits(Sub(v, y[j]));
    DotRowMinus(a, f, row, y[j := v]);
    MulUnits(f);
  }

  // ---------------------------------------------------------------- elimination on values

  /** The first row from `top` to `hi` - 1 with the largest entry in the column, -1 if all
      those entries are zero. */
  ghost function PivotRow(M: Matrix, top: nat, col: nat, hi: nat): (p: int)
    requires hi <= |M| && col < |M| && IsSquare(M, |M|)
    ensures p == -1 || top <= p < hi
  {
    if hi <= top then -1
    else
      var p := PivotRow(M, top, col, hi - 1);
      if Norm2(M[hi - 1][col]) > (if p < 0 then 0.0 else Norm2(M[p][col])) then hi - 1 else p
  }

  lemma {:induction false} PivotNone(M: Matrix, top: nat, col: nat)
    requires top <= |M| && col < |M| && IsSquare(M, |M|)
    ensures PivotRow(M, top, col, top) == -1
  {
  }

  lemma {:induction false} PivotNext(M: Matrix, top: nat, col: nat, row: nat)
    requires top <= row < |M| && col < |M| && IsSquare(M, |M|)
    ensures var p := PivotRow(M, top, col, row);
      PivotRow(M, top, col, row + 1)
        == if Norm2(M[row][col]) > (if p < 0 then 0.0 else Norm2(M[p][col])) then row else p
  {
    hide Norm2;
  }

  lemma {:induction false} PivotLargest(M: Matrix, top: nat, col: nat, hi: nat)
    requires hi <= |M| && col < |M| && IsSquare(M, |M|)
    ensures var p := PivotRow(M, top, col, hi);
      && (p < 0 ==> forall r :: top <= r < hi ==> M[r][col] == ZERO)
      && (p >= 0 ==> M[p][col] != ZERO && forall r :: top <= r < hi ==> Norm2(M[r][col]) <= Norm2(M[p][col]))
  {
    hide Norm2;
    if hi > top {
      var q, p := PivotRow(M, top, col, hi - 1), PivotRow(M, top, col, hi);
      PivotLargest(M, top, col, hi - 1);
      Norm2Zero(M[hi - 1][col]);
      Norm2Zero(ZERO);
      if p >= 0 && q >= 0 {
        Norm2Zero(M[q][col]);
        assert Norm2(M[q][col]) <= Norm2(M[p][col]);
      }
    }
  }

  ghost function Swapped(M: Matrix, i: nat, j: nat): Matrix
    requires i < |M| && j < |M|
  {
    M[i := M[j]][j := M[i]]
  }

  /** Row `row` minus f times row `top`, from column `col` on. */
  ghost function PartialMinus(a: Vector, f: Complex, p: Vector, col: nat): (r: Vector)
    requires |a| == |p|
    ensures |r| == |a| && forall c: nat :: c < |a| ==> r[c] == if c < col then a[c] else Sub(a[c], Mul(f, p[c]))
  {
    seq(|a|, (c: nat) requires c < |a| => if c < col then a[c] else Sub(a[c], Mul(f, p[c])))
  }

  /** The elimination of the column below row `top`. */
  ghost function Eliminated(M: Matrix, top: nat, col: nat): (N: Matrix)
    requires IsSquare(M, |M|) && top < |M| && col < |M| && M[top][col] != ZERO
    ensures IsSquare(N, |M|)
    ensures forall r: nat :: r <= top && r < |M| ==> N[r] == M[r]
    ensures forall r: nat :: top < r < |M| ==> N[r] == PartialMinus(M[r], Div(M[r][col], M[top][col]), M[top], col)
  {
    seq(|M|, (r: nat) requires r < |M| =>
      if r <= top then M[r] else PartialMinus(M[r], Div(M[r][col], M[top][col]), M[top], col))
  }

  /** The rank the loop counts from this row and column on. */
  ghost function CountedRank(M: Matrix, tol: real, rank: nat, col: nat): (k: nat)
    requires IsSquare(M, |M|) && rank <= col <= |M|
    ensures rank <= k <= rank + (|M| - col)
    decreases |M| - col
  {
    if col == |M| then rank
    else
      var p := PivotRow(M, rank, col, |M|);
      if p < 0 || BelowTolerance(Norm2(M[p][col]), tol) then CountedRank(M, tol, rank, col + 1)
      else
        PivotLargest(M, rank, col, |M|);
        var S := Swapped(M, rank, p);
        assert IsSquare(S, |M|) && S[rank][col] == M[p][col];
        CountedRank(Eliminated(S, rank, col), tol, rank + 1, col + 1)
  }

  // ---------------------------------------------------------------- what it counts

  lemma {:induction false} SwapRelations(M: Matrix, i: nat, j: nat, S: set<nat>)
    requires IsSquare(M, |M|) && i < |M| && j < |M|
    ensures SameRelations(M, Swapped(M, i, j), S)
  {
    hide Dot;
    forall x: Vector | |x| == |M|
      ensures InKernel(M, x) <==> InKernel(Swapped(M, i, j), x)
    {
      var z := ZeroVector(|M|);
      SwapSolves(M, z, x, i, j);
      assert z[i := z[j]][j := z[i]] == z;
    }
  }

  lemma {:induction false} MinusDot(a: Vector, f: Complex, p: Vector, col: nat, x: Vector, S: set<nat>)
    requires |a| == |p| == |x| && SupportedOn(x, S)
    requires forall c: nat :: c in S && c < col && c < |a| ==> p[c] == ZERO
    ensures Dot(PartialMinus(a, f, p, col), x) == Sub(Dot(a, x), Mul(f, Dot(p, x)))
  {
    hide Mul;
    var b, c := PartialMinus(a, f, p, col), RowMinus(a, f, p);
    MulUnits(f);
    forall j: nat | j < |a|
      ensures Products(b, x)(j) == Products(c, x)(j)
    {
      MulUnits(b[j]);
      MulUnits(c[j]);
      if j < col && j in S {
        assert Sub(a[j], ZERO) == a[j];
      }
    }
    SumCongruence(|a|, Products(b, x), Products(c, x));
    DotRowMinus(a, f, p, x);
  }

  /** Where row `top` is zero in the earlier columns of S, eliminating keeps the relations. */
  lemma {:induction false} EliminatedRelations(M: Matrix, top: nat, col: nat, S: set<nat>)
    requires IsSquare(M, |M|) && top < |M| && col < |M| && M[top][col] != ZERO
    requires forall c: nat :: c in S && c < col ==> M[top][c] == ZERO
    ensures SameRelations(M, Eliminated(M, top, col), S)
  {
    hide Mul, Inv, Dot, PartialMinus;
    var N, z := Eliminated(M, top, col), ZeroVector(|M|);
    forall x: Vector | |x| == |M| && SupportedOn(x, S)
      ensures InKernel(M, x) <==> InKernel(N, x)
    {
      forall r: nat | top < r < |M|
        ensures Dot(M[top], x) == ZERO ==> Dot(N[r], x) == Dot(M[r], x)
      {
        var f := Div(M[r][col], M[top][col]);
        MinusDot(M[r], f, M[top], col, x, S);
        MulUnits(f);
      }
      if InKernel(M, x) || InKernel(N, x) {
        assert SolvesRow(if InKernel(M, x) then M else N, z, x, top);
        assert Dot(M[top], x) == ZERO;
        forall r: nat | r < |M|
          ensures SolvesRow(M, z, x, r) <==> SolvesRow(N, z, x, r)
        {
        }
      }
    }
  }

  // ---------------------------------------------------------------- pivot columns are independent

  /** Row i has its pivot in column P[i], below which the column is zero. */
  ghost predicate Pivots(M: Matrix, P: seq<nat>, col: nat) {
    && IsSquare(M, |M|) && |P| <= |M| && col <= |M|
    && (forall i :: 0 <= i < |P| ==> P[i] < col)
    && (forall i, j :: 0 <= i < j < |P| ==> P[i] < P[j])
    && (forall i :: 0 <= i < |P| ==> M[i][P[i]] != ZERO)
    && forall i, r :: 0 <= i < |P| && i < r < |M| ==> M[r][P[i]] == ZERO
  }

  ghost function Listed(P: seq<nat>): set<nat> {
    set p | p in P
  }

  lemma {:induction false} ListedSize(P: seq<nat>)
    requires forall i, j :: 0 <= i < j < |P| ==> P[i] < P[j]
    ensures |Listed(P)| == |P|
  {
    if P != [] {
      var init, last := P[..|P| - 1], P[|P| - 1];
      ListedSize(init);
      assert P == init + [last];
      assert Listed(P) == Listed(init) + {last};
      assert last !in init;
    }
  }

  lemma {:induction false} PivotTail(M: Matrix, P: seq<nat>, col: nat, x: Vector, i: nat)
    requires Pivots(M, P, col) && |x| == |M| && SupportedOn(x, Listed(P)) && InKernel(M, x) && i <= |P|
    ensures forall j :: i <= j < |P| ==> x[P[j]] == ZERO
    decreases |P| - i
  {
    hide Mul, Dot;
    if i < |P| {
      PivotTail(M, P, col, x, i + 1);
      var k := P[i];
      forall c | 0 <= c < |x| && c != k
        ensures M[i][c] == ZERO || x[c] == ZERO
      {
        if c in P {
          var j :| 0 <= j < |P| && P[j] == c;
        }
      }
      DotSingle(M[i], x, k);
      assert SolvesRow(M, ZeroVector(|M|), x, i);
      NoZeroDivisors(M[i][k], x[k]);
    }
  }

  lemma {:induction false} PivotsIndependent(M: Matrix, P: seq<nat>, col: nat)
    requires Pivots(M, P, col)
    ensures Independent(M, Listed(P))
  {
    hide InKernel, Pivots;
    forall x: Vector | |x| == |M| && SupportedOn(x, Listed(P)) && InKernel(M, x)
      ensures !NonZero(x)
    {
      PivotTail(M, P, col, x, 0);
      forall j | 0 <= j < |x|
        ensures x[j] == ZERO
      {
        if j in P {
          var i :| 0 <= i < |P| && P[i] == j;
        }
      }
    }
  }

  lemma {:induction false} SwapPivots(M: Matrix, P: seq<nat>, col: nat, p: nat)
    requires Pivots(M, P, col) && |P| <= p < |M|
    ensures Pivots(Swapped(M, |P|, p), P, col)
  {
  }

  lemma {:induction false} EliminatedPivots(M: Matrix, P: seq<nat>, col: nat)
    requires Pivots(M, P, col) && |P| <= col < |M| && M[|P|][col] != ZERO
    ensures Pivots(Eliminated(M, |P|, col), P + [col], col + 1)
  {
    hide Mul, Inv;
    var N, k := Eliminated(M, |P|, col), |P|;
    forall r: nat | k < r < |M|
      ensures N[r][col] == ZERO
    {
      DivMul(M[r][col], M[k][col]);
      assert N[r][col] == Sub(M[r][col], Mul(Div(M[r][col], M[k][col]), M[k][col]));
    }
  }

  lemma {:induction false} CountStep(M: Matrix, tol: real, rank: nat, col: nat)
    requires IsSquare(M, |M|) && rank <= col < |M|
    ensures var p := PivotRow(M, rank, col, |M|);
      if p < 0 || BelowTolerance(Norm2(M[p][col]), tol) then
        CountedRank(M, tol, rank, col) == CountedRank(M, tol, rank, col + 1)
      else
        var S := Swapped(M, rank, p);
        IsSquare(S, |M|) && S[rank][col] == M[p][col] != ZERO &&
        CountedRank(M, tol, rank, col) == CountedRank(Eliminated(S, rank, col), tol, rank + 1, col + 1)
  {
    hide PivotRow, BelowTolerance, Norm2;
    PivotLargest(M, rank, col, |M|);
  }

  lemma {:induction false} CountEnds(M: Matrix, tol: real, rank: nat)
    requires IsSquare(M, |M|) && rank <= |M|
    ensures CountedRank(M, tol, rank, |M|) == rank
  {
  }

  /** Undoing one column of the elimination keeps independence of pivots and later columns. */
  lemma {:induction false} IndependentBefore(M: Matrix, P: seq<nat>, col: nat, p: nat, S: set<nat>)
    requires Pivots(M, P, col) && |P| <= col < |M| && |P| <= p < |M| && M[p][col] != ZERO
    requires forall c :: c in S ==> c in P || col <= c
    ensures var A := Swapped(M, |P|, p);
      Pivots(A, P, col) && A[|P|][col] != ZERO && (Independent(Eliminated(A, |P|, col), S) ==> Independent(M, S))
  {
    hide Independent, SameRelations, Eliminated;
    var A := Swapped(M, |P|, p);
    SwapPivots(M, P, col, p);
    SwapRelations(M, |P|, p, S);
    EliminatedRelations(A, |P|, col, S);
    IndependentTransfers(M, A, S, S);
    IndependentTransfers(A, Eliminated(A, |P|, col), S, S);
  }

  /** Whatever the tolerance, as many columns as are counted are independent. */
  lemma {:induction false} CountedIndependent(M: Matrix, tol: real, P: seq<nat>, col: nat) returns (S: set<nat>)
    requires Pivots(M, P, col) && |P| <= col <= |M|
    ensures IsColumns(M, S) && |S| == CountedRank(M, tol, |P|, col) && Independent(M, S)
    ensures forall c :: c in S ==> c in P || col <= c
    decreases |M| - col
  {
    hide PivotRow, BelowTolerance, Norm2, Independent, SameRelations, Eliminated, CountedRank;
    if col == |M| {
      S := Listed(P);
      CountEnds(M, tol, |P|);
      ListedSize(P);
      PivotsIndependent(M, P, col);
    } else {
      CountStep(M, tol, |P|, col);
      var p := PivotRow(M, |P|, col, |M|);
      if p < 0 || BelowTolerance(Norm2(M[p][col]), tol) {
        S := CountedIndependent(M, tol, P, col + 1);
      } else {
        var A := Swapped(M, |P|, p);
        SwapPivots(M, P, col, p);
        EliminatedPivots(A, P, col);
        S := CountedIndependent(Eliminated(A, |P|, col), tol, P + [col], col + 1);
        IndependentBefore(M, P, col, p, S);
      }
    }
  }

  // ---------------------------------------------------------------- and no others at tolerance zero

  /** Rows from `rank` on have nothing before column `col`. */
  ghost predicate ClearBelow(M: Matrix, rank: nat, col: nat) {
    && IsSquare(M, |M|) && rank <= col <= |M|
    && forall r, c :: rank <= r < |M| && 0 <= c < col ==> M[r][c] == ZERO
  }

  ghost function AllColumns(m: nat): (S: set<nat>)
    ensures forall j: nat :: j in S <==> j < m
  {
    if m == 0 then {}
    else
      var rest := AllColumns(m - 1);
      assert forall j: nat :: j in rest + {m - 1} <==> j in rest || j == m - 1;
      rest + {m - 1}
  }

  lemma {:induction false} AllColumnsSize(m: nat)
    ensures |AllColumns(m)| == m
  {
    if m > 0 {
      AllColumnsSize(m - 1);
    }
  }

  lemma {:induction false} RankAtMostTransfers(A: Matrix, B: Matrix, k: nat)
    requires SameRelations(A, B, AllColumns(|A|)) && RankAtMost(B, k)
    ensures RankAtMost(A, k)
  {
    hide Independent, SameRelations;
    assert |A| == |B| by { SameSizes(A, B); }
    forall S: set<nat> | IsColumns(A, S) && |S| > k
      ensures !Independent(A, S)
    {
      assert IsColumns(B, S);
      IndependentTransfers(A, B, AllColumns(|A|), S);
    }
  }

  lemma {:induction false} SameSizes(A: Matrix, B: Matrix)
    requires SameRelations(A, B, AllColumns(|A|))
    ensures |A| == |B|
  {
  }

  lemma {:induction false} ZeroRowsBound(M: Matrix, rank: nat)
    requires ClearBelow(M, rank, |M|)
    ensures RankAtMost(M, rank)
  {
    hide Dot, SupportedOn;
    forall S: set<nat> | IsColumns(M, S) && |S| > rank
      ensures !Independent(M, S)
    {
      var x := FewerRows(M[..rank], |M|, S);
      forall r: nat | r < |M|
        ensures SolvesRow(M, ZeroVector(|M|), x, r)
      {
        if r < rank {
          assert Dot(M[..rank][r], x) == ZERO;
        } else {
          ZeroRow(M[r], x);
        }
      }
      assert InKernel(M, x);
    }
  }

  lemma {:induction false} ZeroRow(row: Vector, x: Vector)
    requires |row| == |x| && forall j :: 0 <= j < |row| ==> row[j] == ZERO
    ensures Dot(row, x) == ZERO
  {
    hide Mul;
    forall j: nat | j < |row|
      ensures Products(row, x)(j) == ZERO
    {
      MulUnits(x[j]);
    }
    SumZero(|row|, Products(row, x));
  }

  lemma {:induction false} EliminatedClear(M: Matrix, rank: nat, col: nat, p: nat)
    requires ClearBelow(M, rank, col) && rank <= p < |M| && col < |M| && M[p][col] != ZERO
    ensures var A := Swapped(M, rank, p);
      IsSquare(A, |M|) && A[rank][col] == M[p][col] && ClearBelow(Eliminated(A, rank, col), rank + 1, col + 1)
  {
    hide Mul, Inv;
    var A := Swapped(M, rank, p);
    assert IsSquare(A, |M|);
    var N := Eliminated(A, rank, col);
    forall r: nat | rank < r < |M|
      ensures N[r][col] == ZERO
    {
      DivMul(A[r][col], A[rank][col]);
      assert N[r][col] == Sub(A[r][col], Mul(Div(A[r][col], A[rank][col]), A[rank][col]));
    }
  }

  /** At tolerance zero no more columns than are counted are independent. */
  lemma {:induction false} CountedIsMost(M: Matrix, tol: real, rank: nat, col: nat)
    requires tol <= 0.0 && ClearBelow(M, rank, col)
    ensures RankAtMost(M, CountedRank(M, tol, rank, col))
    decreases |M| - col
  {
    hide PivotRow, Norm2, RankAtMost, SameRelations, Eliminated, CountedRank;
    if col == |M| {
      CountEnds(M, tol, rank);
      ZeroRowsBound(M, rank);
    } else {
      CountStep(M, tol, rank, col);
      PivotLargest(M, rank, col, |M|);
      var p := PivotRow(M, rank, col, |M|);
      if p < 0 {
        CountedIsMost(M, tol, rank, col + 1);
      } else {
        var A := Swapped(M, rank, p);
        EliminatedClear(M, rank, col, p);
        CountedIsMost(Eliminated(A, rank, col), tol, rank + 1, col + 1);
        SwapRelations(M, rank, p, AllColumns(|M|));
        EliminatedRelations(A, rank, col, AllColumns(|A|));
        RankAtMostTransfers(A, Eliminated(A, rank, col), CountedRank(M, tol, rank, col));
        RankAtMostTransfers(M, A, CountedRank(M, tol, rank, col));
      }
    }
  }

  // ---------------------------------------------------------------- the rank

  /** What `gaussian_rank_inplace` counts. */
  ghost function RankOf(M: Matrix, tol: real): (k: nat)
    requires IsSquare(M, |M|)
    ensures k <= |M|
  {
    CountedRank(M, tol, 0, 0)
  }

  /** At every tolerance the number counted is a lower bound of the rank, and at tolerance
      zero it is the rank. */
  lemma {:induction false} CountsRank(M: Matrix, tol: real)
    requires IsSquare(M, |M|)
    ensures RankAtLeast(M, RankOf(M, tol))
    ensures tol <= 0.0 ==> RankAtMost(M, RankOf(M, tol))
  {
    hide CountedRank, Independent, RankAtMost;
    var S := CountedIndependent(M, tol, [], 0);
    if tol <= 0.0 {
      CountedIsMost(M, tol, 0, 0);
    }
  }

  lemma {:induction false} EmptySet(S: set<nat>)
    requires forall j :: j !in S
    ensures S == {} && |S| == 0
  {
  }

  lemma {:induction false} SameWith(S: set<nat>, T: set<nat>, n: nat)
    requires n in S && T == S - {n}
    ensures |S| == |T| + 1 && (T == AllColumns(n) ==> S == AllColumns(n + 1))
  {
    assert S == T + {n};
    assert AllColumns(n + 1) == AllColumns(n) + {n};
  }

  lemma {:induction false} FullSet(S: set<nat>, m: nat)
    requires forall j :: j in S ==> j < m
    ensures |S| <= m && (|S| == m ==> S == AllColumns(m))
    decreases m
  {
    if m == 0 {
      EmptySet(S);
    } else {
      var n: nat := m - 1;
      if n in S {
        FullSet(S - {n}, n);
        SameWith(S, S - {n}, n);
      } else {
        FullSet(S, n);
      }
    }
  }

  /** Full rank is nonsingularity. */
  lemma {:induction false} FullRank(M: Matrix, k: nat)
    ensures RankAtLeast(M, |M|) ==> !Singular(M)
    ensures k < |M| && RankAtMost(M, k) ==> Singular(M)
  {
    hide InKernel, NonZero;
    var all := AllColumns(|M|);
    AllColumnsSize(|M|);
    forall x: Vector | |x| == |M|
      ensures SupportedOn(x, all)
    {
    }
    if RankAtLeast(M, |M|) {
      var S: set<nat> :| IsColumns(M, S) && |S| == |M| && Independent(M, S);
      FullSet(S, |M|);
      assert Independent(M, all);
    }
    if k < |M| && RankAtMost(M, k) {
      assert IsColumns(M, all) && !Independent(M, all);
    }
  }
}
