/** Coefficients over the multi-indices of degree at most `order`, stored in the dense
    (order+1)^Q array of the source. */
module JetLattice {
  import opened ComplexField
  import opened MultiIndex

  datatype Jet = Jet(Q: nat, order: nat, coeff: seq<Complex>)

  /** The coefficient at a; indices outside the simplex have none. */
  ghost function Coef(A: seq<Complex>, Q: nat, order: nat, a: Index): Complex
    requires |A| == DenseSize(Q, order)
  {
    if InSimplex(a, Q, order) then FlatInDense(Q, order, a); A[Flat(Q, order, a)] else ZERO
  }

  /** The array has the dense size and is zero at every position outside the simplex. */
  ghost predicate Supported(A: seq<Complex>, Q: nat, order: nat) {
    && |A| == DenseSize(Q, order)
    && forall k: nat :: k < |A| && !InSimplex(Unrank(Uniform(Q, order + 1), k), Q, order) ==> A[k] == ZERO
  }

  ghost predicate Dense(J: Jet) {
    |J.coeff| == DenseSize(J.Q, J.order)
  }

  ghost predicate SupportedJet(J: Jet) {
    Supported(J.coeff, J.Q, J.order)
  }

  ghost function At(J: Jet, a: Index): Complex
    requires Dense(J)
  {
    Coef(J.coeff, J.Q, J.order, a)
  }

  /** The part of a jet's array that the dense layout reaches: all of it, if J is dense. */
  ghost function FullPart(J: Jet): (K: Jet)
    requires |J.coeff| >= DenseSize(J.Q, J.order)
    ensures Dense(K) && (Dense(J) ==> K == J)
  {
    var K := Jet(J.Q, J.order, J.coeff[..DenseSize(J.Q, J.order)]);
    assert Dense(J) ==> K.coeff == J.coeff;
    K
  }

  lemma {:induction false} FlatInDense(Q: nat, order: nat, a: Index)
    requires InSimplex(a, Q, order)
    ensures Flat(Q, order, a) < DenseSize(Q, order)
    ensures Unrank(Uniform(Q, order + 1), Flat(Q, order, a)) == a
  {
    SimplexInBox(Q, order, a);
    UnrankRank(Uniform(Q, order + 1), a);
  }

  /** Writing one coefficient changes that coefficient only. */
  lemma {:induction false} CoefUpdate(A: seq<Complex>, Q: nat, order: nat, a: Index, v: Complex)
    requires |A| == DenseSize(Q, order) && InSimplex(a, Q, order)
    ensures Flat(Q, order, a) < |A|
    ensures var B := A[Flat(Q, order, a) := v];
      (forall b: Index {:trigger Coef(B, Q, order, b)} ::
        Coef(B, Q, order, b) == if b == a then v else Coef(A, Q, order, b)) &&
      (Supported(A, Q, order) ==> Supported(B, Q, order))
  {
    FlatInDense(Q, order, a);
    var B := A[Flat(Q, order, a) := v];
    forall b: Index
      ensures Coef(B, Q, order, b) == if b == a then v else Coef(A, Q, order, b)
    {
      if InSimplex(b, Q, order) {
        FlatInDense(Q, order, b);
      }
    }
  }

  lemma {:induction false} CoefZeros(Q: nat, order: nat, A: seq<Complex>)
    requires |A| == DenseSize(Q, order) && forall k :: 0 <= k < |A| ==> A[k] == ZERO
    ensures Supported(A, Q, order)
    ensures forall b: Index {:trigger Coef(A, Q, order, b)} :: Coef(A, Q, order, b) == ZERO
  {
    forall b: Index
      ensures Coef(A, Q, order, b) == ZERO
    {
      if InSimplex(b, Q, order) {
        FlatInDense(Q, order, b);
      }
    }
  }

  /** Supported arrays with the same coefficients are the same array. */
  lemma {:induction false} SupportedExtensional(A: seq<Complex>, B: seq<Complex>, Q: nat, order: nat)
    requires Supported(A, Q, order) && Supported(B, Q, order)
    requires forall a :: InSimplex(a, Q, order) ==> Coef(A, Q, order, a) == Coef(B, Q, order, a)
    ensures A == B
  {
    forall k: nat | k < |A|
      ensures A[k] == B[k]
    {
      var a := Unrank(Uniform(Q, order + 1), k);
      RankUnrank(Uniform(Q, order + 1), k);
      if InSimplex(a, Q, order) {
        assert Coef(A, Q, order, a) == A[k];
        assert Coef(B, Q, order, a) == B[k];
      }
    }
  }

  lemma {:induction false} SupportedSizes(S: Jet, T: Jet)
    requires SupportedJet(S) && SupportedJet(T)
    ensures Dense(S) && Dense(T)
  {
  }

  /** Supported jets with equal coefficients are equal. */
  lemma {:induction false} SameJet(S: Jet, T: Jet)
    requires S.Q == T.Q && S.order == T.order && SupportedJet(S) && SupportedJet(T) && Dense(S) && Dense(T)
    requires forall a :: InSimplex(a, S.Q, S.order) ==> At(S, a) == At(T, a)
    ensures S == T
  {
    hide Supported, Coef;
    SupportedSizes(S, T);
    forall a | InSimplex(a, S.Q, S.order)
      ensures Coef(S.coeff, S.Q, S.order, a) == Coef(T.coeff, S.Q, S.order, a)
    {
      assert At(S, a) == At(T, a);
    }
    SupportedExtensional(S.coeff, T.coeff, S.Q, S.order);
  }

  // ---------------------------------------------------------------- sums over the simplex

  /** The sum of f over a list of indices. */
  ghost function SumList(s: seq<Index>, f: Index -> Complex): Complex {
    if s == [] then ZERO else Add(SumList(s[..|s| - 1], f), f(s[|s| - 1]))
  }

  lemma {:induction false} SumListCongruence(s: seq<Index>, f: Index -> Complex, g: Index -> Complex)
    requires forall a :: a in s ==> f(a) == g(a)
    ensures SumList(s, f) == SumList(s, g)
  {
    if s != [] {
      SumListCongruence(s[..|s| - 1], f, g);
    }
  }

  lemma {:induction false} SumListConcat(s: seq<Index>, t: seq<Index>, f: Index -> Complex)
    ensures SumList(s + t, f) == Add(SumList(s, f), SumList(t, f))
  {
    if t == [] {
      assert s + t == s;
    } else {
      assert (s + t)[..|s + t| - 1] == s + t[..|t| - 1];
      SumListConcat(s, t[..|t| - 1], f);
    }
  }

  lemma {:induction false} SumListScale(s: seq<Index>, c: Complex, f: Index -> Complex, g: Index -> Complex)
    requires forall a :: a in s ==> g(a) == Mul(c, f(a))
    ensures SumList(s, g) == Mul(c, SumList(s, f))
  {
    hide Mul;
    MulUnits(c);
    if s != [] {
      SumListScale(s[..|s| - 1], c, f, g);
      MulAdd(c, SumList(s[..|s| - 1], f), f(s[|s| - 1]));
    }
  }

  lemma {:induction false} SumListAdd(s: seq<Index>, f: Index -> Complex, g: Index -> Complex, h: Index -> Complex)
    requires forall a :: a in s ==> h(a) == Add(f(a), g(a))
    ensures SumList(s, h) == Add(SumList(s, f), SumList(s, g))
  {
    if s != [] {
      SumListAdd(s[..|s| - 1], f, g, h);
    }
  }

  lemma {:induction false} SumListZero(s: seq<Index>, f: Index -> Complex)
    requires forall a :: a in s ==> f(a) == ZERO
    ensures SumList(s, f) == ZERO
  {
    if s != [] {
      SumListZero(s[..|s| - 1], f);
    }
  }

  /** Exchanging two sums over lists. */
  ghost function ListRow(f: (Index, Index) -> Complex, a: Index): Index -> Complex {
    (b: Index) => f(a, b)
  }

  ghost function ListColumn(f: (Index, Index) -> Complex, b: Index): Index -> Complex {
    (a: Index) => f(a, b)
  }

  ghost function ListRowSums(t: seq<Index>, f: (Index, Index) -> Complex): Index -> Complex {
    (a: Index) => SumList(t, ListRow(f, a))
  }

  ghost function ListColumnSums(s: seq<Index>, f: (Index, Index) -> Complex): Index -> Complex {
    (b: Index) => SumList(s, ListColumn(f, b))
  }

  lemma {:induction false} SumListSwap(s: seq<Index>, t: seq<Index>, f: (Index, Index) -> Complex)
    ensures SumList(s, ListRowSums(t, f)) == SumList(t, ListColumnSums(s, f))
  {
    if s == [] {
      SumListZero(t, ListColumnSums(s, f));
    } else {
      var s', a := s[..|s| - 1], s[|s| - 1];
      SumListSwap(s', t, f);
      SumListAdd(t, ListColumnSums(s', f), ListRow(f, a), ListColumnSums(s, f));
    }
  }

  /** f at the indices that continue the prefix p. */
  ghost function Behind(f: Index -> Complex, p: Index): Index -> Complex {
    (a: Index) => f(p + a)
  }

  lemma {:induction false} SumPrefixed(p: Index, s: seq<Index>, f: Index -> Complex)
    ensures SumList(Prefixed(p, s), f) == SumList(s, Behind(f, p))
  {
    if s != [] {
      SumPrefixed(p, s[..|s| - 1], f);
      assert Prefixed(p, s)[..|s| - 1] == Prefixed(p, s[..|s| - 1]);
    }
  }

  /** The sum over the simplex, one value of the first axis at a time. */
  ghost function SliceSums(q: nat, r: nat, f: Index -> Complex): nat -> Complex
    requires q > 0
  {
    (v: nat) => if v <= r then SumList(Simplex(q - 1, r - v), Behind(f, [v])) else ZERO
  }

  lemma {:induction false} SumSimplex(q: nat, r: nat, f: Index -> Complex)
    requires q > 0
    ensures SumList(Simplex(q, r), f) == Sum(r + 1, SliceSums(q, r, f))
  {
    hide SumList, Sum, Branches;
    SumZero(0, SliceSums(q, r, f));
    SumBranches(q, r, 0, f);
  }

  lemma {:induction false} SumBranches(q: nat, r: nat, v: nat, f: Index -> Complex)
    requires q > 0 && v <= r + 1
    ensures Add(Sum(v, SliceSums(q, r, f)), SumList(Branches(q, r, v), f)) == Sum(r + 1, SliceSums(q, r, f))
    decreases r + 1 - v
  {
    hide SumList, Simplex, Branches, Sum, Prefixed;
    if v == r + 1 {
      NoBranches(q, r, f);
    } else {
      BranchStep(q, r, v);
      SumStep(v, SliceSums(q, r, f));
      SumBranches(q, r, v + 1, f);
      var head := Prefixed([v], Simplex(q - 1, r - v));
      SumListConcat(head, Branches(q, r, v + 1), f);
      SumPrefixed([v], Simplex(q - 1, r - v), f);
    }
  }

  lemma {:induction false} NoBranches(q: nat, r: nat, f: Index -> Complex)
    requires q > 0
    ensures SumList(Branches(q, r, r + 1), f) == ZERO
  {
  }
}
