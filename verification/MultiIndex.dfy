/** Multi-indices: their enumeration by total degree, their dense row-major layout and
    the odometers that run through a box of them. */
module MultiIndex {
  import opened Combinatorics

  type Index = seq<nat>

  function Degree(a: Index): nat {
    if a == [] then 0 else a[0] + Degree(a[1..])
  }

  /** The strict lexicographic order on indices of one length. */
  ghost predicate LexLess(a: Index, b: Index) {
    |a| == |b| > 0 && (a[0] < b[0] || (a[0] == b[0] && LexLess(a[1..], b[1..])))
  }

  ghost predicate LexIncreasing(s: seq<Index>) {
    forall i, j :: 0 <= i < j < |s| ==> LexLess(s[i], s[j])
  }

  // ---------------------------------------------------------------- enumeration

  /** Every index of s with p in front. */
  function Prefixed(p: Index, s: seq<Index>): (t: seq<Index>)
    ensures |t| == |s|
    ensures forall i :: 0 <= i < |s| ==> t[i] == p + s[i]
  {
    seq(|s|, i requires 0 <= i < |s| => p + s[i])
  }

  /** The indices with q axes and total degree at most r, as the recursion lists them. */
  ghost function Simplex(q: nat, r: nat): seq<Index>
    decreases q, r + 2
  {
    if q == 0 then [[]] else Branches(q, r, 0)
  }

  /** The part of Simplex(q, r) whose first entry is at least v. */
  ghost function Branches(q: nat, r: nat, v: nat): seq<Index>
    requires q > 0 && v <= r + 1
    decreases q, r + 1 - v
  {
    if v == r + 1 then [] else Prefixed([v], Simplex(q - 1, r - v)) + Branches(q, r, v + 1)
  }

  lemma {:induction false} BranchStep(q: nat, r: nat, v: nat)
    requires q > 0 && v <= r
    ensures Branches(q, r, v) == Prefixed([v], Simplex(q - 1, r - v)) + Branches(q, r, v + 1)
  {
  }

  ghost predicate InSimplex(a: Index, q: nat, r: nat) {
    |a| == q && Degree(a) <= r
  }

  /** `enumerate_recursive`: `cur` grows and shrinks while `out` collects. */
  class Enumeration {
    var cur: Index
    var out: seq<Index>

    constructor ()
      ensures cur == [] && out == []
    {
      cur, out := [], [];
    }

    method Recurse(Q: nat, remaining: nat)
      requires |cur| <= Q
      modifies this
      ensures cur == old(cur)
      ensures out == old(out) + Prefixed(old(cur), Simplex(Q - |old(cur)|, remaining))
      decreases Q - |cur|
    {
      hide Branches, Prefixed;
      if |cur| == Q {
        PrefixedSingle(cur);
        out := out + [cur];
        return;
      }
      ghost var cur0, out0, q := cur, out, Q - |cur|;
      var v := 0;
      while v <= remaining
        invariant v <= remaining + 1
        invariant cur == cur0
        invariant out0 + Prefixed(cur0, Branches(q, remaining, 0)) == out + Prefixed(cur0, Branches(q, remaining, v))
      {
        PrefixedBranches(cur0, q, remaining, v);
        cur := cur + [v];
        Recurse(Q, remaining - v);
        cur := cur[..|cur| - 1];
        v := v + 1;
      }
      PrefixedNone(cur0, q, remaining);
    }
  }

  lemma {:induction false} PrefixedSingle(p: Index)
    ensures Prefixed(p, Simplex(0, 0)) == [p]
    ensures forall r: nat :: Simplex(0, r) == Simplex(0, 0)
  {
    assert p + [] == p;
  }

  lemma {:induction false} PrefixedNone(p: Index, q: nat, r: nat)
    requires q > 0
    ensures Prefixed(p, Branches(q, r, r + 1)) == []
  {
  }

  lemma {:induction false} PrefixedBranches(p: Index, q: nat, r: nat, v: nat)
    requires q > 0 && v <= r
    ensures Prefixed(p, Branches(q, r, v))
         == Prefixed(p + [v], Simplex(q - 1, r - v)) + Prefixed(p, Branches(q, r, v + 1))
  {
    var s := Simplex(q - 1, r - v);
    forall i | 0 <= i < |s|
      ensures p + ([v] + s[i]) == (p + [v]) + s[i]
    {
    }
  }

  method EnumerateMultiIndices(Q: nat, order: nat) returns (out: seq<Index>)
    ensures out == Simplex(Q, order)
  {
    var e := new Enumeration();
    e.Recurse(Q, order);
    out := e.out;
    assert forall a: Index :: [] + a == a;
    assert Prefixed([], Simplex(Q, order)) == Simplex(Q, order);
  }

  /** The enumeration lists exactly the indices of degree at most r ... */
  lemma {:induction false} SimplexMembers(q: nat, r: nat, a: Index)
    ensures a in Simplex(q, r) <==> InSimplex(a, q, r)
    decreases q, r + 2
  {
    if q == 0 {
      assert Simplex(0, r) == [[]];
    } else {
      BranchMembers(q, r, 0, a);
    }
  }

  lemma {:induction false} BranchMembers(q: nat, r: nat, v: nat, a: Index)
    requires q > 0 && v <= r + 1
    ensures a in Branches(q, r, v) <==> InSimplex(a, q, r) && a[0] >= v
    decreases q, r + 1 - v
  {
    if v <= r {
      BranchMembers(q, r, v + 1, a);
      var s := Simplex(q - 1, r - v);
      var head := Prefixed([v], s);
      if a in head {
        var i :| 0 <= i < |head| && head[i] == a;
        assert a == [v] + s[i];
        SimplexMembers(q - 1, r - v, s[i]);
        assert a[1..] == s[i];
      }
      if InSimplex(a, q, r) && a[0] == v {
        SimplexMembers(q - 1, r - v, a[1..]);
        var i :| 0 <= i < |s| && s[i] == a[1..];
        assert head[i] == [v] + a[1..] == a;
      }
    } else if |a| > 0 {
      DegreeBounds(a, 0);
    }
  }

  /** ... strictly increasing, hence without repeats ... */
  lemma {:induction false} SimplexIncreasing(q: nat, r: nat)
    ensures LexIncreasing(Simplex(q, r))
    decreases q, r + 2
  {
    if q > 0 {
      BranchesIncreasing(q, r, 0);
    }
  }

  lemma {:induction false} BranchesIncreasing(q: nat, r: nat, v: nat)
    requires q > 0 && v <= r + 1
    ensures LexIncreasing(Branches(q, r, v))
    decreases q, r + 1 - v
  {
    if v <= r {
      var head, rest := Prefixed([v], Simplex(q - 1, r - v)), Branches(q, r, v + 1);
      SimplexIncreasing(q - 1, r - v);
      BranchesIncreasing(q, r, v + 1);
      var s := head + rest;
      forall i, j | 0 <= i < j < |s|
        ensures LexLess(s[i], s[j])
      {
        BranchMembers(q, r, v, s[i]);
        BranchMembers(q, r, v, s[j]);
        if j < |head| {
          assert s[i][1..] == Simplex(q - 1, r - v)[i];
          assert s[j][1..] == Simplex(q - 1, r - v)[j];
        } else if i < |head| {
          BranchMembers(q, r, v + 1, s[j]);
        } else {
          assert s[i] == rest[i - |head|] && s[j] == rest[j - |head|];
        }
      }
    }
  }

  /** ... and there are C(q+r, q) of them. */
  lemma {:induction false} SimplexSize(q: nat, r: nat)
    ensures |Simplex(q, r)| == Choose(q + r, q)
    decreases q, r + 2
  {
    if q > 0 {
      BranchesSize(q, r, 0);
    }
  }

  lemma {:induction false} BranchesSize(q: nat, r: nat, v: nat)
    requires q > 0 && v <= r + 1
    ensures |Branches(q, r, v)| == Choose(q + r - v, q)
    decreases q, r + 1 - v
  {
    if v == r + 1 {
      ChooseBeyond(q - 1, q);
    } else {
      SimplexSize(q - 1, r - v);
      BranchesSize(q, r, v + 1);
      assert (q - 1) + (r - v) == q + r - v - 1;
    }
  }

  lemma {:induction false} LexIrreflexive(a: Index)
    ensures !LexLess(a, a)
  {
    if a != [] {
      LexIrreflexive(a[1..]);
    }
  }

  lemma {:induction false} SimplexNoRepeats(q: nat, r: nat)
    ensures forall i, j :: 0 <= i < j < |Simplex(q, r)| ==> Simplex(q, r)[i] != Simplex(q, r)[j]
  {
    SimplexIncreasing(q, r);
    forall i, j | 0 <= i < j < |Simplex(q, r)|
      ensures Simplex(q, r)[i] != Simplex(q, r)[j]
    {
      LexIrreflexive(Simplex(q, r)[i]);
    }
  }

  /** Row n of Pascal's triangle from row n-1, in a table that starts as zeros. */
  method PascalRow(C: array2<nat>, n: nat)
    requires n < C.Length0 == C.Length1
    requires forall i, j :: 0 <= i < n && 0 <= j < C.Length1 ==> C[i, j] == Choose(i, j)
    requires forall i, j :: n <= i < C.Length0 && 0 <= j < C.Length1 ==> C[i, j] == 0
    modifies C
    ensures forall i, j :: 0 <= i < n && 0 <= j < C.Length1 ==> C[i, j] == old(C[i, j])
    ensures forall j :: 0 <= j < C.Length1 ==> C[n, j] == Choose(n, j)
    ensures forall i, j :: n < i < C.Length0 && 0 <= j < C.Length1 ==> C[i, j] == 0
  {
    C[n, 0] := 1;
    var k := 1;
    while k <= n
      invariant 1 <= k <= n + 1
      invariant forall j :: 0 <= j < k ==> C[n, j] == Choose(n, j)
      invariant forall j :: k <= j < C.Length1 ==> C[n, j] == 0
      invariant forall i, j :: 0 <= i < n && 0 <= j < C.Length1 ==> C[i, j] == old(C[i, j])
      invariant forall i, j :: n < i < C.Length0 && 0 <= j < C.Length1 ==> C[i, j] == 0
    {
      assert Choose(n, k) == Choose(n - 1, k - 1) + Choose(n - 1, k);
      C[n, k] := C[n - 1, k - 1] + C[n - 1, k];
      k := k + 1;
    }
    forall j | n < j < C.Length1
      ensures Choose(n, j) == 0
    {
      ChooseBeyond(n, j);
    }
  }

  /** `multi_index_count`: Pascal's triangle by rows, then the sum over degrees.
      With no axis the source indexes row -1 of the table, so its callers have Q >= 1. */
  method MultiIndexCount(Q: nat, order: nat) returns (total: nat)
    requires Q >= 1
    ensures total == Choose(Q + order, Q)
  {
    hide Choose;
    var size := Q + order + 1;
    var C := new nat[size, size]((i, j) => 0);
    var n := 0;
    while n <= Q + order
      invariant n <= size
      invariant forall i, j :: 0 <= i < n && 0 <= j < size ==> C[i, j] == Choose(i, j)
      invariant forall i, j :: n <= i < size && 0 <= j < size ==> C[i, j] == 0
    {
      PascalRow(C, n);
      n := n + 1;
    }
    total := 0;
    var d := 0;
    while d <= order
      invariant d <= order + 1
      invariant total == if d == 0 then 0 else Choose(Q + d - 1, Q)
      invariant forall i, j :: 0 <= i < size && 0 <= j < size ==> C[i, j] == Choose(i, j)
    {
      DegreeStep(Q, d);
      assert C[Q + d - 1, d] == Choose(Q + d - 1, d);
      total := total + C[Q + d - 1, d];
      d := d + 1;
    }
  }

  lemma {:induction false} DegreeStep(Q: nat, d: nat)
    requires Q >= 1
    ensures Choose(Q + d - 1, d) + (if d == 0 then 0 else Choose(Q + d - 1, Q)) == Choose(Q + d, Q)
  {
    ChooseSymmetric(Q - 1, d);
    if d == 0 {
      ChooseBeyond(Q - 1, Q);
    }
  }

  // ---------------------------------------------------------------- boxes of indices

  /** Index a lies in the box given by one radix per axis. */
  ghost predicate InBox(radix: Index, a: Index) {
    |a| == |radix| && forall q :: 0 <= q < |a| ==> a[q] < radix[q]
  }

  /** The number of indices of a box. */
  function Volume(radix: Index): nat {
    if radix == [] then 1 else radix[0] * Volume(radix[1..])
  }

  /** The position of an index when its box is run through with the last axis fastest. */
  function Rank(radix: Index, a: Index): nat
    requires |a| == |radix|
  {
    if radix == [] then 0 else a[0] * Volume(radix[1..]) + Rank(radix[1..], a[1..])
  }

  /** The index at a position of its box. */
  ghost function Unrank(radix: Index, k: nat): Index
    requires k < Volume(radix)
  {
    if radix == [] then []
    else
      DivisionBound(k, radix[0], Volume(radix[1..]));
      [k / Volume(radix[1..])] + Unrank(radix[1..], k % Volume(radix[1..]))
  }

  lemma {:induction false} DivisionBound(k: nat, r: nat, v: nat)
    requires k < r * v
    ensures v > 0 && 0 <= k / v < r && 0 <= k % v < v
    ensures k == (k / v) * v + k % v
  {
    if v == 0 {
      assert false;
    }
    if k / v >= r {
      ProductMonotone(r, k / v, v);
    }
  }

  lemma {:induction false} RankBound(radix: Index, a: Index)
    requires InBox(radix, a)
    ensures Rank(radix, a) < Volume(radix)
  {
    if radix != [] {
      RankBound(radix[1..], a[1..]);
      RowBound(a[0], radix[0], Volume(radix[1..]), Rank(radix[1..], a[1..]));
    }
  }

  lemma {:induction false} ProductMonotone(a: nat, b: nat, v: nat)
    requires a <= b
    ensures a * v <= b * v
  {
  }

  lemma {:induction false} QuotientUnique(a: nat, r: nat, b: nat, t: nat, v: nat)
    requires r < v && t < v && a * v + r == b * v + t
    ensures a == b && r == t
  {
    if a < b {
      ProductMonotone(a + 1, b, v);
    } else if b < a {
      ProductMonotone(b + 1, a, v);
    }
  }

  lemma {:induction false} DivisionUnique(x: nat, r: nat, v: nat)
    requires r < v
    ensures (x * v + r) / v == x && (x * v + r) % v == r
  {
    var k := x * v + r;
    assert k == (k / v) * v + k % v;
    QuotientUnique(x, r, k / v, k % v, v);
  }

  lemma {:induction false} RowBound(a: nat, r: nat, v: nat, rest: nat)
    requires a < r && rest < v
    ensures a * v + rest < r * v
  {
    ProductMonotone(a + 1, r, v);
  }

  /** Rank and Unrank are inverse to each other. */
  lemma {:induction false} UnrankRank(radix: Index, a: Index)
    requires InBox(radix, a)
    ensures Rank(radix, a) < Volume(radix)
    ensures Unrank(radix, Rank(radix, a)) == a
  {
    RankBound(radix, a);
    if radix != [] {
      RankBound(radix[1..], a[1..]);
      UnrankRank(radix[1..], a[1..]);
      DivisionUnique(a[0], Rank(radix[1..], a[1..]), Volume(radix[1..]));
      assert a == [a[0]] + a[1..];
    }
  }

  lemma {:induction false} RankUnrank(radix: Index, k: nat)
    requires k < Volume(radix)
    ensures InBox(radix, Unrank(radix, k))
    ensures Rank(radix, Unrank(radix, k)) == k
  {
    if radix != [] {
      var v := Volume(radix[1..]);
      DivisionBound(k, radix[0], v);
      RankUnrank(radix[1..], k % v);
      var a := Unrank(radix, k);
      assert a[1..] == Unrank(radix[1..], k % v);
    }
  }

  lemma {:induction false} RankInjective(radix: Index, a: Index, b: Index)
    requires InBox(radix, a) && InBox(radix, b)
    requires Rank(radix, a) == Rank(radix, b)
    ensures a == b
  {
    UnrankRank(radix, a);
    UnrankRank(radix, b);
  }

  // ---------------------------------------------------------------- odometers

  function Zeros(n: nat): (z: Index)
    ensures |z| == n && forall i :: 0 <= i < n ==> z[i] == 0
  {
    seq(n, i => 0)
  }

  /** b follows a: axis q steps up, the axes right of it roll over from their last value. */
  ghost predicate Steps(radix: Index, a: Index, b: Index, q: nat) {
    && q < |radix| == |a| == |b|
    && a[q] + 1 < radix[q]
    && (forall p :: q < p < |a| ==> a[p] + 1 == radix[p])
    && b == a[..q] + [a[q] + 1] + Zeros(|a| - q - 1)
  }

  /** Every axis is at its last value. */
  ghost predicate AtEnd(radix: Index, a: Index) {
    |a| == |radix| && forall p :: 0 <= p < |a| ==> a[p] + 1 == radix[p]
  }

  lemma {:induction false} RankAtEnd(radix: Index, a: Index)
    requires AtEnd(radix, a)
    ensures Rank(radix, a) + 1 == Volume(radix)
  {
    if radix != [] {
      RankAtEnd(radix[1..], a[1..]);
      assert radix[0] * Volume(radix[1..]) == a[0] * Volume(radix[1..]) + Volume(radix[1..]);
    }
  }

  lemma {:induction false} RankZeros(radix: Index)
    ensures Rank(radix, Zeros(|radix|)) == 0
  {
    if radix != [] {
      RankZeros(radix[1..]);
      assert Zeros(|radix|)[1..] == Zeros(|radix| - 1);
    }
  }

  /** An odometer step moves to the next position of the box. */
  lemma {:induction false} RankSteps(radix: Index, a: Index, b: Index, q: nat)
    requires Steps(radix, a, b, q)
    ensures Rank(radix, b) == Rank(radix, a) + 1
  {
    if q == 0 {
      RankAtEnd(radix[1..], a[1..]);
      RankZeros(radix[1..]);
      assert b[1..] == Zeros(|radix| - 1);
      assert b[0] * Volume(radix[1..]) == a[0] * Volume(radix[1..]) + Volume(radix[1..]);
    } else {
      assert b[1..] == a[1..][..q - 1] + [a[q] + 1] + Zeros(|a| - q - 1);
      RankSteps(radix[1..], a[1..], b[1..], q - 1);
    }
  }

  // ---------------------------------------------------------------- the dense layout

  function Uniform(Q: nat, r: nat): (radix: Index)
    ensures |radix| == Q && forall q :: 0 <= q < Q ==> radix[q] == r
  {
    seq(Q, i => r)
  }

  /** The position of a multi-index in the dense (order+1)^Q array. */
  function Flat(Q: nat, order: nat, a: Index): nat
    requires |a| == Q
  {
    Rank(Uniform(Q, order + 1), a)
  }

  function DenseSize(Q: nat, order: nat): nat {
    Volume(Uniform(Q, order + 1))
  }

  lemma {:induction false} DegreeBounds(a: Index, q: nat)
    requires q < |a|
    ensures a[q] <= Degree(a)
  {
    if q > 0 {
      DegreeBounds(a[1..], q - 1);
    }
  }

  lemma {:induction false} SimplexInBox(Q: nat, order: nat, a: Index)
    requires InSimplex(a, Q, order)
    ensures InBox(Uniform(Q, order + 1), a)
  {
    forall q | 0 <= q < |a|
      ensures a[q] < order + 1
    {
      DegreeBounds(a, q);
    }
  }

  /** Flattening is injective into [0, (order+1)^Q). */
  lemma {:induction false} FlatInjective(Q: nat, order: nat, a: Index, b: Index)
    requires InBox(Uniform(Q, order + 1), a) && InBox(Uniform(Q, order + 1), b)
    ensures Flat(Q, order, a) < DenseSize(Q, order)
    ensures Flat(Q, order, a) == Flat(Q, order, b) ==> a == b
  {
    RankBound(Uniform(Q, order + 1), a);
    if Flat(Q, order, a) == Flat(Q, order, b) {
      RankInjective(Uniform(Q, order + 1), a, b);
    }
  }

  lemma {:induction false} UniformTail(Q: nat, r: nat)
    requires Q > 0
    ensures Uniform(Q, r)[1..] == Uniform(Q - 1, r)
  {
  }

  datatype Layout = Layout(Q: nat, order: nat, strides: seq<nat>)

  ghost predicate LayoutOf(L: Layout) {
    |L.strides| == L.Q && forall i :: 0 <= i < L.Q ==> L.strides[i] == DenseSize(L.Q - 1 - i, L.order)
  }

  /** `make_multi_index_layout`: the last axis has stride 1. */
  method MakeLayout(Q: nat, order: nat) returns (L: Layout)
    ensures L.Q == Q && L.order == order && LayoutOf(L)
  {
    var strides := Zeros(Q);
    var stride := 1;
    var i := Q - 1;
    while i >= 0
      invariant -1 <= i < Q && |strides| == Q
      invariant stride == DenseSize(Q - 1 - i, order)
      invariant forall j :: i < j < Q ==> strides[j] == DenseSize(Q - 1 - j, order)
    {
      strides := strides[i := stride];
      UniformTail(Q - i, order + 1);
      stride := stride * (order + 1);
      i := i - 1;
    }
    L := Layout(Q, order, strides);
  }

  /** `flatten_multi_index` computes the rank in the dense box. */
  method Flatten(a: Index, L: Layout) returns (idx: nat)
    requires LayoutOf(L) && |a| == L.Q
    ensures idx == Flat(L.Q, L.order, a)
  {
    idx := 0;
    var i := 0;
    while i < L.Q
      invariant 0 <= i <= L.Q
      invariant idx + Flat(L.Q - i, L.order, a[i..]) == Flat(L.Q, L.order, a)
    {
      UniformTail(L.Q - i, L.order + 1);
      assert a[i..][1..] == a[i + 1..];
      idx := idx + a[i] * L.strides[i];
      i := i + 1;
    }
  }

  method ComputeDenseSize(Q: nat, order: nat) returns (n: nat)
    ensures n == DenseSize(Q, order)
  {
    n := 1;
    var q := 0;
    while q < Q
      invariant 0 <= q <= Q && n == DenseSize(q, order)
    {
      UniformTail(q + 1, order + 1);
      n := n * (order + 1);
      q := q + 1;
    }
  }
}
