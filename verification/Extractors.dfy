/** The extraction loops of src/math/phase_torus.cpp and src/math/quadrature.cpp, and the
    normalization of what they extract (src/engine/jet_engine.cpp). */
module Extractors {
  import opened ComplexField
  import opened MultiIndex
  import opened JetLattice
  import opened PhaseTorus
  import opened Results

  datatype Extracted = Extracted(Q: nat, order: nat, rho: real, A: seq<Complex>)

  const TWO_PI: real := 6.283185307179586

  // ---------------------------------------------------------------- the torus grid

  /** The Q angles, in steps, that the flat table keeps for node n. */
  ghost function NodeAngles(psi: seq<nat>, Q: nat, n: nat): Index {
    if n * Q + Q <= |psi| then psi[n * Q..n * Q + Q] else []
  }

  /** The table lists the box [0, M)^Q in the order of its positions, up to node n. */
  ghost predicate ListsBox(psi: seq<nat>, Q: nat, M: nat, n: nat) {
    forall k: nat :: k < n && k < Volume(Uniform(Q, M)) ==> NodeAngles(psi, Q, k) == Unrank(Uniform(Q, M), k)
  }

  method StoreNode(psi: seq<nat>, Q: nat, n: nat, idx: Index) returns (out: seq<nat>)
    requires |idx| == Q && n * Q + Q <= |psi|
    ensures out == psi[..n * Q] + idx + psi[n * Q + Q..]
  {
    out := psi;
    var q := 0;
    while q < Q
      invariant 0 <= q <= Q && out == psi[..n * Q] + idx[..q] + psi[n * Q + q..]
    {
      out := out[n * Q + q := idx[q]];
      q := q + 1;
    }
    assert idx[..Q] == idx;
  }

  /** The odometer: the last axis steps first, a full axis rolls over to 0. */
  method Advance(idx: Index, M: nat) returns (next: Index)
    requires InBox(Uniform(|idx|, M), idx)
    ensures |next| == |idx|
    ensures AtEnd(Uniform(|idx|, M), idx) || exists q :: Steps(Uniform(|idx|, M), idx, next, q)
  {
    next := idx;
    var q := |idx| - 1;
    while q >= 0
      invariant -1 <= q < |idx| && next == idx[..q + 1] + Zeros(|idx| - q - 1)
      invariant forall p :: q < p < |idx| ==> idx[p] + 1 == M
    {
      next := next[q := next[q] + 1];
      if next[q] < M {
        assert Steps(Uniform(|idx|, M), idx, next, q);
        return;
      }
      next := next[q := 0];
      q := q - 1;
    }
  }

  /** `build_torus_quadrature`: node n holds the n-th index of the box [0, M)^Q. */
  method BuildTorusQuadrature(Q: nat, M: nat) returns (psi: seq<nat>)
    ensures |psi| == Volume(Uniform(Q, M)) * Q
    ensures ListsBox(psi, Q, M, Volume(Uniform(Q, M)))
  {
    hide Volume, Unrank, Rank, ListsBox, NodeAngles, Steps, AtEnd;
    var total := ComputeVolume(Q, M);
    psi := Zeros(total * Q);
    var idx := Zeros(Q);
    FirstNode(Q, M);
    NothingListed(psi, Q, M);
    var n := 0;
    while n < total
      invariant n <= total == Volume(Uniform(Q, M)) && |psi| == total * Q && |idx| == Q
      invariant n < total ==> Unrank(Uniform(Q, M), n) == idx
      invariant ListsBox(psi, Q, M, n)
    {
      RankUnrank(Uniform(Q, M), n);
      NodeFits(n, total, Q);
      var stored := StoreNode(psi, Q, n, idx);
      StoredNodes(psi, stored, Q, M, n, idx);
      psi := stored;
      var next := Advance(idx, M);
      NextNode(Q, M, idx, next, n);
      idx := next;
      n := n + 1;
    }
  }

  method ComputeVolume(Q: nat, M: nat) returns (total: nat)
    ensures total == Volume(Uniform(Q, M))
  {
    total := 1;
    var q := 0;
    while q < Q
      invariant 0 <= q <= Q && total == Volume(Uniform(q, M))
    {
      UniformTail(q + 1, M);
      total := total * M;
      q := q + 1;
    }
  }

  lemma {:induction false} FirstNode(Q: nat, M: nat)
    ensures Volume(Uniform(Q, M)) > 0 ==> Unrank(Uniform(Q, M), 0) == Zeros(Q)
  {
    if Volume(Uniform(Q, M)) > 0 {
      assert Q > 0 ==> Uniform(Q, M)[0] == M;
      assert M == 0 ==> Q == 0 || Volume(Uniform(Q, M)) == 0;
      RankZeros(Uniform(Q, M));
      UnrankRank(Uniform(Q, M), Zeros(Q));
    }
  }

  lemma {:induction false} NothingListed(psi: seq<nat>, Q: nat, M: nat)
    ensures ListsBox(psi, Q, M, 0)
  {
  }

  lemma {:induction false} NodeFits(n: nat, total: nat, Q: nat)
    requires n < total
    ensures n * Q + Q <= total * Q
  {
    ProductMonotone(n + 1, total, Q);
  }

  lemma {:induction false} StoredNodes(psi: seq<nat>, stored: seq<nat>, Q: nat, M: nat, n: nat, idx: Index)
    requires |idx| == Q && n * Q + Q <= |psi|
    requires stored == psi[..n * Q] + idx + psi[n * Q + Q..]
    requires ListsBox(psi, Q, M, n)
    requires n < Volume(Uniform(Q, M)) ==> Unrank(Uniform(Q, M), n) == idx
    ensures ListsBox(stored, Q, M, n + 1)
  {
    hide Unrank, Volume, NodeAngles;
    forall k: nat | k < n + 1 && k < Volume(Uniform(Q, M))
      ensures NodeAngles(stored, Q, k) == Unrank(Uniform(Q, M), k)
    {
      if k < n {
        KeptNode(psi, stored, Q, n, idx, k);
      } else {
        StoredNode(psi, stored, Q, n, idx);
      }
    }
  }

  lemma {:induction false} KeptNode(psi: seq<nat>, stored: seq<nat>, Q: nat, n: nat, idx: Index, k: nat)
    requires |idx| == Q && n * Q + Q <= |psi| && k < n
    requires stored == psi[..n * Q] + idx + psi[n * Q + Q..]
    ensures NodeAngles(stored, Q, k) == NodeAngles(psi, Q, k)
  {
    NodeFits(k, n, Q);
    var lo, base := k * Q, n * Q;
    assert stored[lo..lo + Q] == psi[..base][lo..lo + Q] == psi[lo..lo + Q];
  }

  lemma {:induction false} StoredNode(psi: seq<nat>, stored: seq<nat>, Q: nat, n: nat, idx: Index)
    requires |idx| == Q && n * Q + Q <= |psi|
    requires stored == psi[..n * Q] + idx + psi[n * Q + Q..]
    ensures NodeAngles(stored, Q, n) == idx
  {
    var base := n * Q;
    assert stored[base..base + Q] == idx;
  }

  lemma {:induction false} NextNode(Q: nat, M: nat, idx: Index, next: Index, n: nat)
    requires n < Volume(Uniform(Q, M)) && Unrank(Uniform(Q, M), n) == idx && |idx| == |next| == Q
    requires AtEnd(Uniform(Q, M), idx) || exists q :: Steps(Uniform(Q, M), idx, next, q)
    ensures n + 1 < Volume(Uniform(Q, M)) ==> Unrank(Uniform(Q, M), n + 1) == next
  {
    hide Volume, Unrank;
    var radix := Uniform(Q, M);
    RankUnrank(radix, n);
    if AtEnd(radix, idx) {
      RankAtEnd(radix, idx);
    } else {
      var q :| Steps(radix, idx, next, q);
      RankSteps(radix, idx, next, q);
      UnrankRank(radix, next);
    }
  }

  // ---------------------------------------------------------------- the tensor grid

  method NodeSample(F: seq<Complex> -> Complex, z: seq<Complex>, rho: real, w: Complex, alpha: Index,
                    psi: seq<nat>, n: nat)
    returns (v: Complex)
    requires |alpha| == |z| && w != ZERO && n * |z| + |z| <= |psi|
    ensures |NodeAngles(psi, |z|, n)| == |z|
    ensures v == NodeTerm(F, z, rho, w, alpha, NodeAngles(psi, |z|, n))
  {
    ghost var a := NodeAngles(psi, |z|, n);
    var base := n * |z|;
    assert forall q :: 0 <= q < |z| ==> psi[base + q] == a[q];
    var zp := ShiftedPoint(z, rho, w, psi, base, a);
    var apsi := NodePhase(alpha, psi, base, a);
    v := Mul(F(zp), Pow(Inv(w), apsi));
  }

  method ShiftedPoint(z: seq<Complex>, rho: real, w: Complex, psi: seq<nat>, base: nat, ghost a: Index)
    returns (zp: seq<Complex>)
    requires base + |z| <= |psi| && |a| == |z| && forall q :: 0 <= q < |z| ==> psi[base + q] == a[q]
    ensures zp == NodePoint(z, rho, w, a)
  {
    hide Mul, RingPoint;
    zp := z;
    var q := 0;
    while q < |z|
      invariant 0 <= q <= |z| && |zp| == |z|
      invariant forall p :: 0 <= p < q ==> zp[p] == RingPoint(z[p], rho, w, a[p])
    {
      zp := zp[q := RingPoint(z[q], rho, w, psi[base + q])];
      q := q + 1;
    }
  }

  method NodePhase(alpha: Index, psi: seq<nat>, base: nat, ghost a: Index) returns (apsi: nat)
    requires base + |alpha| <= |psi| && |a| == |alpha| && forall q :: 0 <= q < |a| ==> psi[base + q] == a[q]
    ensures apsi == Phase(alpha, a)
  {
    apsi := 0;
    var q := 0;
    while q < |alpha|
      invariant 0 <= q <= |alpha| && apsi + Phase(alpha[q..], a[q..]) == Phase(alpha, a)
    {
      assert alpha[q..][1..] == alpha[q + 1..] && a[q..][1..] == a[q + 1..];
      apsi := apsi + alpha[q] * psi[base + q];
      q := q + 1;
    }
  }

  method TensorSum(F: seq<Complex> -> Complex, z: seq<Complex>, rho: real, M: nat, w: Complex, alpha: Index,
                   psi: seq<nat>, nodes: nat)
    returns (acc: Complex)
    requires |alpha| == |z| && w != ZERO
    requires nodes == Volume(Uniform(|z|, M)) && |psi| == nodes * |z| && ListsBox(psi, |z|, M, nodes)
    ensures acc == Sum(nodes, NodeTerms(F, z, rho, M, w, alpha))
  {
    hide Mul, Volume, Unrank, NodeTerm;
    acc := ZERO;
    var n := 0;
    while n < nodes
      invariant n <= nodes && acc == Sum(n, NodeTerms(F, z, rho, M, w, alpha))
    {
      NodeFits(n, nodes, |z|);
      var v := NodeSample(F, z, rho, w, alpha, psi, n);
      RankUnrank(Uniform(|z|, M), n);
      assert NodeTerms(F, z, rho, M, w, alpha)(n) == v;
      acc := Add(acc, v);
      n := n + 1;
    }
  }

  function RealPower(x: real, n: nat): real {
    if n == 0 then 1.0 else x * RealPower(x, n - 1)
  }

  lemma {:induction false} RealPowerPositive(x: real, n: nat)
    requires x > 0.0
    ensures RealPower(x, n) > 0.0
  {
    if n > 0 {
      RealPowerPositive(x, n - 1);
      ProductPositive(x, RealPower(x, n - 1), RealPower(x, n));
    }
  }

  /** The volume element over the volume: one node's share. */
  lemma {:induction false} NodeShare(norm: real, nodes: nat)
    requires norm > 0.0 && nodes > 0
    ensures norm / nodes as real / norm == 1.0 / nodes as real
  {
    var n := nodes as real;
    assert (norm / n / norm) * n == norm / n * n / norm == 1.0;
  }

  /** What the source's guards let through. */
  predicate RingArguments(rho: real, M: nat) {
    rho > 0.0 && M >= 2
  }

  /** `extract_phase_torus_cpu`. */
  method ExtractPhaseTorus(F: seq<Complex> -> Complex, z: seq<Complex>, rho: real, Q: nat, order: nat, M: nat,
                           w: Complex)
    returns (r: Result<Extracted>)
    requires |z| == Q && w != ZERO
    ensures r.Ok? <==> RingArguments(rho, M)
    ensures r.Ok? ==> r.value.Q == Q && r.value.order == order && r.value.rho == rho
    ensures r.Ok? ==> Supported(r.value.A, Q, order)
    ensures r.Ok? ==> forall a: Index {:trigger Coef(r.value.A, Q, order, a)} :: InSimplex(a, Q, order) ==>
      Coef(r.value.A, Q, order, a) == TensorCoefficient(F, z, rho, M, w, a)
  {
    if rho <= 0.0 || M < 2 {
      return NumericError;
    }
    hide Mul, Volume, Unrank, TensorCoefficient, NodeTerms, Coef, Supported, Simplex, LexIncreasing;
    var idx := EnumerateMultiIndices(Q, order);
    var layout := MakeLayout(Q, order);
    var size := ComputeDenseSize(Q, order);
    var A := seq(size, i => ZERO);
    CoefZeros(Q, order, A);
    var psi := BuildTorusQuadrature(Q, M);
    var nodes := ComputeVolume(Q, M);
    VolumePositive(Q, M);
    var norm := RealPower(TWO_PI, Q);
    RealPowerPositive(TWO_PI, Q);
    var dvol := norm / nodes as real;
    NodeShare(norm, nodes);
    var i := 0;
    while i < |idx|
      invariant 0 <= i <= |idx| && Supported(A, Q, order) && |A| == DenseSize(Q, order)
      invariant forall a: Index {:trigger Coef(A, Q, order, a)} :: InSimplex(a, Q, order) && a in idx[..i] ==>
        Coef(A, Q, order, a) == TensorCoefficient(F, z, rho, M, w, a)
    {
      var alpha := idx[i];
      SimplexMembers(Q, order, alpha);
      var acc := TensorSum(F, z, rho, M, w, alpha, psi, nodes);
      var k := Flatten(alpha, layout);
      var value := Mul(OfReal(dvol / norm), acc);
      TensorUnfold(F, z, rho, M, w, alpha);
      CoefUpdate(A, Q, order, alpha, value);
      A := A[k := value];
      assert idx[..i + 1] == idx[..i] + [alpha];
      i := i + 1;
    }
    assert idx[..i] == idx;
    forall a: Index | InSimplex(a, Q, order)
      ensures a in idx
    {
      SimplexMembers(Q, order, a);
    }
    r := Ok(Extracted(Q, order, rho, A));
  }

  lemma {:induction false} TensorUnfold(F: seq<Complex> -> Complex, z: seq<Complex>, rho: real, M: nat, w: Complex,
                                        alpha: Index)
    requires |alpha| == |z| && w != ZERO && M > 0
    ensures Volume(Uniform(|z|, M)) > 0
    ensures TensorCoefficient(F, z, rho, M, w, alpha)
         == Mul(OfReal(1.0 / Volume(Uniform(|z|, M)) as real),
                Sum(Volume(Uniform(|z|, M)), NodeTerms(F, z, rho, M, w, alpha)))
  {
    hide Volume, Mul, NodeTerms;
    VolumePositive(|z|, M);
  }

  // ---------------------------------------------------------------- the separable extractor

  method AxisCoefficients(G: Complex -> Complex, z: Complex, rho: real, order: nat, M: nat, w: Complex)
    returns (Aq: seq<Complex>)
    requires w != ZERO && M > 0
    ensures |Aq| == order + 1
    ensures forall a: nat :: a <= order ==> Aq[a] == AxisCoefficient(G, z, rho, M, w, a)
  {
    hide Mul, Inv;
    Aq := seq(order + 1, i => ZERO);
    var m := 0;
    while m < M
      invariant m <= M && |Aq| == order + 1
      invariant forall a: nat :: a <= order ==> Aq[a] == Sum(m, RingTerms(G, z, rho, w, a))
    {
      var Fv := G(RingPoint(z, rho, w, m));
      ghost var before := Aq;
      var a := 0;
      while a <= order
        invariant 0 <= a <= order + 1 && |Aq| == order + 1
        invariant forall b: nat :: b < a ==> Aq[b] == Sum(m + 1, RingTerms(G, z, rho, w, b))
        invariant forall b: nat :: a <= b <= order ==> Aq[b] == before[b]
      {
        SumStep(m, RingTerms(G, z, rho, w, a));
        Aq := Aq[a := Add(Aq[a], Mul(Fv, Pow(Inv(w), a * m)))];
        a := a + 1;
      }
      m := m + 1;
    }
    var invM := Weight(M);
    var a := 0;
    while a <= order
      invariant 0 <= a <= order + 1 && |Aq| == order + 1
      invariant forall b: nat :: b < a ==> Aq[b] == AxisCoefficient(G, z, rho, M, w, b)
      invariant forall b: nat :: a <= b <= order ==> Aq[b] == Sum(M, RingTerms(G, z, rho, w, b))
    {
      MulComm(Aq[a], invM);
      Aq := Aq[a := Mul(Aq[a], invM)];
      a := a + 1;
    }
  }

  /** The support scan: no axis, the one axis, or more than one. */
  method SupportScan(alpha: Index) returns (count: nat, axis: int)
    ensures count == 0 <==> AllZero(alpha)
    ensures count == 1 ==> 0 <= axis && OnAxis(alpha, axis)
    ensures count > 1 ==> forall q: nat :: !OnAxis(alpha, q)
  {
    count, axis := 0, -1;
    var q := 0;
    while q < |alpha|
      invariant 0 <= q <= |alpha| && count <= 1
      invariant count == 0 ==> forall p :: 0 <= p < q ==> alpha[p] == 0
      invariant count == 1 ==> 0 <= axis < q && alpha[axis] > 0
      invariant count == 1 ==> forall p :: 0 <= p < q && p != axis ==> alpha[p] == 0
    {
      if alpha[q] > 0 {
        ghost var first := axis;
        axis := q;
        count := count + 1;
        if count > 1 {
          assert alpha[first] > 0 && alpha[q] > 0;
          return;
        }
      }
      q := q + 1;
    }
  }

  method SumConstants(axis: seq<seq<Complex>>) returns (acc: Complex)
    requires forall q :: 0 <= q < |axis| ==> |axis[q]| > 0
    ensures acc == Sum(|axis|, FirstEntries(axis))
  {
    acc := ZERO;
    var q := 0;
    while q < |axis|
      invariant 0 <= q <= |axis| && acc == Sum(q, FirstEntries(axis))
    {
      acc := Add(acc, axis[q][0]);
      q := q + 1;
    }
  }

  ghost function FirstEntries(axis: seq<seq<Complex>>): nat -> Complex {
    (q: nat) => if q < |axis| && |axis[q]| > 0 then axis[q][0] else ZERO
  }

  /** The per-axis table holds the ring coefficients of every germ. */
  ghost predicate AxisTable(axis: seq<seq<Complex>>, G: seq<Complex -> Complex>, z: seq<Complex>, rho: real,
                            order: nat, M: nat, w: Complex, n: nat)
    requires w != ZERO && M > 0 && |z| == |G|
  {
    && |axis| == n <= |G|
    && (forall q: nat :: q < n ==> |axis[q]| == order + 1)
    && (forall q: nat, a: nat :: q < n && a <= order ==>
          axis[q][a] == AxisCoefficient(G[q], z[q], rho, M, w, a))
  }

  method SeparableValue(axis: seq<seq<Complex>>, alpha: Index, ghost G: seq<Complex -> Complex>,
                        ghost z: seq<Complex>, ghost rho: real, ghost order: nat, ghost M: nat, ghost w: Complex)
    returns (v: Complex)
    requires w != ZERO && M > 0 && |z| == |G| && AxisTable(axis, G, z, rho, order, M, w, |G|)
    requires InSimplex(alpha, |G|, order)
    ensures v == SeparableCoefficient(G, z, rho, M, w, alpha)
  {
    hide AxisCoefficient, Inv, Mul;
    var count, s := SupportScan(alpha);
    if count == 0 {
      v := SumConstants(axis);
      SumCongruence(|G|, FirstEntries(axis), ConstantTerms(G, z, rho, M, w));
    } else if count == 1 {
      DegreeBounds(alpha, s);
      assert forall q: nat :: OnAxis(alpha, q) ==> q == s;
      v := axis[s][alpha[s]];
    } else {
      v := ZERO;
    }
  }

  /** `extract_phase_torus_separable_cpu`. */
  method ExtractSeparable(G: seq<Complex -> Complex>, z: seq<Complex>, rho: real, order: nat, M: nat, w: Complex)
    returns (r: Result<Extracted>)
    requires w != ZERO
    ensures r.Ok? <==> |G| > 0 && RingArguments(rho, M) && |z| == |G|
    ensures r.Ok? ==> r.value.Q == |G| && r.value.order == order && r.value.rho == rho
    ensures r.Ok? ==> Supported(r.value.A, |G|, order)
    ensures r.Ok? ==> forall a: Index {:trigger Coef(r.value.A, |G|, order, a)} :: InSimplex(a, |G|, order) ==>
      Coef(r.value.A, |G|, order, a) == SeparableCoefficient(G, z, rho, M, w, a)
  {
    var Q := |G|;
    if Q <= 0 || rho <= 0.0 || M < 2 || |z| != Q {
      return NumericError;
    }
    hide Mul, Inv, Volume, Unrank, SeparableCoefficient, AxisCoefficient, Coef, Supported, Simplex, LexIncreasing;
    var size := ComputeDenseSize(Q, order);
    var A := seq(size, i => ZERO);
    CoefZeros(Q, order, A);
    var axis := [];
    var q := 0;
    while q < Q
      invariant 0 <= q <= Q && AxisTable(axis, G, z, rho, order, M, w, q)
    {
      var Aq := AxisCoefficients(G[q], z[q], rho, order, M, w);
      axis := axis + [Aq];
      q := q + 1;
    }
    var layout := MakeLayout(Q, order);
    var idx := EnumerateMultiIndices(Q, order);
    var i := 0;
    while i < |idx|
      invariant 0 <= i <= |idx| && Supported(A, Q, order) && |A| == DenseSize(Q, order)
      invariant forall a: Index {:trigger Coef(A, Q, order, a)} :: InSimplex(a, Q, order) && a in idx[..i] ==>
        Coef(A, Q, order, a) == SeparableCoefficient(G, z, rho, M, w, a)
    {
      var alpha := idx[i];
      SimplexMembers(Q, order, alpha);
      var value := SeparableValue(axis, alpha, G, z, rho, order, M, w);
      var k := Flatten(alpha, layout);
      CoefUpdate(A, Q, order, alpha, value);
      A := A[k := value];
      assert idx[..i + 1] == idx[..i] + [alpha];
      i := i + 1;
    }
    assert idx[..i] == idx;
    forall a: Index | InSimplex(a, Q, order)
      ensures a in idx
    {
      SimplexMembers(Q, order, a);
    }
    r := Ok(Extracted(Q, order, rho, A));
  }

  // ---------------------------------------------------------------- normalization

  /** rho^{-d}. */
  function InverseRadius(rho: real, d: nat): Complex
    requires rho > 0.0
  {
    RealPowerPositive(rho, d);
    OfReal(1.0 / RealPower(rho, d))
  }

  lemma {:induction false} PowOfReal(x: real, n: nat)
    ensures Pow(OfReal(x), n) == OfReal(RealPower(x, n))
  {
    hide Mul;
    if n > 0 {
      PowOfReal(x, n - 1);
      OfRealHom(x, RealPower(x, n - 1));
    }
  }

  lemma {:induction false} InverseRadiusCancels(rho: real, d: nat)
    requires rho > 0.0
    ensures Mul(Pow(OfReal(rho), d), InverseRadius(rho, d)) == ONE
  {
    hide Mul;
    RealPowerPositive(rho, d);
    var x := RealPower(rho, d);
    PowOfReal(rho, d);
    OfRealHom(x, 1.0 / x);
    ReciprocalTimes(x);
  }

  /** `make_jet_from_extracted`: J_a == rho^{-|a|} A_a, no factorial. */
  method MakeJet(e: Extracted) returns (r: Result<Jet>)
    ensures r.Ok? <==> |e.A| >= DenseSize(e.Q, e.order) && e.rho > 0.0
    ensures r.Ok? ==> r.value.Q == e.Q && r.value.order == e.order && SupportedJet(r.value)
    ensures r.Ok? ==> forall a: Index {:trigger At(r.value, a)} :: InSimplex(a, e.Q, e.order) ==>
      At(r.value, a)
        == Mul(Coef(e.A[..DenseSize(e.Q, e.order)], e.Q, e.order, a), InverseRadius(e.rho, Degree(a)))
  {
    var size := ComputeDenseSize(e.Q, e.order);
    if |e.A| < size || e.rho <= 0.0 {
      return NumericError;
    }
    hide Mul, Volume, Unrank, Supported, Simplex, LexIncreasing;
    var coeff := seq(size, i => ZERO);
    CoefZeros(e.Q, e.order, coeff);
    ghost var source := e.A[..size];
    var layout := MakeLayout(e.Q, e.order);
    var idx := EnumerateMultiIndices(e.Q, e.order);
    var i := 0;
    while i < |idx|
      invariant 0 <= i <= |idx| && Supported(coeff, e.Q, e.order) && |coeff| == size
      invariant forall a: Index {:trigger Coef(coeff, e.Q, e.order, a)} ::
        InSimplex(a, e.Q, e.order) && a in idx[..i] ==>
        Coef(coeff, e.Q, e.order, a) == Mul(Coef(source, e.Q, e.order, a), InverseRadius(e.rho, Degree(a)))
    {
      var alpha := idx[i];
      SimplexMembers(e.Q, e.order, alpha);
      FlatInDense(e.Q, e.order, alpha);
      var k := Flatten(alpha, layout);
      var value := Mul(e.A[k], InverseRadius(e.rho, Degree(alpha)));
      assert Coef(source, e.Q, e.order, alpha) == e.A[k];
      CoefUpdate(coeff, e.Q, e.order, alpha, value);
      coeff := coeff[k := value];
      assert idx[..i + 1] == idx[..i] + [alpha];
      i := i + 1;
    }
    assert idx[..i] == idx;
    forall a: Index | InSimplex(a, e.Q, e.order)
      ensures a in idx
    {
      SimplexMembers(e.Q, e.order, a);
    }
    r := Ok(Jet(e.Q, e.order, coeff));
  }

  /** The two extractors fill the same array for every separable field, below the aliasing
      order or with one axis. */
  lemma {:induction false} ExtractionsEqual(F: seq<Complex> -> Complex, G: seq<Complex -> Complex>, z: seq<Complex>,
                                            rho: real,
                         order: nat, M: nat, w: Complex, tensor: seq<Complex>, fast: seq<Complex>)
    requires |z| == |G| && Primitive(w, M) && Separates(F, G) && (|G| == 1 || order < M)
    requires Supported(tensor, |G|, order) && Supported(fast, |G|, order)
    requires forall a: Index {:trigger Coef(tensor, |G|, order, a)} :: InSimplex(a, |G|, order) ==>
      Coef(tensor, |G|, order, a) == TensorCoefficient(F, z, rho, M, w, a)
    requires forall a: Index {:trigger Coef(fast, |G|, order, a)} :: InSimplex(a, |G|, order) ==>
      Coef(fast, |G|, order, a) == SeparableCoefficient(G, z, rho, M, w, a)
    ensures tensor == fast
  {
    hide TensorCoefficient, SeparableCoefficient;
    forall a | InSimplex(a, |G|, order)
      ensures Coef(tensor, |G|, order, a) == Coef(fast, |G|, order, a)
    {
      SeparableEqualsTensor(F, G, z, rho, M, w, a);
    }
    SupportedExtensional(tensor, fast, |G|, order);
  }
}
