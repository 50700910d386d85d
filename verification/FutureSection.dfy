/** The future section of an anchor (src/engine/extraction_engine.cpp): a smooth polynomial
    from the normalized jet plus one packet per event boundary, which switches on at its own
    horizon. */
module FutureSection {
  import opened ComplexField
  import opened Combinatorics
  import opened MultiIndex
  import opened Polynomials
  import opened JetLattice
  import opened NewtonGregory
  import opened Anchor

  /** smooth is A_phi; packet l has onset sigma[l] and coefficients packets[l]. */
  datatype Section = Section(smooth: seq<Complex>, sigma: seq<real>, packets: seq<seq<Complex>>, valid: bool)

  ghost predicate WellShaped(sec: Section) {
    |sec.packets| == |sec.sigma|
  }

  // ---------------------------------------------------------------- event boundaries

  predicate Descending(s: seq<int>) {
    forall i, j :: 0 <= i < j < |s| ==> s[i] >= s[j]
  }

  predicate StrictlyDescending(s: seq<int>) {
    forall i, j :: 0 <= i < j < |s| ==> s[i] > s[j]
  }

  lemma {:induction false} NothingDescends()
    ensures Descending([])
  {
  }

  lemma {:induction false} Inserted(s: seq<int>, k: nat, v: int)
    requires k <= |s| && Descending(s) && (forall j :: 0 <= j < k ==> s[j] >= v) && (k < |s| ==> s[k] < v)
    ensures Descending(s[..k] + [v] + s[k..])
    ensures forall x :: x in s[..k] + [v] + s[k..] <==> x in s || x == v
  {
    assert s == s[..k] + s[k..];
  }

  method SortDescending(s: seq<int>) returns (out: seq<int>)
    ensures Descending(out) && forall x :: x in out <==> x in s
  {
    hide Descending;
    out := [];
    NothingDescends();
    var i := 0;
    while i < |s|
      invariant 0 <= i <= |s| && Descending(out)
      invariant forall x :: x in out <==> x in s[..i]
    {
      var k := 0;
      while k < |out| && out[k] >= s[i]
        invariant 0 <= k <= |out| && forall j :: 0 <= j < k ==> out[j] >= s[i]
      {
        k := k + 1;
      }
      assert s[..i + 1] == s[..i] + [s[i]];
      Inserted(out, k, s[i]);
      out := out[..k] + [s[i]] + out[k..];
      i := i + 1;
    }
    assert s[..i] == s;
  }

  /** `normalized_event_boundaries`: drop what lies before bar 0 or after the anchor, sort
      latest first, drop repeats. */
  method NormalizedBoundaries(boundaries: seq<int>, t: int) returns (out: seq<int>)
    ensures StrictlyDescending(out)
    ensures forall x :: x in out <==> x in boundaries && 0 <= x <= t
  {
    var kept := [];
    var i := 0;
    while i < |boundaries|
      invariant 0 <= i <= |boundaries|
      invariant forall x :: x in kept <==> x in boundaries[..i] && 0 <= x <= t
    {
      assert boundaries[..i + 1] == boundaries[..i] + [boundaries[i]];
      if 0 <= boundaries[i] <= t {
        kept := kept + [boundaries[i]];
      }
      i := i + 1;
    }
    assert boundaries[..i] == boundaries;
    var sorted := SortDescending(kept);
    out := [];
    i := 0;
    while i < |sorted|
      invariant 0 <= i <= |sorted| && StrictlyDescending(out)
      invariant forall x :: x in out <==> x in sorted[..i]
      invariant i > 0 ==> out != [] && out[|out| - 1] == sorted[i - 1]
      invariant i == 0 ==> out == []
    {
      assert sorted[..i + 1] == sorted[..i] + [sorted[i]];
      if i == 0 || sorted[i] != sorted[i - 1] {
        out := out + [sorted[i]];
      }
      i := i + 1;
    }
    assert sorted[..i] == sorted;
  }

  /** The event part of a piecewise section.  genuine says that the boundaries are detected
      change points and not the synthetic fallback. */
  datatype Piecewise = Piecewise(boundaries: seq<int>, genuine: bool, singleSector: bool)

  ghost predicate Inside(points: seq<int>, t: int) {
    exists b :: b in points && 0 <= b <= t
  }

  /** k is the first bar from 1 to t with the largest distance, and that is positive. */
  ghost predicate LargestTransition(k: int, distances: seq<real>, t: nat) {
    && 1 <= k <= t && k < |distances| && distances[k] > 0.0
    && (forall i :: 1 <= i <= t && i < |distances| ==> distances[i] <= distances[k])
    && forall i :: 1 <= i < k ==> distances[i] < distances[k]
  }

  ghost predicate Quiet(distances: seq<real>, t: nat) {
    forall i :: 1 <= i <= t && i < |distances| ==> distances[i] <= 0.0
  }

  /** The change points up to the anchor, latest first; where there are none, nothing, or one
      synthetic boundary at the largest transition if the research switch allows it. */
  ghost predicate PiecewiseOf(p: Piecewise, points: seq<int>, distances: seq<real>, t: nat, singleSector: bool,
                              allowSynthetic: bool) {
    && p.singleSector == singleSector && (p.genuine <==> Inside(points, t)) && StrictlyDescending(p.boundaries)
    && (p.genuine ==> forall x :: x in p.boundaries <==> x in points && 0 <= x <= t)
    && (!p.genuine ==>
          if singleSector || !allowSynthetic || Quiet(distances, t) then p.boundaries == []
          else |p.boundaries| == 1 && LargestTransition(p.boundaries[0], distances, t))
  }

  /** `build_piecewise_section_cpu`. */
  method BuildPiecewise(points: seq<int>, distances: seq<real>, t: nat, singleSector: bool, allowSynthetic: bool)
    returns (p: Piecewise)
    ensures PiecewiseOf(p, points, distances, t, singleSector, allowSynthetic)
  {
    var boundaries := NormalizedBoundaries(points, t);
    var genuine := boundaries != [];
    if genuine {
      assert boundaries[0] in boundaries;
    }
    if boundaries == [] && !singleSector && allowSynthetic {
      var best, bestIndex := 0.0, -1;
      var i := 1;
      while i <= t && i < |distances|
        invariant 1 <= i && (i <= t + 1 || i == 1)
        invariant bestIndex == -1 ==> best == 0.0 && forall k :: 1 <= k < i && k < |distances| ==> distances[k] <= 0.0
        invariant bestIndex != -1 ==> 1 <= bestIndex < i && bestIndex < |distances|
        invariant bestIndex != -1 ==> best == distances[bestIndex] > 0.0
        invariant forall k :: 1 <= k < i && k < |distances| ==> distances[k] <= best
        invariant bestIndex != -1 ==> forall k :: 1 <= k < bestIndex ==> distances[k] < best
      {
        if distances[i] > best {
          best, bestIndex := distances[i], i;
        }
        i := i + 1;
      }
      if bestIndex >= 0 && best > 0.0 {
        boundaries := [bestIndex];
      }
    }
    p := Piecewise(boundaries, genuine, singleSector);
  }

  // ---------------------------------------------------------------- jumps and differences

  /** The ordinary forward difference. */
  ghost function Forward(s: nat -> Complex, k: nat, j: nat): Complex {
    if k == 0 then s(j) else Sub(Forward(s, k - 1, j + 1), Forward(s, k - 1, j))
  }

  /** It is the backward difference of the anchor form up to the sign (-1)^k, so the same
      binomial sum. */
  lemma {:induction false} ForwardIsSigned(s: nat -> Complex, k: nat, j: nat)
    ensures Forward(s, k, j) == Mul(OfReal(Sign(k)), Difference(s, k, j))
    ensures Forward(s, k, j) == Mul(OfReal(Sign(k)), Sum(k + 1, SignedTerms(s, k, j)))
    decreases k
  {
    hide Mul, SignedTerms;
    BinomialSum(s, k, j);
    if k == 0 {
      MulUnits(s(j));
    } else {
      ForwardIsSigned(s, k - 1, j);
      ForwardIsSigned(s, k - 1, j + 1);
      FlipSign(k - 1, Difference(s, k - 1, j), Difference(s, k - 1, j + 1));
    }
  }

  lemma {:induction false} FlipSign(k: nat, a: Complex, b: Complex)
    ensures Sub(Mul(OfReal(Sign(k)), b), Mul(OfReal(Sign(k)), a)) == Mul(OfReal(Sign(k + 1)), Sub(a, b))
  {
  }

  lemma {:induction false} ForwardPrefix(s: nat -> Complex, u: nat -> Complex, k: nat, j: nat, n: nat)
    requires j + k < n && forall i: nat :: i < n ==> s(i) == u(i)
    ensures Forward(s, k, j) == Forward(u, k, j)
    decreases k
  {
    if k > 0 {
      ForwardPrefix(s, u, k - 1, j, n);
      ForwardPrefix(s, u, k - 1, j + 1, n);
    }
  }

  /** `forward_difference_at_zero`: the table is overwritten row by row and shortened. */
  method ForwardDifferenceAtZero(samples: seq<Complex>, order: int) returns (d: Complex)
    ensures !(0 <= order < |samples|) ==> d == ZERO
    ensures 0 <= order < |samples| ==> d == Forward(Samples(samples), order, 0)
  {
    if |samples| == 0 || order < 0 || order >= |samples| {
      return ZERO;
    }
    ghost var s := Samples(samples);
    var work := samples;
    var k := 0;
    while k < order
      invariant 0 <= k <= order && |work| == |samples| - k
      invariant forall i: nat :: i < |work| ==> work[i] == Forward(s, k, i)
    {
      var n := |work|;
      var i := 0;
      while i + 1 < n
        invariant 0 <= i <= n - 1 && |work| == n
        invariant forall j: nat :: j < i ==> work[j] == Forward(s, k + 1, j)
        invariant forall j: nat :: i <= j < n ==> work[j] == Forward(s, k, j)
      {
        work := work[i := Sub(work[i + 1], work[i])];
        i := i + 1;
      }
      work := work[..n - 1];
      k := k + 1;
    }
    d := work[0];
  }

  /** The jump across the boundary, seen eta bars later and clamped to the known bars. */
  function Jump(x: seq<real>, b: int, t: nat, eta: int): real
    requires t < |x|
  {
    x[Clamp(b + eta, 0, t)] - x[Clamp(b - 1 + eta, 0, t)]
  }

  ghost function Jumps(x: seq<real>, b: int, t: nat): nat -> Complex
    requires t < |x|
  {
    (eta: nat) => OfReal(Jump(x, b, t, eta))
  }

  /** Jumps past the anchor are zero: no later bar is ever read. */
  lemma {:induction false} NoJumpBeyondAnchor(x: seq<real>, b: int, t: nat, eta: nat)
    requires t < |x| && 0 <= b <= t && b + eta > t
    ensures Jumps(x, b, t)(eta) == ZERO
  {
  }

  ghost function PacketCoefficient(x: seq<real>, b: int, t: nat, nPi: int, n: nat): Complex
    requires t < |x|
  {
    if n < nPi then DivReal(Forward(Jumps(x, b, t), n, 0), Factorial(n) as real) else ZERO
  }

  method Packet(x: seq<real>, b: int, t: nat, nPi: int) returns (A: seq<Complex>)
    requires t < |x|
    ensures |A| == Max(1, nPi)
    ensures forall n: nat :: n < |A| ==> A[n] == PacketCoefficient(x, b, t, nPi, n)
  {
    hide Forward, DivReal, Factorial;
    var samples := seq(Max(1, nPi), i => ZERO);
    var eta := 0;
    while eta < nPi
      invariant 0 <= eta && (eta <= nPi || eta == 0) && |samples| == Max(1, nPi)
      invariant forall i: nat :: i < eta ==> samples[i] == Jumps(x, b, t)(i)
      invariant nPi <= 0 ==> samples[0] == ZERO
    {
      samples := samples[eta := OfReal(Jump(x, b, t, eta))];
      eta := eta + 1;
    }
    A := seq(Max(1, nPi), i => ZERO)[0 := samples[0]];
    FirstCoefficient(x, b, t, nPi, samples[0]);
    var n := 1;
    while n < nPi
      invariant 1 <= n && (n <= nPi || n == 1) && |A| == |samples| == Max(1, nPi)
      invariant forall k: nat :: k < n && k < |A| ==> A[k] == PacketCoefficient(x, b, t, nPi, k)
    {
      var delta := ForwardDifferenceAtZero(samples, n);
      ForwardPrefix(Samples(samples), Jumps(x, b, t), n, 0, nPi);
      var f := FactorialInt(n);
      A := A[n := DivReal(delta, f)];
      n := n + 1;
    }
  }

  lemma {:induction false} FirstCoefficient(x: seq<real>, b: int, t: nat, nPi: int, v: Complex)
    requires t < |x| && v == if nPi > 0 then Jumps(x, b, t)(0) else ZERO
    ensures PacketCoefficient(x, b, t, nPi, 0) == v
  {
    hide DivReal;
    SmallFactorials();
    DivByOne(v);
  }

  function Onset(t: int, b: int): int {
    Max(1, t - b + 1)
  }

  /** bs lists the latest lMax boundaries inside 0..t, latest first. */
  ghost predicate LatestBoundaries(bs: seq<int>, boundaries: seq<int>, t: int, lMax: nat) {
    && StrictlyDescending(bs) && |bs| <= lMax
    && (forall l :: 0 <= l < |bs| ==> bs[l] in boundaries && 0 <= bs[l] <= t)
    && forall b :: b in boundaries && 0 <= b <= t && b !in bs ==>
         |bs| == lMax && forall l :: 0 <= l < |bs| ==> bs[l] > b
  }

  /** Packet l belongs to boundary bs[l]: its onset counts the bars from there through the
      anchor, its coefficients are those of the jump (zero without a jet). */
  ghost predicate PacketsOf(sigma: seq<real>, packets: seq<seq<Complex>>, bs: seq<int>, x: seq<real>, t: nat, nPi: int,
                            valid: bool)
    requires t < |x|
  {
    |sigma| == |packets| == |bs| &&
    forall l :: 0 <= l < |bs| ==>
      0 <= bs[l] <= t && sigma[l] == (t - bs[l] + 1) as real && PacketIs(packets[l], x, bs[l], t, nPi, valid)
  }

  ghost predicate PacketIs(A: seq<Complex>, x: seq<real>, b: int, t: nat, nPi: int, valid: bool)
    requires t < |x|
  {
    |A| == Max(1, nPi) &&
    forall n: nat :: n < |A| ==> A[n] == if valid then PacketCoefficient(x, b, t, nPi, n) else ZERO
  }

  /** `build_past_jet_state_cpu`.  Of the five channels' jumps only the first channel's
      reach the packets. */
  method BuildPast(J: Jet, x0: seq<real>, boundaries: seq<int>, t: nat, nPhi: int, nPi: int, lMax: nat)
    returns (sec: Section)
    requires t < |x0|
    ensures |sec.smooth| == Max(1, nPhi)
    ensures sec.valid <==> J.coeff != []
    ensures sec.valid ==> forall n: nat :: n < |sec.smooth| ==> sec.smooth[n] == SmoothAt(J, nPhi, n)
    ensures !sec.valid ==> forall n :: 0 <= n < |sec.smooth| ==> sec.smooth[n] == ZERO
    ensures exists bs ::
      LatestBoundaries(bs, boundaries, t, lMax) && PacketsOf(sec.sigma, sec.packets, bs, x0, t, nPi, sec.valid)
  {
    hide PacketIs, SmoothAt, Dense, PacketCoefficient, PacketsOf;
    var smooth := seq(Max(1, nPhi), i => ZERO);
    if J.coeff != [] {
      smooth := SmoothPast(J, nPhi);
    }
    var all := NormalizedBoundaries(boundaries, t);
    var L := if lMax < |all| then lMax else |all|;
    var sigma, packets := [], [];
    var valid := J.coeff != [];
    var l := 0;
    NoPackets(x0, t, nPi, valid);
    while l < L
      invariant 0 <= l <= L && PacketsOf(sigma, packets, all[..l], x0, t, nPi, valid)
    {
      var b := all[l];
      assert b in all;
      var A := seq(Max(1, nPi), i => ZERO);
      if valid {
        A := Packet(x0, b, t, nPi);
      }
      assert PacketIs(A, x0, b, t, nPi, valid) by { PacketIsDefinition(A, x0, b, t, nPi, valid); }
      PacketAppended(sigma, packets, all[..l], b, A, x0, t, nPi, valid);
      assert all[..l + 1] == all[..l] + [b];
      sigma, packets := sigma + [Onset(t, b) as real], packets + [A];
      l := l + 1;
    }
    CutBoundaries(all, boundaries, t, lMax, L);
    sec := Section(smooth, sigma, packets, valid);
    assert PacketsOf(sec.sigma, sec.packets, all[..L], x0, t, nPi, sec.valid);
  }

  lemma {:induction false} NoPackets(x: seq<real>, t: nat, nPi: int, valid: bool)
    requires t < |x|
    ensures PacketsOf([], [], [], x, t, nPi, valid)
  {
  }

  lemma {:induction false} PacketAppended(sigma: seq<real>, packets: seq<seq<Complex>>, bs: seq<int>, b: int,
                                          A: seq<Complex>, x: seq<real>, t: nat, nPi: int, valid: bool)
    requires t < |x| && PacketsOf(sigma, packets, bs, x, t, nPi, valid)
    requires 0 <= b <= t && PacketIs(A, x, b, t, nPi, valid)
    ensures PacketsOf(sigma + [Onset(t, b) as real], packets + [A], bs + [b], x, t, nPi, valid)
  {
    hide PacketIs;
  }

  lemma {:induction false} PacketIsDefinition(A: seq<Complex>, x: seq<real>, b: int, t: nat, nPi: int, valid: bool)
    requires t < |x| && |A| == Max(1, nPi)
    requires forall n: nat :: n < |A| ==> A[n] == if valid then PacketCoefficient(x, b, t, nPi, n) else ZERO
    ensures PacketIs(A, x, b, t, nPi, valid)
  {
  }

  lemma {:induction false} CutBoundaries(all: seq<int>, boundaries: seq<int>, t: int, lMax: nat, L: nat)
    requires StrictlyDescending(all) && forall x :: x in all <==> x in boundaries && 0 <= x <= t
    requires L == if lMax < |all| then lMax else |all|
    ensures LatestBoundaries(all[..L], boundaries, t, lMax)
  {
    forall l | 0 <= l < L
      ensures all[..L][l] in boundaries && 0 <= all[..L][l] <= t
    {
      assert all[l] in all;
    }
    forall b | b in boundaries && 0 <= b <= t && b !in all[..L]
      ensures L == lMax && forall l :: 0 <= l < L ==> all[l] > b
    {
      var k :| 0 <= k < |all| && all[k] == b;
      assert all == all[..L] + all[L..];
      assert k >= L;
    }
  }

  /** Descending lists with the same members are equal. */
  lemma {:induction false} DescendingOnce(a: seq<int>, b: seq<int>)
    requires StrictlyDescending(a) && StrictlyDescending(b) && forall x :: x in a <==> x in b
    ensures a == b
    decreases |a|
  {
    if a == [] {
      if b != [] {
        FirstMember(b);
      }
    } else {
      assert a[0] in b && b[0] in a;
      assert a == [a[0]] + a[1..] && b == [b[0]] + b[1..];
      forall x
        ensures x in a[1..] <==> x in b[1..]
      {
        TailMembers(a, x);
        TailMembers(b, x);
      }
      DescendingOnce(a[1..], b[1..]);
    }
  }

  lemma {:induction false} FirstMember<T>(s: seq<T>)
    requires s != []
    ensures s[0] in s
  {
  }

  lemma {:induction false} TailMembers(a: seq<int>, x: int)
    requires StrictlyDescending(a) && a != []
    ensures x in a[1..] <==> x in a && x != a[0]
    ensures forall y :: y in a ==> y <= a[0]
  {
    assert a == [a[0]] + a[1..];
    assert forall i :: 0 <= i < |a[1..]| ==> a[1..][i] < a[0];
  }

  lemma {:induction false} LatestMember(b: seq<int>, boundaries: seq<int>, t: int, lMax: nat, k: nat)
    requires LatestBoundaries(b, boundaries, t, lMax) && k < |b|
    ensures b[k] in boundaries && 0 <= b[k] <= t && forall j :: 0 <= j < k ==> b[j] > b[k]
  {
  }

  lemma {:induction false} LatestAbove(a: seq<int>, boundaries: seq<int>, t: int, lMax: nat, y: int)
    requires LatestBoundaries(a, boundaries, t, lMax) && y in boundaries && 0 <= y <= t && y !in a
    ensures forall k :: 0 <= k < |a| ==> a[k] > y
  {
  }

  lemma {:induction false} NotListed(a: seq<int>, boundaries: seq<int>, t: int, lMax: nat, i: nat, y: int)
    requires LatestBoundaries(a, boundaries, t, lMax) && i < |a| && a[i] < y && forall k :: 0 <= k < i ==> a[k] > y
    ensures y !in a
  {
  }

  lemma {:induction false} NotSmaller(a: seq<int>, b: seq<int>, boundaries: seq<int>, t: int, lMax: nat, i: nat)
    requires LatestBoundaries(a, boundaries, t, lMax) && LatestBoundaries(b, boundaries, t, lMax)
    requires i < |a| && i < |b| && a[..i] == b[..i]
    ensures a[i] >= b[i]
  {
    hide LatestBoundaries;
    if a[i] < b[i] {
      LatestMember(b, boundaries, t, lMax, i);
      assert forall k :: 0 <= k < i ==> a[k] == a[..i][k] == b[..i][k] == b[k];
      NotListed(a, boundaries, t, lMax, i, b[i]);
      LatestAbove(a, boundaries, t, lMax, b[i]);
    }
  }

  lemma {:induction false} LatestPrefix(a: seq<int>, b: seq<int>, boundaries: seq<int>, t: int, lMax: nat, i: nat)
    requires LatestBoundaries(a, boundaries, t, lMax) && LatestBoundaries(b, boundaries, t, lMax)
    requires i <= |a| && i <= |b|
    ensures a[..i] == b[..i]
  {
    hide LatestBoundaries;
    if i > 0 {
      LatestPrefix(a, b, boundaries, t, lMax, i - 1);
      NotSmaller(a, b, boundaries, t, lMax, i - 1);
      NotSmaller(b, a, boundaries, t, lMax, i - 1);
      assert a[..i] == a[..i - 1] + [a[i - 1]] && b[..i] == b[..i - 1] + [b[i - 1]];
    }
  }

  lemma {:induction false} LatestMissing(a: seq<int>, boundaries: seq<int>, t: int, lMax: nat, y: int)
    requires LatestBoundaries(a, boundaries, t, lMax) && y in boundaries && 0 <= y <= t
    requires forall k :: 0 <= k < |a| ==> a[k] > y
    ensures |a| == lMax
  {
  }

  lemma {:induction false} LatestSize(b: seq<int>, boundaries: seq<int>, t: int, lMax: nat)
    requires LatestBoundaries(b, boundaries, t, lMax)
    ensures |b| <= lMax
  {
  }

  lemma {:induction false} NotShorter(a: seq<int>, b: seq<int>, boundaries: seq<int>, t: int, lMax: nat)
    requires LatestBoundaries(a, boundaries, t, lMax) && LatestBoundaries(b, boundaries, t, lMax)
    requires |a| <= |b| && a == b[..|a|]
    ensures |a| == |b|
  {
    hide LatestBoundaries;
    if |a| < |b| {
      LatestMember(b, boundaries, t, lMax, |a|);
      LatestMissing(a, boundaries, t, lMax, b[|a|]);
      LatestSize(b, boundaries, t, lMax);
    }
  }

  /** There is one list of the latest boundaries. */
  lemma {:induction false} LatestOnce(a: seq<int>, b: seq<int>, boundaries: seq<int>, t: int, lMax: nat)
    requires LatestBoundaries(a, boundaries, t, lMax) && LatestBoundaries(b, boundaries, t, lMax)
    ensures a == b
  {
    hide LatestBoundaries;
    if |a| <= |b| {
      LatestPrefix(a, b, boundaries, t, lMax, |a|);
      NotShorter(a, b, boundaries, t, lMax);
    } else {
      LatestPrefix(b, a, boundaries, t, lMax, |b|);
      NotShorter(b, a, boundaries, t, lMax);
    }
  }

  /** One outcome for given change points and distances. */
  lemma {:induction false} PiecewiseOnce(p: Piecewise, q: Piecewise, points: seq<int>, distances: seq<real>, t: nat,
                                         singleSector: bool, allowSynthetic: bool)
    requires PiecewiseOf(p, points, distances, t, singleSector, allowSynthetic)
    requires PiecewiseOf(q, points, distances, t, singleSector, allowSynthetic)
    ensures p == q
  {
    hide StrictlyDescending, Quiet, Inside, LargestTransition;
    if p.genuine {
      DescendingOnce(p.boundaries, q.boundaries);
    } else if !(singleSector || !allowSynthetic || Quiet(distances, t)) {
      TransitionOnce(p.boundaries[0], q.boundaries[0], distances, t);
    }
  }

  lemma {:induction false} TransitionOnce(j: int, k: int, distances: seq<real>, t: nat)
    requires LargestTransition(j, distances, t) && LargestTransition(k, distances, t)
    ensures j == k
  {
  }

  /** One list of onsets and packets for given boundaries. */
  lemma {:induction false} PacketsOnce(sigma: seq<real>, packets: seq<seq<Complex>>, tau: seq<real>,
                                       others: seq<seq<Complex>>, bs: seq<int>, x: seq<real>, t: nat, nPi: int,
                                       valid: bool)
    requires t < |x| && PacketsOf(sigma, packets, bs, x, t, nPi, valid) && PacketsOf(tau, others, bs, x, t, nPi, valid)
    ensures sigma == tau && packets == others
  {
    hide PacketCoefficient;
    forall l | 0 <= l < |bs|
      ensures packets[l] == others[l]
    {
      assert PacketIs(packets[l], x, bs[l], t, nPi, valid) && PacketIs(others[l], x, bs[l], t, nPi, valid);
    }
  }

  /** Onsets are whole, at least one, and strictly increasing. */
  lemma {:induction false} OnsetsIncrease(sec: Section, bs: seq<int>, boundaries: seq<int>, x: seq<real>, t: nat,
                                          nPi: int, lMax: nat)
    requires t < |x| && LatestBoundaries(bs, boundaries, t, lMax)
    requires PacketsOf(sec.sigma, sec.packets, bs, x, t, nPi, sec.valid)
    ensures forall l :: 0 <= l < |sec.sigma| ==> sec.sigma[l] >= 1.0 && sec.sigma[l] == sec.sigma[l].Floor as real
    ensures forall l, m :: 0 <= l < m < |sec.sigma| ==> sec.sigma[l] < sec.sigma[m]
  {
    hide PacketIs;
  }

  // ---------------------------------------------------------------- evaluation

  ghost function Smooth(sec: Section, h: real): Complex {
    PolyValue(sec.smooth, OfReal(h))
  }

  method EvaluatePolynomial(A: seq<Complex>, h: real, start: Complex) returns (v: Complex)
    ensures v == Add(start, PolyValue(A, OfReal(h)))
  {
    hide Mul, Pow;
    v := start;
    var n := 0;
    while n < |A|
      invariant 0 <= n <= |A| && v == Add(start, Sum(n, PolyTerms(A, OfReal(h))))
    {
      v := Add(v, Mul(A[n], Pow(OfReal(h), n)));
      n := n + 1;
    }
  }

  /** `evaluate_smooth_future_section`. */
  method EvaluateSmooth(sec: Section, h: real) returns (v: Complex)
    ensures v == Smooth(sec, h)
  {
    v := EvaluatePolynomial(sec.smooth, h, ZERO);
  }

  ghost function PacketValues(sec: Section, h: real): nat -> Complex
    requires WellShaped(sec)
  {
    (l: nat) =>
      if l < |sec.sigma| && h >= sec.sigma[l] then PolyValue(sec.packets[l], OfReal(h - sec.sigma[l])) else ZERO
  }

  /** The smooth value and every packet whose onset has passed, measured from that onset. */
  ghost function Full(sec: Section, h: real): Complex
    requires WellShaped(sec)
  {
    Add(Smooth(sec, h), Sum(|sec.sigma|, PacketValues(sec, h)))
  }

  /** `evaluate_full_future_section`. */
  method EvaluateFull(sec: Section, h: real) returns (v: Complex)
    requires WellShaped(sec)
    ensures v == Full(sec, h)
  {
    hide PolyValue, Smooth, Sum;
    v := EvaluateSmooth(sec, h);
    SumZero(0, PacketValues(sec, h));
    var l := 0;
    while l < |sec.sigma|
      invariant 0 <= l <= |sec.sigma| && v == Add(Smooth(sec, h), Sum(l, PacketValues(sec, h)))
    {
      SumStep(l, PacketValues(sec, h));
      var sl := sec.sigma[l];
      if h >= sl {
        v := EvaluatePolynomial(sec.packets[l], h - sl, v);
      }
      l := l + 1;
    }
  }

  ghost predicate NoPacketActive(sec: Section, h: real) {
    forall l :: 0 <= l < |sec.sigma| ==> h < sec.sigma[l]
  }

  /** Before the first onset the full section is the smooth one. */
  lemma {:induction false} FullIsSmooth(sec: Section, h: real)
    requires WellShaped(sec) && NoPacketActive(sec, h)
    ensures Full(sec, h) == Smooth(sec, h)
  {
    hide PolyValue;
    SumZero(|sec.sigma|, PacketValues(sec, h));
  }
}
