/** Spectral factorization of the rational model and mode evaluation
    (src/math/spectral.cpp).  The root finder is an oracle: its output is an argument. */
module Spectral {
  import opened ComplexField
  import opened Combinatorics
  import opened LinearAlgebra
  import opened Elimination
  import opened Recurrence
  import opened Modes
  import opened Results
  import Reals

  datatype Cluster = Cluster(lambda: Complex, mult: nat)

  datatype Mode = Mode(lambda: Complex, multiplicity: nat, gamma: seq<Complex>)

  datatype Spectrum = Spectrum(r: int, modes: seq<Mode>)

  // ---------------------------------------------------------------- binomials at real arguments

  /** h (h-1) ... (h-s+1). */
  ghost function Falling(h: real, s: nat): real {
    if s == 0 then 1.0 else Falling(h, s - 1) * (h - (s - 1) as real)
  }

  lemma {:induction false} FallingChoose(h: nat, s: nat)
    ensures Falling(h as real, s) == Choose(h, s) as real * Factorial(s) as real
  {
    hide Choose, Factorial;
    Starts(h);
    if s > 0 {
      FallingChoose(h, s - 1);
      FallingStep(Falling(h as real, s - 1), h, s - 1);
    }
  }

  lemma {:induction false} Starts(h: nat)
    ensures Choose(h, 0) == 1 && Factorial(0) == 1
  {
  }

  lemma {:induction false} FactorialStep(k: nat)
    ensures Factorial(k + 1) == (k + 1) * Factorial(k)
  {
  }

  lemma {:induction false} FallingStep(f: real, h: nat, k: nat)
    requires f == Choose(h, k) as real * Factorial(k) as real
    ensures f * (h as real - k as real) == Choose(h, k + 1) as real * Factorial(k + 1) as real
  {
    hide Choose, Factorial;
    FactorialStep(k);
    if k <= h {
      ChooseStep(h, k);
      FallingArithmetic(Choose(h, k), Choose(h, k + 1), h - k, k + 1, Factorial(k));
      assert (h - k) as real == h as real - k as real;
    } else {
      ChooseBeyond(h, k);
      ChooseBeyond(h, k + 1);
      ZeroTimes(Factorial(k) as real, h as real - k as real);
      ZeroTimes(Factorial(k + 1) as real, 1.0);
    }
  }

  lemma {:induction false} ZeroTimes(x: real, y: real)
    ensures 0.0 * x == 0.0 && 0.0 * x * y == 0.0
  {
  }

  lemma {:induction false} FallingArithmetic(c: nat, d: nat, p: nat, s: nat, f: nat)
    requires d * s == c * p
    ensures c as real * f as real * p as real == d as real * (s * f) as real
  {
    assert (c * p) as real == c as real * p as real;
    assert (d * s) as real == d as real * s as real;
    assert (s * f) as real == s as real * f as real;
  }

  /** `binom_real`: at a natural h it is C(h, s). */
  method BinomReal(h: real, s: int) returns (r: real)
    ensures s < 0 ==> r == 0.0
    ensures s >= 0 ==> forall n: nat :: h == n as real ==> r == Choose(n, s) as real
  {
    hide Choose, Factorial;
    if s < 0 {
      return 0.0;
    }
    r := 1.0;
    var j := 0;
    while j < s
      invariant 0 <= j <= s && r == Falling(h, j)
    {
      r := r * (h - j as real);
      j := j + 1;
    }
    var f := FactorialInt(s);
    r := r / f;
    FallingQuotient(h, s, f, r);
  }

  lemma {:induction false} FallingQuotient(h: real, s: nat, f: real, r: real)
    requires f == Factorial(s) as real && r == Falling(h, s) / f
    ensures forall n: nat :: h == n as real ==> r == Choose(n, s) as real
  {
    hide Choose, Factorial, Falling;
    forall n: nat | h == n as real
      ensures r == Choose(n, s) as real
    {
      FallingChoose(n, s);
      Reals.DivideBack(Choose(n, s) as real, f);
    }
  }

  /** lambda^e.  At lambda == 0 a negative power has no value; the model then gives 0. */
  function IntegerPower(lambda: Complex, e: int): Complex {
    if e >= 0 then Pow(lambda, e) else if lambda == ZERO then ZERO else Pow(Inv(lambda), -e)
  }

  /** binom_real(h, s) * pow(lambda, h - s) at a whole horizon. */
  method ModeFactor(lambda: Complex, s: nat, h: nat) returns (w: Complex)
    ensures w == ModeValue(lambda, s, h)
  {
    hide Mul, Pow;
    var c := BinomReal(h as real, s);
    var p := IntegerPower(lambda, h - s);
    w := Mul(OfReal(c), p);
    if h < s {
      ChooseBeyond(h, s);
      MulUnits(p);
    }
  }

  // ---------------------------------------------------------------- clustering

  /** |a - b| < tol. */
  predicate Close(a: Complex, b: Complex, tol: real) {
    BelowTolerance(Norm2(Sub(a, b)), tol)
  }

  /** Different roots are not closer than the tolerance. */
  ghost predicate Separated(roots: seq<Complex>, tol: real) {
    tol > 0.0 &&
    forall i, j {:trigger Close(roots[i], roots[j], tol)} ::
      0 <= i < |roots| && 0 <= j < |roots| && Close(roots[i], roots[j], tol) ==> roots[i] == roots[j]
  }

  function Total(cl: seq<Cluster>): nat {
    if cl == [] then 0 else Total(cl[..|cl| - 1]) + cl[|cl| - 1].mult
  }

  function CountTrue(b: seq<bool>): nat {
    if b == [] then 0 else CountTrue(b[..|b| - 1]) + (if b[|b| - 1] then 1 else 0)
  }

  /** One cluster per root, with its multiplicity. */
  ghost predicate ExactClusters(cl: seq<Cluster>, roots: seq<Complex>) {
    && (forall i :: 0 <= i < |cl| ==> cl[i].mult == Multiplicity(cl[i].lambda, roots))
    && (forall i, j :: 0 <= i < j < |cl| ==> cl[i].lambda != cl[j].lambda)
  }

  lemma {:induction false} CountUpdate(b: seq<bool>, k: nat)
    requires k < |b| && !b[k]
    ensures CountTrue(b[k := true]) == CountTrue(b) + 1
  {
    var n := |b| - 1;
    if k < n {
      assert b[k := true][..n] == b[..n][k := true];
      CountUpdate(b[..n], k);
    } else {
      assert b[k := true][..n] == b[..n];
    }
  }

  lemma {:induction false} CountExtremes(b: seq<bool>)
    ensures (forall k :: 0 <= k < |b| ==> !b[k]) ==> CountTrue(b) == 0
    ensures (forall k :: 0 <= k < |b| ==> b[k]) ==> CountTrue(b) == |b|
  {
    if b != [] {
      CountExtremes(b[..|b| - 1]);
    }
  }

  lemma {:induction false} MultiplicityPrefix(x: Complex, roots: seq<Complex>, j: nat)
    requires j < |roots|
    ensures Multiplicity(x, roots[..j + 1]) == Multiplicity(x, roots[..j]) + if roots[j] == x then 1 else 0
  {
    assert roots[..j + 1] == roots[..j] + [roots[j]];
    MultiplicityConcat(x, roots[..j], [roots[j]]);
  }

  lemma {:induction false} MultiplicityNone(x: Complex, roots: seq<Complex>)
    requires x !in roots
    ensures Multiplicity(x, roots) == 0
  {
    if roots != [] {
      assert forall y :: y in roots[1..] ==> y in roots;
      MultiplicityNone(x, roots[1..]);
    }
  }

  /** A root is used exactly when some cluster has its value. */
  ghost predicate UsedByClusters(used: seq<bool>, cl: seq<Cluster>, roots: seq<Complex>) {
    |used| == |roots| &&
    forall k :: 0 <= k < |roots| ==> (used[k] <==> exists c :: 0 <= c < |cl| && cl[c].lambda == roots[k])
  }

  /** What the collecting loop has summed, counted and marked. */
  datatype Gathering = Gathering(sum: Complex, count: nat, used: seq<bool>)

  /** The gathering around root i when the roots before j have been looked at. */
  ghost function Gathered(roots: seq<Complex>, tol: real, i: nat, before: seq<bool>, j: nat): (g: Gathering)
    requires i < j <= |roots| == |before|
    ensures |g.used| == |roots| && g.count >= 1
  {
    if j == i + 1 then Gathering(roots[i], 1, before[i := true])
    else
      var g := Gathered(roots, tol, i, before, j - 1);
      if !g.used[j - 1] && Close(roots[j - 1], roots[i], tol)
      then Gathering(Add(g.sum, roots[j - 1]), g.count + 1, g.used[j - 1 := true]) else g
  }

  /** The mean of the gathered roots, with their number. */
  ghost function Collected(g: Gathering): Cluster
    requires g.count >= 1
  {
    Cluster(Div(g.sum, OfReal(g.count as real)), g.count)
  }

  datatype Clustering = Clustering(clusters: seq<Cluster>, used: seq<bool>)

  /** The clusters that start at the roots before i, for any roots and tolerance. */
  ghost function Clustered(roots: seq<Complex>, tol: real, i: nat): (c: Clustering)
    requires i <= |roots|
    ensures |c.used| == |roots|
  {
    if i == 0 then Clustering([], seq(|roots|, k => false))
    else
      var c := Clustered(roots, tol, i - 1);
      if c.used[i - 1] then c
      else
        var g := Gathered(roots, tol, i - 1, c.used, |roots|);
        Clustering(c.clusters + [Collected(g)], g.used)
  }

  lemma {:induction false} GatheredCounts(roots: seq<Complex>, tol: real, i: nat, before: seq<bool>, j: nat)
    requires i < j <= |roots| == |before| && !before[i]
    ensures var g := Gathered(roots, tol, i, before, j);
      && CountTrue(g.used) == CountTrue(before) + g.count
      && g.used[i] && forall k :: 0 <= k < |roots| && before[k] ==> g.used[k]
    decreases j
  {
    hide Close, CountTrue;
    if j == i + 1 {
      CountUpdate(before, i);
    } else {
      GatheredCounts(roots, tol, i, before, j - 1);
      var g := Gathered(roots, tol, i, before, j - 1);
      if !g.used[j - 1] {
        CountUpdate(g.used, j - 1);
      }
    }
  }

  /** Root i is the first of its value, and no root of that value is used yet. */
  ghost predicate FirstUnused(roots: seq<Complex>, i: nat, before: seq<bool>)
    requires i < |roots| == |before|
  {
    forall k :: 0 <= k < |roots| && roots[k] == roots[i] ==> !before[k] && i <= k
  }

  /** g holds exactly the roots before j that equal root i. */
  ghost predicate HoldsRoot(g: Gathering, roots: seq<Complex>, i: nat, before: seq<bool>, j: nat)
    requires i < j <= |roots| == |before|
  {
    && |g.used| == |roots|
    && g.sum == Mul(OfReal(g.count as real), roots[i]) && g.count == Multiplicity(roots[i], roots[..j])
    && forall k :: 0 <= k < |roots| ==> g.used[k] == (before[k] || (k < j && roots[k] == roots[i]))
  }

  lemma {:induction false} HoldsNext(g: Gathering, roots: seq<Complex>, tol: real, i: nat, before: seq<bool>, j: nat)
    requires i < j < |roots| == |before| && Separated(roots, tol) && FirstUnused(roots, i, before)
    requires HoldsRoot(g, roots, i, before, j)
    ensures HoldsRoot(if !g.used[j] && Close(roots[j], roots[i], tol)
                      then Gathering(Add(g.sum, roots[j]), g.count + 1, g.used[j := true]) else g,
                      roots, i, before, j + 1)
  {
    hide Mul, Separated, Close, Multiplicity;
    MultiplicityPrefix(roots[i], roots, j);
    SeparatedClose(roots, tol, j, i);
    OneMore(g.count, roots[i]);
  }

  lemma {:induction false} OneMore(n: nat, x: Complex)
    ensures Add(Mul(OfReal(n as real), x), x) == Mul(OfReal((n + 1) as real), x)
  {
  }

  lemma {:induction false} HoldsFirst(roots: seq<Complex>, i: nat, before: seq<bool>)
    requires i < |roots| == |before| && FirstUnused(roots, i, before)
    ensures HoldsRoot(Gathering(roots[i], 1, before[i := true]), roots, i, before, i + 1)
  {
    hide Mul, Multiplicity;
    MultiplicityPrefix(roots[i], roots, i);
    MultiplicityNone(roots[i], roots[..i]);
    MulUnits(roots[i]);
  }

  /** With separated roots the gathering holds exactly the roots of one value. */
  lemma {:induction false} GatheredExact(roots: seq<Complex>, tol: real, i: nat, before: seq<bool>, j: nat)
    requires i < j <= |roots| == |before| && Separated(roots, tol) && FirstUnused(roots, i, before)
    ensures HoldsRoot(Gathered(roots, tol, i, before, j), roots, i, before, j)
    decreases j
  {
    hide Separated, Close, HoldsRoot, FirstUnused;
    if j == i + 1 {
      HoldsFirst(roots, i, before);
    } else {
      GatheredExact(roots, tol, i, before, j - 1);
      HoldsNext(Gathered(roots, tol, i, before, j - 1), roots, tol, i, before, j - 1);
    }
  }

  lemma {:induction false} CollectedExact(g: Gathering, root: Complex)
    requires g.count >= 1 && g.sum == Mul(OfReal(g.count as real), root)
    ensures Collected(g) == Cluster(root, g.count)
  {
    hide Mul, Inv;
    DivMul(root, OfReal(g.count as real));
  }

  /** Collects the roots close to root i into one cluster. */
  method CollectCluster(roots: seq<Complex>, tol: real, i: nat, before: seq<bool>)
    returns (c: Cluster, used: seq<bool>)
    requires i < |roots| == |before| && !before[i]
    ensures var g := Gathered(roots, tol, i, before, |roots|);
      c == Collected(g) && used == g.used
    ensures |used| == |roots| && c.mult >= 1 && CountTrue(used) == CountTrue(before) + c.mult
    ensures used[i] && forall k :: 0 <= k < |roots| && before[k] ==> used[k]
    ensures Separated(roots, tol) && FirstUnused(roots, i, before) ==>
      c == Cluster(roots[i], Multiplicity(roots[i], roots)) &&
      forall k :: 0 <= k < |roots| ==> used[k] == (before[k] || roots[k] == roots[i])
  {
    hide Mul, Inv, Separated, Close, Multiplicity, CountTrue, FirstUnused, Collected;
    var sum, cnt := roots[i], 1;
    used := before[i := true];
    var j := i + 1;
    while j < |roots|
      invariant i + 1 <= j <= |roots| && |used| == |roots| && cnt >= 1
      invariant Gathering(sum, cnt, used) == Gathered(roots, tol, i, before, j)
    {
      if !used[j] && Close(roots[j], roots[i], tol) {
        sum, cnt, used := Add(sum, roots[j]), cnt + 1, used[j := true];
      }
      j := j + 1;
    }
    c := Cluster(Div(sum, OfReal(cnt as real)), cnt);
    assert roots[..j] == roots;
    CollectedIs(Gathering(sum, cnt, used), c);
    GatheredCounts(roots, tol, i, before, j);
    if Separated(roots, tol) && FirstUnused(roots, i, before) {
      GatheredExact(roots, tol, i, before, j);
      CollectedExact(Gathering(sum, cnt, used), roots[i]);
    }
  }

  lemma {:induction false} CollectedIs(g: Gathering, c: Cluster)
    requires g.count >= 1 && c == Cluster(Div(g.sum, OfReal(g.count as real)), g.count)
    ensures c == Collected(g)
  {
  }

  lemma {:induction false} SeparatedClose(roots: seq<Complex>, tol: real, j: nat, i: nat)
    requires Separated(roots, tol) && i < |roots| && j < |roots|
    ensures Close(roots[j], roots[i], tol) <==> roots[j] == roots[i]
  {
    hide Close;
    CloseToItself(roots[i], tol);
  }

  lemma {:induction false} CloseToItself(a: Complex, tol: real)
    requires tol > 0.0
    ensures Close(a, a, tol)
  {
    hide Square;
    SquarePositive(tol);
    assert Sub(a, a) == ZERO;
    SquareZero();
  }

  lemma {:induction false} SquareZero()
    ensures Square(0.0) == 0.0
  {
  }

  lemma {:induction false} ClusteredCounts(roots: seq<Complex>, tol: real, i: nat)
    requires i <= |roots|
    ensures var c := Clustered(roots, tol, i);
      && Total(c.clusters) == CountTrue(c.used) && (forall k :: 0 <= k < i ==> c.used[k])
      && forall k :: 0 <= k < |c.clusters| ==> c.clusters[k].mult >= 1
  {
    hide Gathered, CountTrue, Inv, Clustered, Collected, Total;
    if i == 0 {
      StartClustered(roots, tol);
      CountExtremes(Clustered(roots, tol, 0).used);
    } else {
      ClusteredNext(roots, tol, i - 1);
      ClusteredCounts(roots, tol, i - 1);
      var c := Clustered(roots, tol, i - 1);
      if !c.used[i - 1] {
        CollectedCount(Gathered(roots, tol, i - 1, c.used, |roots|));
        var g := Gathered(roots, tol, i - 1, c.used, |roots|);
        GatheredCounts(roots, tol, i - 1, c.used, |roots|);
        TotalAppend(c.clusters, Collected(g));
      }
    }
  }

  lemma {:induction false} CollectedCount(g: Gathering)
    requires g.count >= 1
    ensures Collected(g).mult == g.count
  {
  }

  lemma {:induction false} StartClustered(roots: seq<Complex>, tol: real)
    ensures var c := Clustered(roots, tol, 0);
      c.clusters == [] && Total([]) == 0 && forall k :: 0 <= k < |roots| ==> !c.used[k]
  {
  }

  lemma {:induction false} TotalAppend(cl: seq<Cluster>, c: Cluster)
    ensures Total(cl + [c]) == Total(cl) + c.mult
  {
    assert (cl + [c])[..|cl|] == cl;
  }

  lemma {:induction false} NextUnused(roots: seq<Complex>, c: Clustering, i: nat)
    requires i < |roots| && UsedByClusters(c.used, c.clusters, roots) && !c.used[i]
    requires forall k :: 0 <= k < i ==> c.used[k]
    ensures FirstUnused(roots, i, c.used)
  {
  }

  lemma {:induction false} NoClusters(roots: seq<Complex>)
    ensures ExactClusters([], roots) && UsedByClusters(seq(|roots|, k => false), [], roots)
  {
  }

  lemma {:induction false} ClusteredExact(roots: seq<Complex>, tol: real, i: nat)
    requires i <= |roots| && Separated(roots, tol)
    ensures var c := Clustered(roots, tol, i);
      ExactClusters(c.clusters, roots) && UsedByClusters(c.used, c.clusters, roots)
  {
    hide Gathered, Separated, Collected, Multiplicity, Mul, ExactClusters, UsedByClusters, FirstUnused;
    if i == 0 {
      NoClusters(roots);
    } else {
      ClusteredExact(roots, tol, i - 1);
      ClusteredCounts(roots, tol, i - 1);
      var c := Clustered(roots, tol, i - 1);
      if !c.used[i - 1] {
        NextUnused(roots, c, i - 1);
        var g := Gathered(roots, tol, i - 1, c.used, |roots|);
        GatheredExact(roots, tol, i - 1, c.used, |roots|);
        assert roots[..|roots|] == roots;
        CollectedExact(g, roots[i - 1]);
        ClusterAdded(roots, c.clusters, c.used, i - 1, g.used);
      }
    }
  }

  lemma {:induction false} NoRootsClustered(roots: seq<Complex>, tol: real)
    requires |roots| == 0
    ensures Clustered(roots, tol, 0) == Clustering([], [])
  {
  }

  lemma {:induction false} ClusteredNext(roots: seq<Complex>, tol: real, i: nat)
    requires i < |roots|
    ensures var c := Clustered(roots, tol, i);
      Clustered(roots, tol, i + 1) ==
        if c.used[i] then c
        else
          var g := Gathered(roots, tol, i, c.used, |roots|);
          Clustering(c.clusters + [Collected(g)], g.used)
    ensures Clustered(roots, tol, 0) == Clustering([], seq(|roots|, k => false))
  {
    hide Gathered, Collected;
  }

  /** `cluster_lambdas`: the multiplicities always add up to the number of roots, and well
      separated roots are found exactly. */
  method ClusterLambdas(roots: seq<Complex>, tol: real) returns (out: seq<Cluster>)
    ensures out == Clustered(roots, tol, |roots|).clusters
    ensures Total(out) == |roots|
    ensures forall i :: 0 <= i < |out| ==> out[i].mult >= 1
    ensures Separated(roots, tol) ==> ExactClusters(out, roots)
  {
    hide Separated, Gathered, Collected, CountTrue, Clustered, Total, ExactClusters, Multiplicity, FirstUnused;
    out := [];
    var used := seq(|roots|, k => false);
    var i := 0;
    if |roots| > 0 {
      ClusteredNext(roots, tol, 0);
    }
    while i < |roots|
      invariant 0 <= i <= |roots| == |used|
      invariant |roots| > 0 ==> Clustering(out, used) == Clustered(roots, tol, i)
      invariant |roots| == 0 ==> out == []
    {
      ClusteredNext(roots, tol, i);
      if !used[i] {
        var c, used1 := CollectCluster(roots, tol, i, used);
        out, used := out + [c], used1;
      }
      i := i + 1;
    }
    if |roots| == 0 {
      NoRootsClustered(roots, tol);
    }
    ClusteredCounts(roots, tol, i);
    CountExtremes(used);
    if Separated(roots, tol) {
      ClusteredExact(roots, tol, i);
    }
  }

  lemma {:induction false} ClusterAdded(roots: seq<Complex>, cl: seq<Cluster>, before: seq<bool>, i: nat,
                                        used: seq<bool>)
    requires ExactClusters(cl, roots) && UsedByClusters(before, cl, roots) && i < |roots| && !before[i]
    requires |used| == |roots| && forall k :: 0 <= k < |roots| ==> used[k] == (before[k] || roots[k] == roots[i])
    ensures var cl' := cl + [Cluster(roots[i], Multiplicity(roots[i], roots))];
      ExactClusters(cl', roots) && UsedByClusters(used, cl', roots)
  {
    var cl' := cl + [Cluster(roots[i], Multiplicity(roots[i], roots))];
    forall k | 0 <= k < |roots|
      ensures used[k] <==> exists c :: 0 <= c < |cl'| && cl'[c].lambda == roots[k]
    {
      if before[k] {
        var c :| 0 <= c < |cl| && cl[c].lambda == roots[k];
        assert cl'[c].lambda == roots[k];
      }
      if roots[k] == roots[i] {
        assert cl'[|cl|].lambda == roots[k];
      }
    }
  }

  // ---------------------------------------------------------------- columns

  /** The columns a list of clusters stands for: each root with the powers below its
      multiplicity. */
  ghost function Columns(cl: seq<Cluster>): (cols: seq<Column>)
    ensures |cols| == Total(cl)
  {
    if cl == [] then []
    else Columns(cl[..|cl| - 1]) + seq(cl[|cl| - 1].mult, (s: nat) => Column(cl[|cl| - 1].lambda, s))
  }

  lemma {:induction false} ColumnsPrefix(cl: seq<Cluster>, i: nat)
    requires i <= |cl|
    ensures Columns(cl[..i]) <= Columns(cl)
  {
    if i < |cl| {
      assert cl[..|cl| - 1][..i] == cl[..i];
      ColumnsPrefix(cl[..|cl| - 1], i);
    } else {
      assert cl[..i] == cl;
    }
  }

  /** Where column (i, s) stands. */
  lemma {:induction false} ColumnAt(cl: seq<Cluster>, i: nat, s: nat)
    requires i < |cl| && s < cl[i].mult
    ensures Total(cl[..i]) + s < Total(cl)
    ensures Columns(cl)[Total(cl[..i]) + s] == Column(cl[i].lambda, s)
    ensures Total(cl[..i + 1]) == Total(cl[..i]) + cl[i].mult
  {
    ColumnsPrefix(cl, i + 1);
    assert cl[..i + 1][..i] == cl[..i];
  }

  /** Every column belongs to a cluster, the powers counting up inside it. */
  lemma {:induction false} ColumnOwner(cl: seq<Cluster>, j: nat) returns (i: nat)
    requires j < Total(cl)
    ensures i < |cl| && Total(cl[..i]) <= j < Total(cl[..i]) + cl[i].mult
    ensures Columns(cl)[j] == Column(cl[i].lambda, j - Total(cl[..i]))
  {
    var n := |cl| - 1;
    if j < Total(cl[..n]) {
      i := ColumnOwner(cl[..n], j);
      assert cl[..n][..i] == cl[..i];
      ColumnsPrefix(cl, n);
    } else {
      i := n;
    }
  }

  lemma {:induction false} TotalMonotone(cl: seq<Cluster>, i: nat, j: nat)
    requires i <= j <= |cl|
    ensures Total(cl[..i]) <= Total(cl[..j])
  {
    if i < j {
      TotalMonotone(cl, i, j - 1);
      assert cl[..j][..j - 1] == cl[..j - 1];
    }
  }

  lemma {:induction false} ExactColumns(cl: seq<Cluster>, roots: seq<Complex>)
    requires ExactClusters(cl, roots)
    ensures Covered(Columns(cl), roots) && Ordered(Columns(cl))
  {
    var cols := Columns(cl);
    forall j | 0 <= j < |cols|
      ensures cols[j].s < Multiplicity(cols[j].lambda, roots)
    {
      var i := ColumnOwner(cl, j);
    }
    forall p, q | 0 <= p < q < |cols| && cols[p].lambda == cols[q].lambda
      ensures cols[p].s < cols[q].s
    {
      var i := ColumnOwner(cl, p);
      var k := ColumnOwner(cl, q);
      assert i == k;
    }
  }

  ghost function ClusterOf(m: Mode): Cluster {
    Cluster(m.lambda, m.multiplicity)
  }

  ghost function ClustersOf(modes: seq<Mode>): seq<Cluster> {
    seq(|modes|, i requires 0 <= i < |modes| => ClusterOf(modes[i]))
  }

  ghost predicate WellFormed(modes: seq<Mode>) {
    forall i :: 0 <= i < |modes| ==> |modes[i].gamma| == modes[i].multiplicity
  }

  ghost function Weights(modes: seq<Mode>): seq<Complex> {
    if modes == [] then [] else Weights(modes[..|modes| - 1]) + modes[|modes| - 1].gamma
  }

  lemma {:induction false} WeightsCount(modes: seq<Mode>)
    requires WellFormed(modes)
    ensures |Weights(modes)| == Total(ClustersOf(modes))
  {
    if modes != [] {
      var n := |modes| - 1;
      WeightsCount(modes[..n]);
      assert ClustersOf(modes)[..n] == ClustersOf(modes[..n]);
    }
  }

  lemma {:induction false} WeightsPrefix(modes: seq<Mode>, i: nat)
    requires i <= |modes|
    ensures Weights(modes[..i]) <= Weights(modes)
  {
    if i < |modes| {
      assert modes[..|modes| - 1][..i] == modes[..i];
      WeightsPrefix(modes[..|modes| - 1], i);
    } else {
      assert modes[..i] == modes;
    }
  }

  lemma {:induction false} WeightAt(modes: seq<Mode>, i: nat, s: nat)
    requires WellFormed(modes) && i < |modes| && s < modes[i].multiplicity
    ensures Total(ClustersOf(modes)[..i]) + s < |Weights(modes)|
    ensures Weights(modes)[Total(ClustersOf(modes)[..i]) + s] == modes[i].gamma[s]
  {
    WeightsPrefix(modes, i + 1);
    assert modes[..i + 1][..i] == modes[..i];
    assert ClustersOf(modes)[..i] == ClustersOf(modes[..i]);
    WeightsCount(modes[..i]);
  }

  /** The mode sum as a sequence over the horizons. */
  ghost function SpectrumSequence(modes: seq<Mode>): nat -> Complex {
    ModeCombination(Columns(ClustersOf(modes)), Weights(modes))
  }

  // ---------------------------------------------------------------- evaluation

  /** `eval_spectral_modes` on the horizons 0..H. */
  method EvalSpectral(sd: Spectrum, H: nat) returns (u: seq<Complex>)
    requires WellFormed(sd.modes)
    ensures |u| == H + 1
    ensures forall h: nat :: h <= H ==> u[h] == SpectrumSequence(sd.modes)(h)
  {
    u := ZeroVector(H + 1);
    var h := 0;
    while h <= H
      invariant 0 <= h <= H + 1 && |u| == H + 1
      invariant forall k: nat :: k < h ==> u[k] == SpectrumSequence(sd.modes)(k)
    {
      var acc := ModeSum(sd.modes, h);
      u := u[h := acc];
      h := h + 1;
    }
  }

  method ModeSum(modes: seq<Mode>, h: nat) returns (acc: Complex)
    requires WellFormed(modes)
    ensures acc == SpectrumSequence(modes)(h)
  {
    hide Mul, ModeValue, Columns, Weights, Total;
    ghost var cl, cols, gamma := ClustersOf(modes), Columns(ClustersOf(modes)), Weights(modes);
    acc := ZERO;
    var i := 0;
    TotalEmpty(cl);
    while i < |modes|
      invariant 0 <= i <= |modes| && acc == Sum(Total(cl[..i]), ModeTerms(cols, gamma, h))
    {
      var s := 0;
      while s < modes[i].multiplicity
        invariant 0 <= s <= modes[i].multiplicity
        invariant acc == Sum(Total(cl[..i]) + s, ModeTerms(cols, gamma, h))
      {
        var w := ModeFactor(modes[i].lambda, s, h);
        ColumnAt(cl, i, s);
        WeightAt(modes, i, s);
        SumStep(Total(cl[..i]) + s, ModeTerms(cols, gamma, h));
        acc := Add(acc, Mul(modes[i].gamma[s], w));
        s := s + 1;
      }
      TotalStep(cl, i);
      i := i + 1;
    }
    assert cl[..i] == cl;
  }

  lemma {:induction false} TotalEmpty(cl: seq<Cluster>)
    ensures Total(cl[..0]) == 0
  {
  }

  lemma {:induction false} TotalStep(cl: seq<Cluster>, i: nat)
    requires i < |cl|
    ensures Total(cl[..i + 1]) == Total(cl[..i]) + cl[i].mult
  {
    assert cl[..i + 1][..i] == cl[..i];
  }

  // ---------------------------------------------------------------- factorization

  function Reversed(s: seq<Complex>): (r: seq<Complex>)
    ensures |r| == |s| && forall k: nat :: k < |s| ==> r[k] == s[|s| - 1 - k]
  {
    seq(|s|, k requires 0 <= k < |s| => s[|s| - 1 - k])
  }

  /** max(tol * 100, 1e-7). */
  function ClusterTolerance(tol: real): real {
    if tol * 100.0 > 0.0000001 then tol * 100.0 else 0.0000001
  }

  /** An exact root list: the reversed denominator is the product of (x - mu), no root is 0,
      and different roots are further apart than the clustering tolerance. */
  ghost predicate ExactRoots(rm: Rational, roots: seq<Complex>, tol: real) {
    && |rm.Q| == |roots| + 1 && |roots| >= 1 && |rm.P| <= |roots| && rm.Q[0] != ZERO
    && MonicPoly(roots) == Reversed(rm.Q)
    && (forall i :: 0 <= i < |roots| ==> roots[i] != ZERO)
    && Separated(roots, ClusterTolerance(tol))
  }

  /** Row h of the confluent system. */
  ghost function ConfluentRow(cols: seq<Column>, h: nat): (row: Vector)
    ensures |row| == |cols| && forall j :: 0 <= j < |cols| ==> row[j] == ModeValue(cols[j].lambda, cols[j].s, h)
  {
    seq(|cols|, j requires 0 <= j < |cols| => ModeValue(cols[j].lambda, cols[j].s, h))
  }

  /** The confluent matrix of the first |cols| horizons. */
  ghost function Confluent(cols: seq<Column>): (A: Matrix)
    ensures IsSquare(A, |cols|) && forall h: nat :: h < |cols| ==> A[h] == ConfluentRow(cols, h)
  {
    seq(|cols|, (h: nat) => ConfluentRow(cols, h))
  }

  lemma {:induction false} ConfluentDot(cols: seq<Column>, gamma: Vector, h: nat)
    requires |gamma| == |cols|
    ensures Dot(ConfluentRow(cols, h), gamma) == ModeCombination(cols, gamma)(h)
  {
    hide Mul, ModeValue;
    var row := ConfluentRow(cols, h);
    forall j: nat | j < |cols|
      ensures Products(row, gamma)(j) == ModeTerms(cols, gamma, h)(j)
    {
      MulComm(row[j], gamma[j]);
    }
    SumCongruence(|cols|, Products(row, gamma), ModeTerms(cols, gamma, h));
  }

  /** Coefficient h + r of Q f is the reversed Q, as an operator, applied to f at h. */
  lemma {:induction false} ConvolutionIsOperator(Q: seq<Complex>, f: nat -> Complex, h: nat)
    requires |Q| > 0
    ensures Convolution(Samples(Q), f, h + |Q| - 1) == Operator(Reversed(Q), f, h)
  {
    hide Mul, Convolution, ProductTerms, OperatorTerms;
    var N := h + |Q| - 1;
    TruncatedProduct(Q, f, N);
    var a, b := OperatorTerms(Reversed(Q), f, h), ProductTerms(Samples(Q), f, N);
    forall k: nat | k < |Q|
      ensures b(k) == a(|Q| - 1 - k)
    {
      ReversedOperatorTerm(Q, f, h, k);
    }
    SumReverse(|Q|, a, b);
  }

  lemma {:induction false} ReversedOperatorTerm(Q: seq<Complex>, f: nat -> Complex, h: nat, k: nat)
    requires k < |Q|
    ensures ProductTerms(Samples(Q), f, h + |Q| - 1)(k) == OperatorTerms(Reversed(Q), f, h)(|Q| - 1 - k)
  {
    hide Mul;
    assert h + |Q| - 1 - k == h + (|Q| - 1 - k);
    assert Reversed(Q)[|Q| - 1 - k] == Q[k];
  }

  /** Beyond its numerator, the rational function and every combination of its modes obey
      the same recurrence. */
  lemma {:induction false} CombinationConvolves(rm: Rational, roots: seq<Complex>, tol: real, cols: seq<Column>,
                                                gamma: Vector, n: nat)
    requires ExactRoots(rm, roots, tol) && Covered(cols, roots) && |gamma| == |cols| && n >= |roots|
    ensures Convolution(Samples(rm.Q), ModeCombination(cols, gamma), n) == ZERO
  {
    hide Mul, ModeValue, Convolution, Operator, ModeCombination, MonicPoly, Covered;
    ConvolutionIsOperator(rm.Q, ModeCombination(cols, gamma), n - |roots|);
    CombinationAnnihilated(roots, cols, gamma, n - |roots|);
  }

  /** A combination that matches the series on the first r horizons divides like it. */
  lemma {:induction false} CombinationDivides(rm: Rational, roots: seq<Complex>, tol: real, cols: seq<Column>,
                                              gamma: Vector, u: nat -> Complex, n: nat)
    requires ExactRoots(rm, roots, tol) && Covered(cols, roots) && |gamma| == |cols|
    requires forall h: nat :: h < |roots| ==> ModeCombination(cols, gamma)(h) == u(h) && Divides(rm, u, h)
    ensures Divides(rm, ModeCombination(cols, gamma), n)
  {
    hide ModeCombination, ExactRoots, Convolution, Covered;
    if n < |roots| {
      DividesPrefix(rm, u, ModeCombination(cols, gamma), n);
    } else {
      CombinationConvolves(rm, roots, tol, cols, gamma, n);
      NumeratorEnds(rm, roots, tol, n);
    }
  }

  lemma {:induction false} NumeratorEnds(rm: Rational, roots: seq<Complex>, tol: real, n: nat)
    requires ExactRoots(rm, roots, tol) && n >= |roots|
    ensures Samples(rm.P)(n) == ZERO
  {
  }

  /** Main result: with exact roots, weights that match the first r samples make the mode sum
      equal to the long division at every horizon. */
  lemma {:induction false} SpectralEqualsRational(rm: Rational, roots: seq<Complex>, tol: real, cols: seq<Column>,
                                                  gamma: Vector, u: nat -> Complex, h: nat)
    requires ExactRoots(rm, roots, tol) && Covered(cols, roots) && |gamma| == |cols|
    requires forall k: nat :: Divides(rm, u, k)
    requires forall k: nat :: k < |roots| ==> ModeCombination(cols, gamma)(k) == u(k)
    ensures ModeCombination(cols, gamma)(h) == u(h)
  {
    hide ModeCombination, Divides, Covered;
    forall n: nat | n <= h
      ensures Divides(rm, ModeCombination(cols, gamma), n)
    {
      CombinationDivides(rm, roots, tol, cols, gamma, u, n);
    }
    DivisionUnique(rm, ModeCombination(cols, gamma), u, h);
  }

  /** The confluent system of exact roots is nonsingular, so its solution never fails. */
  lemma {:induction false} ConfluentNonsingular(rm: Rational, roots: seq<Complex>, tol: real, cols: seq<Column>)
    requires ExactRoots(rm, roots, tol) && Covered(cols, roots) && Ordered(cols) && |cols| == |roots|
    ensures !Singular(Confluent(cols))
  {
    hide ModeCombination, Divides, Covered, Ordered, MonicPoly, Separated;
    var A := Confluent(cols);
    if Singular(A) {
      var gamma: Vector :| |gamma| == |A| && InKernel(A, gamma) && NonZero(gamma);
      var rm0 := Rational([], rm.Q);
      var zero: nat -> Complex := (k: nat) => ZERO;
      assert ExactRoots(rm0, roots, tol);
      forall k: nat
        ensures Divides(rm0, zero, k)
      {
        ZeroDivides(rm.Q, zero, k);
      }
      forall k: nat | k < |roots|
        ensures ModeCombination(cols, gamma)(k) == zero(k)
      {
        assert SolvesRow(A, ZeroVector(|A|), gamma, k);
        ConfluentDot(cols, gamma, k);
      }
      forall h: nat
        ensures ModeCombination(cols, gamma)(h) == ZERO
      {
        SpectralEqualsRational(rm0, roots, tol, cols, gamma, zero, h);
      }
      ModesIndependent(roots, cols, gamma);
    }
  }

  lemma {:induction false} ZeroDivides(Q: seq<Complex>, zero: nat -> Complex, n: nat)
    requires forall k: nat :: zero(k) == ZERO
    ensures Divides(Rational([], Q), zero, n)
  {
    hide Mul;
    var f := ProductTerms(Samples(Q), zero, n);
    forall k: nat | k < n + 1
      ensures f(k) == ZERO
    {
      MulUnits(Samples(Q)(k));
    }
    SumZero(n + 1, f);
  }

  // ---------------------------------------------------------------- the factorization loop

  method FillConfluentRow(cl: seq<Cluster>, h: nat, A: array2<Complex>)
    requires A.Length0 == A.Length1 == Total(cl) && h < A.Length0
    modifies A
    ensures RowAt(A, h) == ConfluentRow(Columns(cl), h)
    ensures forall i: nat :: i < A.Length0 && i != h ==> RowAt(A, i) == old(RowAt(A, i))
  {
    hide ModeValue, Columns, Total;
    var col := 0;
    var i := 0;
    TotalEmpty(cl);
    while i < |cl|
      invariant 0 <= i <= |cl| && col == Total(cl[..i]) <= A.Length0
      invariant RowFilled(A, h, cl, col)
      invariant forall p, q :: 0 <= p < A.Length0 && p != h && 0 <= q < A.Length1 ==> A[p, q] == old(A[p, q])
    {
      TotalStep(cl, i);
      TotalMonotone(cl, i + 1, |cl|);
      assert cl[..|cl|] == cl;
      var s := 0;
      while s < cl[i].mult
        invariant 0 <= s <= cl[i].mult && col == Total(cl[..i]) + s
        invariant RowFilled(A, h, cl, col)
        invariant forall p, q :: 0 <= p < A.Length0 && p != h && 0 <= q < A.Length1 ==> A[p, q] == old(A[p, q])
      {
        ColumnAt(cl, i, s);
        var w := ModeFactor(cl[i].lambda, s, h);
        A[h, col] := w;
        col := col + 1;
        s := s + 1;
      }
      i := i + 1;
    }
    assert cl[..i] == cl;
    forall p: nat | p < A.Length0 && p != h
      ensures RowAt(A, p) == old(RowAt(A, p))
    {
    }
  }

  /** The first `col` entries of row h are in place. */
  ghost predicate RowFilled(A: array2<Complex>, h: nat, cl: seq<Cluster>, col: nat)
    requires A.Length0 == A.Length1 == Total(cl) && h < A.Length0
    reads A
  {
    col <= A.Length1 &&
    forall j :: 0 <= j < col ==> A[h, j] == ModeValue(Columns(cl)[j].lambda, Columns(cl)[j].s, h)
  }

  method FillConfluent(cl: seq<Cluster>) returns (A: array2<Complex>)
    ensures fresh(A) && A.Length0 == A.Length1 == Total(cl) && Rows(A) == Confluent(Columns(cl))
  {
    hide ModeValue, Columns, ConfluentRow;
    var m := ComputeTotal(cl);
    A := new Complex[m, m]((i, j) => ZERO);
    var h := 0;
    while h < m
      invariant 0 <= h <= m
      invariant forall k: nat :: k < h ==> RowAt(A, k) == ConfluentRow(Columns(cl), k)
    {
      FillConfluentRow(cl, h, A);
      h := h + 1;
    }
  }

  method ComputeTotal(cl: seq<Cluster>) returns (sum: nat)
    ensures sum == Total(cl)
  {
    sum := 0;
    var i := 0;
    while i < |cl|
      invariant 0 <= i <= |cl| && sum == Total(cl[..i])
    {
      TotalStep(cl, i);
      sum := sum + cl[i].mult;
      i := i + 1;
    }
    assert cl[..i] == cl;
  }

  lemma {:induction false} ModeAppended(modes: seq<Mode>, m: Mode)
    requires WellFormed(modes) && |m.gamma| == m.multiplicity
    ensures WellFormed(modes + [m]) && ClustersOf(modes + [m]) == ClustersOf(modes) + [ClusterOf(m)]
    ensures Weights(modes + [m]) == Weights(modes) + m.gamma
  {
    assert (modes + [m])[..|modes|] == modes;
  }

  lemma {:induction false} NoModesYet()
    ensures WellFormed([]) && ClustersOf([]) == [] && Weights([]) == []
  {
  }

  /** Splits the solution into one weight vector per cluster. */
  method AssembleModes(cl: seq<Cluster>, b: seq<Complex>) returns (modes: seq<Mode>)
    requires |b| == Total(cl)
    ensures WellFormed(modes) && ClustersOf(modes) == cl && Weights(modes) == b
  {
    hide WellFormed, ClustersOf, Weights, Total;
    modes := [];
    NoModesYet();
    TotalEmpty(cl);
    var col := 0;
    var i := 0;
    while i < |cl|
      invariant 0 <= i <= |cl| && col == Total(cl[..i]) <= |b|
      invariant WellFormed(modes) && ClustersOf(modes) == cl[..i] && Weights(modes) == b[..col]
    {
      TotalStep(cl, i);
      TotalMonotone(cl, i + 1, |cl|);
      assert cl[..|cl|] == cl;
      var gamma := b[col..col + cl[i].mult];
      ModeAppended(modes, Mode(cl[i].lambda, cl[i].mult, gamma));
      assert cl[..i + 1] == cl[..i] + [cl[i]];
      assert b[..col] + gamma == b[..col + cl[i].mult];
      modes := modes + [Mode(cl[i].lambda, cl[i].mult, gamma)];
      col := col + cl[i].mult;
      i := i + 1;
    }
    assert cl[..i] == cl;
  }

  /** One cluster per listed root, repeated or not. */
  ghost function Singles(roots: seq<Complex>): (cl: seq<Cluster>)
    ensures |cl| == |roots| && forall k :: 0 <= k < |roots| ==> cl[k] == Cluster(roots[k], 1)
  {
    seq(|roots|, k requires 0 <= k < |roots| => Cluster(roots[k], 1))
  }

  method SimpleClusters(roots: seq<Complex>) returns (cl: seq<Cluster>)
    ensures Total(cl) == |roots| && cl == Singles(roots)
  {
    cl := [];
    var i := 0;
    while i < |roots|
      invariant 0 <= i <= |roots| && Total(cl) == i == |cl|
      invariant forall k :: 0 <= k < i ==> cl[k] == Cluster(roots[k], 1)
    {
      TotalAppend(cl, Cluster(roots[i], 1));
      cl := cl + [Cluster(roots[i], 1)];
      i := i + 1;
    }
  }

  /** The clusters the factorization works with: those of the clustering if they account for
      the whole denominator, and single roots otherwise. */
  ghost function UsedClusters(rm: Rational, roots: seq<Complex>, tol: real): seq<Cluster> {
    var cl := Clustered(roots, ClusterTolerance(tol), |roots|).clusters;
    if Total(cl) == |rm.Q| - 1 then cl else Singles(roots)
  }

  /** The confluent system of these clusters can be solved, or there is none. */
  ghost predicate Factorable(rm: Rational, roots: seq<Complex>, tol: real) {
    |rm.Q| <= 1 || |roots| == 0 || !Singular(Confluent(Columns(UsedClusters(rm, roots, tol))))
  }

  /** The modes are those clusters with the weights that solve the system. */
  ghost predicate Factored(sp: Spectrum, rm: Rational, roots: seq<Complex>, tol: real) {
    && Factorable(rm, roots, tol) && sp.r == |rm.Q| - 1 && WellFormed(sp.modes)
    && if |rm.Q| <= 1 || |roots| == 0 then sp.modes == []
       else
         && ClustersOf(sp.modes) == UsedClusters(rm, roots, tol)
         && SolvesSeries(Columns(ClustersOf(sp.modes)), Weights(sp.modes), rm)
  }

  /** The weights reproduce as many terms of the series as there are columns. */
  ghost predicate SolvesSeries(cols: seq<Column>, gamma: Vector, rm: Rational) {
    exists b: Vector ::
      Solves(Confluent(cols), b, gamma) && forall n: nat :: n < |b| ==> b[n] == Series(rm)(n)
  }

  /** The result is the only one of its kind. */
  lemma {:induction false} FactoredOnce(sp: Spectrum, sq: Spectrum, rm: Rational, roots: seq<Complex>, tol: real)
    requires Factored(sp, rm, roots, tol) && Factored(sq, rm, roots, tol)
    ensures sp == sq
  {
    hide Columns, Weights, UsedClusters, Singular, Confluent, Solves, Series, WellFormed, ClustersOf;
    if |rm.Q| > 1 && |roots| > 0 {
      var cols := Columns(ClustersOf(sp.modes));
      var b: Vector :|
        Solves(Confluent(cols), b, Weights(sp.modes)) && forall n: nat :: n < |b| ==> b[n] == Series(rm)(n);
      var c: Vector :|
        Solves(Confluent(cols), c, Weights(sq.modes)) && forall n: nat :: n < |c| ==> c[n] == Series(rm)(n);
      SolutionSizes(Confluent(cols), b, Weights(sp.modes));
      SolutionSizes(Confluent(cols), c, Weights(sq.modes));
      assert b == c;
      SolutionUnique(Confluent(cols), b, Weights(sp.modes), Weights(sq.modes));
      ModesDetermined(sp.modes, sq.modes);
    }
  }

  lemma {:induction false} SolutionSizes(A: Matrix, b: Vector, x: Vector)
    requires Solves(A, b, x)
    ensures |b| == |x| == |A|
  {
  }

  /** Clusters and weights say everything about the modes. */
  lemma {:induction false} ModesDetermined(x: seq<Mode>, y: seq<Mode>)
    requires WellFormed(x) && WellFormed(y) && ClustersOf(x) == ClustersOf(y) && Weights(x) == Weights(y)
    ensures x == y
  {
    if |x| == 0 {
      assert |ClustersOf(y)| == 0;
    } else {
      var n := |x| - 1;
      assert |ClustersOf(x)| == |x| && |ClustersOf(y)| == |y|;
      assert ClustersOf(x)[n] == ClustersOf(y)[n];
      assert ClustersOf(x[..n]) == ClustersOf(x)[..n] && ClustersOf(y[..n]) == ClustersOf(y)[..n];
      var a, b := Weights(x[..n]), Weights(y[..n]);
      assert |x[n].gamma| == |y[n].gamma|;
      assert (a + x[n].gamma)[..|a|] == a && (b + y[n].gamma)[..|b|] == b;
      assert (a + x[n].gamma)[|a|..] == x[n].gamma && (b + y[n].gamma)[|b|..] == y[n].gamma;
      ModesDetermined(x[..n], y[..n]);
      assert x == x[..n] + [x[n]] && y == y[..n] + [y[n]];
    }
  }

  /** `factor_rational`.  It succeeds exactly when its confluent system is nonsingular. */
  method FactorRational(rm: Rational, roots: seq<Complex>, tol: real) returns (out: Result<Spectrum>)
    ensures out.Ok? <==> Factorable(rm, roots, tol)
    ensures out.Ok? ==> Factored(out.value, rm, roots, tol)
    ensures out.Ok? ==> WellFormed(out.value.modes) && out.value.r == |rm.Q| - 1
    ensures |rm.Q| <= 1 || |roots| == 0 ==> out.Ok? && out.value.modes == []
    ensures out.Ok? && |rm.Q| > 1 ==>
      forall k: nat :: k < |roots| ==> SpectrumSequence(out.value.modes)(k) == Series(rm)(k)
    ensures ExactRoots(rm, roots, tol) ==>
      out.Ok? && forall h: nat :: SpectrumSequence(out.value.modes)(h) == Series(rm)(h)
  {
    hide Mul, Inv, ModeValue, Columns, Total, Weights, Singular, Solves, Separated, MonicPoly, SeriesPrefix,
         ModeCombination, Convolution, Multiplicity, ExactRoots, Confluent, ClustersOf, Clustered, Series;
    var r := |rm.Q| - 1;
    RootsCount(rm, roots, tol);
    if r <= 0 {
      return Ok(Spectrum(r, []));
    }
    var cl := ClusterLambdas(roots, ClusterTolerance(tol));
    var sumMu := ComputeTotal(cl);
    if sumMu != r {
      cl := SimpleClusters(roots);
      sumMu := |roots|;
      if sumMu == 0 {
        return Ok(Spectrum(r, []));
      }
    }
    assert cl == UsedClusters(rm, roots, tol);
    var seed := EvalRational(rm, sumMu - 1);
    var A := FillConfluent(cl);
    var b := FillVector(seed);
    if ExactRoots(rm, roots, tol) {
      ExactSystem(rm, roots, tol, cl);
    }
    var ok := SolveLinear(A, b);
    if !ok {
      return NumericError;
    }
    var modes := AssembleModes(cl, b[..]);
    SolutionMatches(rm, Columns(cl), b[..], seed);
    assert SolvesSeries(Columns(cl), Weights(modes), rm);
    if ExactRoots(rm, roots, tol) {
      forall k: nat
        ensures ModeCombination(Columns(cl), b[..])(k) == Series(rm)(k)
      {
        ExactMatches(rm, roots, tol, cl, b[..], k);
      }
    }
    out := Ok(Spectrum(r, modes));
  }

  method FillVector(seed: seq<Complex>) returns (b: array<Complex>)
    ensures fresh(b) && b[..] == seed
  {
    b := new Complex[|seed|](i => ZERO);
    var h := 0;
    while h < |seed|
      invariant 0 <= h <= |seed| == b.Length && forall k :: 0 <= k < h ==> b[k] == seed[k]
    {
      b[h] := seed[h];
      h := h + 1;
    }
  }

  lemma {:induction false} RootsCount(rm: Rational, roots: seq<Complex>, tol: real)
    ensures ExactRoots(rm, roots, tol) ==> |rm.Q| == |roots| + 1 && |roots| >= 1 && !Degenerate(rm)
    ensures ExactRoots(rm, roots, tol) ==> Separated(roots, ClusterTolerance(tol))
  {
    hide MonicPoly, Separated;
  }

  lemma {:induction false} ExactSystem(rm: Rational, roots: seq<Complex>, tol: real, cl: seq<Cluster>)
    requires ExactRoots(rm, roots, tol) && ExactClusters(cl, roots) && Total(cl) == |roots|
    ensures !Singular(Confluent(Columns(cl)))
  {
    hide MonicPoly, Separated, Columns, Total, Singular;
    ExactColumns(cl, roots);
    ConfluentNonsingular(rm, roots, tol, Columns(cl));
  }

  /** A solution of the confluent system matches the seed samples, which are the series. */
  lemma {:induction false} SolutionMatches(rm: Rational, cols: seq<Column>, gamma: Vector, seed: seq<Complex>)
    requires Solves(Confluent(cols), seed, gamma) && |seed| == |cols|
    requires forall n: nat :: n < |seed| ==> seed[n] == Series(rm)(n)
    ensures forall k: nat :: k < |cols| ==> ModeCombination(cols, gamma)(k) == Series(rm)(k)
  {
    hide ModeCombination, Series, ConfluentRow;
    forall k: nat | k < |cols|
      ensures ModeCombination(cols, gamma)(k) == Series(rm)(k)
    {
      assert SolvesRow(Confluent(cols), seed, gamma, k);
      ConfluentDot(cols, gamma, k);
    }
  }

  lemma {:induction false} ExactMatches(rm: Rational, roots: seq<Complex>, tol: real, cl: seq<Cluster>, gamma: Vector,
                                        h: nat)
    requires !Degenerate(rm) && ExactRoots(rm, roots, tol) && ExactClusters(cl, roots)
    requires Total(cl) == |roots| == |gamma|
    requires forall k: nat :: k < |roots| ==> ModeCombination(Columns(cl), gamma)(k) == Series(rm)(k)
    ensures ModeCombination(Columns(cl), gamma)(h) == Series(rm)(h)
  {
    hide ModeCombination, Divides, SeriesPrefix, Columns, Total, ExactRoots, Covered, Ordered;
    ExactColumns(cl, roots);
    forall k: nat
      ensures Divides(rm, Series(rm), k)
    {
      SeriesDivides(rm, k);
    }
    SpectralEqualsRational(rm, roots, tol, Columns(cl), gamma, Series(rm), h);
  }
}
