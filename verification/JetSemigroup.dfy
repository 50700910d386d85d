/** Translation of truncated jets (src/math/semigroup.cpp) and their evaluation
    (src/engine/jet_engine.cpp). */
module JetSemigroup {
  import opened ComplexField
  import opened Combinatorics
  import opened MultiIndex
  import opened JetLattice
  import opened Modes

  // ---------------------------------------------------------------- one axis

  /** The weight C(a, b) h^{a-b} with which degree a contributes to degree b. */
  ghost function AxisWeight(a: nat, b: nat, h: Complex): Complex {
    ModeValue(h, b, a)
  }

  /** The paths from degree a to degree b through g. */
  ghost function PathTerms(a: nat, b: nat, h1: Complex, h2: Complex): nat -> Complex {
    (g: nat) => Mul(AxisWeight(a, g, h1), AxisWeight(g, b, h2))
  }

  ghost function Lower(a: nat, b: nat, h: Complex): Complex {
    if b == 0 then ZERO else AxisWeight(a, b - 1, h)
  }

  /** Splitting the first step of a path: (x + h1) is multiplied out. */
  ghost function RaisedPaths(a: nat, b: nat, h1: Complex, h2: Complex): nat -> Complex {
    (g: nat) => Mul(Lower(a, g, h1), AxisWeight(g, b, h2))
  }

  ghost function LowerPaths(a: nat, b: nat, h1: Complex, h2: Complex): nat -> Complex {
    (g: nat) => Mul(AxisWeight(a, g, h1), Lower(g, b, h2))
  }

  lemma {:induction false} PathSplit(a: nat, b: nat, h1: Complex, h2: Complex, g: nat)
    ensures PathTerms(a + 1, b, h1, h2)(g)
         == Add(RaisedPaths(a, b, h1, h2)(g), Mul(h1, PathTerms(a, b, h1, h2)(g)))
  {
    hide Mul, ModeValue;
    ModeStep(h1, g, a);
    MulAdd(AxisWeight(g, b, h2), Lower(a, g, h1), Mul(h1, AxisWeight(a, g, h1)));
    MulAssoc(h1, AxisWeight(a, g, h1), AxisWeight(g, b, h2));
  }

  lemma {:induction false} RaisedSplit(a: nat, b: nat, h1: Complex, h2: Complex, g: nat)
    ensures RaisedPaths(a, b, h1, h2)(g + 1)
         == Add(LowerPaths(a, b, h1, h2)(g), Mul(h2, PathTerms(a, b, h1, h2)(g)))
  {
    hide Mul, ModeValue;
    ModeStep(h2, b, g);
    MulAdd(AxisWeight(a, g, h1), Lower(g, b, h2), Mul(h2, AxisWeight(g, b, h2)));
    MulLeftComm(AxisWeight(a, g, h1), h2, AxisWeight(g, b, h2));
  }

  lemma {:induction false} NoWeight(a: nat, g: nat, h: Complex)
    requires g > a
    ensures AxisWeight(a, g, h) == ZERO
  {
  }

  ghost function ScaledPaths(c: Complex, a: nat, b: nat, h1: Complex, h2: Complex): nat -> Complex {
    (g: nat) => Mul(c, PathTerms(a, b, h1, h2)(g))
  }

  lemma {:induction false} PathSumSplit(a: nat, b: nat, h1: Complex, h2: Complex)
    ensures Sum(a + 2, PathTerms(a + 1, b, h1, h2))
         == Add(Sum(a + 2, RaisedPaths(a, b, h1, h2)), Mul(h1, Sum(a + 1, PathTerms(a, b, h1, h2))))
  {
    hide Mul, ModeValue, AxisWeight, RaisedPaths;
    var paths, raised, scaled := PathTerms(a, b, h1, h2), RaisedPaths(a, b, h1, h2), ScaledPaths(h1, a, b, h1, h2);
    forall g: nat | g < a + 2
      ensures PathTerms(a + 1, b, h1, h2)(g) == Add(raised(g), scaled(g))
    {
      PathSplit(a, b, h1, h2, g);
    }
    SumAdd(a + 2, raised, scaled, PathTerms(a + 1, b, h1, h2));
    SumScale(a + 2, h1, paths, scaled);
    NoWeight(a, a + 1, h1);
    MulUnits(AxisWeight(a + 1, b, h2));
    SumTruncate(a + 1, a + 2, paths);
  }

  lemma {:induction false} RaisedSumSplit(a: nat, b: nat, h1: Complex, h2: Complex)
    ensures Sum(a + 2, RaisedPaths(a, b, h1, h2))
         == Add(Sum(a + 1, LowerPaths(a, b, h1, h2)), Mul(h2, Sum(a + 1, PathTerms(a, b, h1, h2))))
  {
    hide Mul, ModeValue, AxisWeight, PathTerms, LowerPaths;
    var paths, raised, lower := PathTerms(a, b, h1, h2), RaisedPaths(a, b, h1, h2), LowerPaths(a, b, h1, h2);
    var scaled := ScaledPaths(h2, a, b, h1, h2);
    var up := (g: nat) => raised(g + 1);
    SumFirst(a + 2, raised, up);
    MulUnits(AxisWeight(0, b, h2));
    forall g: nat | g < a + 1
      ensures up(g) == Add(lower(g), scaled(g))
    {
      RaisedSplit(a, b, h1, h2, g);
    }
    SumAdd(a + 1, lower, scaled, up);
    SumScale(a + 1, h2, paths, scaled);
  }

  /** The recurrence of the path sums in a. */
  lemma {:induction false} PathSumStep(a: nat, b: nat, h1: Complex, h2: Complex)
    ensures Sum(a + 2, PathTerms(a + 1, b, h1, h2))
         == Add(Sum(a + 1, LowerPaths(a, b, h1, h2)), Mul(Add(h1, h2), Sum(a + 1, PathTerms(a, b, h1, h2))))
  {
    hide Mul, PathTerms, LowerPaths, RaisedPaths, Sum;
    PathSumSplit(a, b, h1, h2);
    RaisedSumSplit(a, b, h1, h2);
    MulAdd(Sum(a + 1, PathTerms(a, b, h1, h2)), h1, h2);
  }

  /** Two shifts along one axis: the paths from a to b add up to the weight for h1 + h2. */
  lemma {:induction false} AxisGroup(a: nat, b: nat, h1: Complex, h2: Complex)
    ensures Sum(a + 1, PathTerms(a, b, h1, h2)) == AxisWeight(a, b, Add(h1, h2))
    decreases a
  {
    hide Mul, ModeValue;
    if a == 0 {
      AxisGroupZero(b, h1, h2);
    } else {
      PathSumStep(a - 1, b, h1, h2);
      AxisGroup(a - 1, b, h1, h2);
      if b > 0 {
        AxisGroup(a - 1, b - 1, h1, h2);
        SumCongruence(a, LowerPaths(a - 1, b, h1, h2), PathTerms(a - 1, b - 1, h1, h2));
      } else {
        var lower := LowerPaths(a - 1, b, h1, h2);
        forall g: nat | g < a
          ensures lower(g) == ZERO
        {
          MulUnits(AxisWeight(a - 1, g, h1));
        }
        SumZero(a, lower);
      }
      ModeStep(Add(h1, h2), b, a - 1);
    }
  }

  lemma {:induction false} AxisGroupZero(b: nat, h1: Complex, h2: Complex)
    ensures Sum(1, PathTerms(0, b, h1, h2)) == AxisWeight(0, b, Add(h1, h2))
  {
    hide Mul;
    MulUnits(ONE);
    SumStep(0, PathTerms(0, b, h1, h2));
    assert Sum(0, PathTerms(0, b, h1, h2)) == ZERO;
    MulUnits(AxisWeight(0, b, h2));
  }

  lemma {:induction false} AxisIdentity(a: nat, b: nat)
    ensures AxisWeight(a, b, ZERO) == if a == b then ONE else ZERO
  {
    hide Mul;
    if b == a {
      ChooseAll(a);
      MulUnits(ONE);
    } else if b < a {
      MulUnits(Pow(ZERO, a - b - 1));
      MulUnits(OfReal(Choose(a, b) as real));
    }
  }

  // ---------------------------------------------------------------- all axes

  ghost function BoxWeight(a: Index, b: Index, h: Complex): Complex
    requires |a| == |b|
  {
    if a == [] then ONE else Mul(AxisWeight(a[0], b[0], h), BoxWeight(a[1..], b[1..], h))
  }

  /** The paths from a to b, one intermediate index at a time. */
  ghost function BoxPaths(a: Index, b: Index, h1: Complex, h2: Complex): Index -> Complex
    requires |a| == |b|
  {
    (g: Index) => if |g| == |a| then Mul(BoxWeight(a, g, h1), BoxWeight(g, b, h2)) else ZERO
  }

  /** The slice of the paths whose first axis passes through v. */
  lemma {:induction false} PathSlice(a: Index, b: Index, h1: Complex, h2: Complex, q: nat, r: nat, v: nat)
    requires InSimplex(a, q, r) && |b| == q > 0 && v <= r
    requires v <= a[0] ==>
      SumList(Simplex(q - 1, r - v), BoxPaths(a[1..], b[1..], h1, h2)) == BoxWeight(a[1..], b[1..], Add(h1, h2))
    ensures SliceSums(q, r, BoxPaths(a, b, h1, h2))(v)
         == Mul(BoxWeight(a[1..], b[1..], Add(h1, h2)), PathTerms(a[0], b[0], h1, h2)(v))
  {
    hide Mul, AxisWeight, SumList, Simplex, Add;
    var s, rest := Simplex(q - 1, r - v), BoxPaths(a[1..], b[1..], h1, h2);
    var w, total := PathTerms(a[0], b[0], h1, h2)(v), BoxWeight(a[1..], b[1..], Add(h1, h2));
    forall g | g in s
      ensures Behind(BoxPaths(a, b, h1, h2), [v])(g) == Mul(w, rest(g))
    {
      SimplexMembers(q - 1, r - v, g);
      assert ([v] + g)[1..] == g;
      MulMedial(AxisWeight(a[0], v, h1), BoxWeight(a[1..], g, h1), AxisWeight(v, b[0], h2), BoxWeight(g, b[1..], h2));
    }
    SumListScale(s, w, rest, Behind(BoxPaths(a, b, h1, h2), [v]));
    MulComm(w, total);
    if v > a[0] {
      NoWeight(a[0], v, h1);
      MulUnits(AxisWeight(v, b[0], h2));
      MulUnits(SumList(s, rest));
      MulUnits(total);
    }
  }

  /** Two shifts on the lattice: the paths inside the simplex add up to one shift. */
  lemma {:induction false} BoxGroup(a: Index, b: Index, h1: Complex, h2: Complex, q: nat, r: nat)
    requires InSimplex(a, q, r) && |b| == q
    ensures SumList(Simplex(q, r), BoxPaths(a, b, h1, h2)) == BoxWeight(a, b, Add(h1, h2))
    decreases q
  {
    hide Mul, AxisWeight, SumList, Simplex, Add;
    if q == 0 {
      BoxGroupNoAxis(a, b, h1, h2, r);
    } else {
      DegreeBounds(a, 0);
      var paths, slices := PathTerms(a[0], b[0], h1, h2), SliceSums(q, r, BoxPaths(a, b, h1, h2));
      var total := BoxWeight(a[1..], b[1..], Add(h1, h2));
      forall v: nat | v < r + 1
        ensures slices(v) == Mul(total, paths(v))
      {
        if v <= a[0] {
          BoxGroup(a[1..], b[1..], h1, h2, q - 1, r - v);
        }
        PathSlice(a, b, h1, h2, q, r, v);
      }
      SumSimplex(q, r, BoxPaths(a, b, h1, h2));
      SumScale(r + 1, total, paths, slices);
      forall g: nat | a[0] + 1 <= g < r + 1
        ensures paths(g) == ZERO
      {
        NoWeight(a[0], g, h1);
        MulUnits(AxisWeight(g, b[0], h2));
      }
      SumTruncate(a[0] + 1, r + 1, paths);
      AxisGroup(a[0], b[0], h1, h2);
      MulComm(total, AxisWeight(a[0], b[0], Add(h1, h2)));
    }
  }

  lemma {:induction false} BoxGroupNoAxis(a: Index, b: Index, h1: Complex, h2: Complex, r: nat)
    requires a == [] && b == []
    ensures SumList(Simplex(0, r), BoxPaths(a, b, h1, h2)) == BoxWeight(a, b, Add(h1, h2))
  {
    hide Mul;
    MulUnits(ONE);
    var f := BoxPaths(a, b, h1, h2);
    assert f([]) == ONE;
    var s := Simplex(0, r);
    assert s == [[]] && s[..0] == [];
    assert SumList(s, f) == Add(SumList(s[..0], f), f(s[0]));
  }

  lemma {:induction false} BoxIdentity(a: Index, b: Index)
    requires |a| == |b|
    ensures BoxWeight(a, b, ZERO) == if a == b then ONE else ZERO
  {
    hide Mul, AxisWeight;
    if a != [] {
      AxisIdentity(a[0], b[0]);
      BoxIdentity(a[1..], b[1..]);
      MulUnits(BoxWeight(a[1..], b[1..], ZERO));
      assert a == [a[0]] + a[1..] && b == [b[0]] + b[1..];
    }
  }

  /** Degrees above a are not reached. */
  lemma {:induction false} BoxOutside(a: Index, b: Index, h: Complex, q: nat)
    requires |a| == |b| && q < |a| && b[q] > a[q]
    ensures BoxWeight(a, b, h) == ZERO
  {
    hide Mul, AxisWeight;
    MulUnits(BoxWeight(a[1..], b[1..], h));
    if q == 0 {
      NoWeight(a[0], b[0], h);
    } else {
      BoxOutside(a[1..], b[1..], h, q - 1);
      MulUnits(AxisWeight(a[0], b[0], h));
    }
  }

  // ---------------------------------------------------------------- the shifted jet

  ghost function ShiftTerms(J: Jet, h: Complex, b: Index): Index -> Complex
    requires Dense(J) && |b| == J.Q
  {
    (a: Index) => if |a| == J.Q then Mul(BoxWeight(a, b, h), At(J, a)) else ZERO
  }

  /** Coefficient b of J translated by h along every axis. */
  ghost function ShiftedAt(J: Jet, h: Complex, b: Index): Complex
    requires Dense(J) && |b| == J.Q
  {
    SumList(Simplex(J.Q, J.order), ShiftTerms(J, h, b))
  }

  /** R is J translated by h, and has no coefficients outside the simplex. */
  ghost predicate IsShift(R: Jet, J: Jet, h: Complex) {
    && Dense(J) && R.Q == J.Q && R.order == J.order && SupportedJet(R)
    && forall b: Index {:trigger At(R, b)} :: InSimplex(b, J.Q, J.order) ==> At(R, b) == ShiftedAt(J, h, b)
  }

  ghost function GroupTable(J: Jet, b: Index, h1: Complex, h2: Complex): (Index, Index) -> Complex
    requires Dense(J) && |b| == J.Q
  {
    (a: Index, g: Index) =>
      if |a| == J.Q && |g| == J.Q then Mul(At(J, a), Mul(BoxWeight(a, g, h1), BoxWeight(g, b, h2))) else ZERO
  }

  lemma {:induction false} GroupColumn(J: Jet, R: Jet, h1: Complex, h2: Complex, b: Index, g: Index)
    requires IsShift(R, J, h1) && |b| == J.Q && InSimplex(g, J.Q, J.order)
    ensures ListColumnSums(Simplex(J.Q, J.order), GroupTable(J, b, h1, h2))(g) == ShiftTerms(R, h2, b)(g)
  {
    hide Mul, BoxWeight, Simplex, SumList, At;
    var s := Simplex(J.Q, J.order);
    var column := ListColumn(GroupTable(J, b, h1, h2), g);
    forall a | a in s
      ensures column(a) == Mul(BoxWeight(g, b, h2), ShiftTerms(J, h1, g)(a))
    {
      SimplexMembers(J.Q, J.order, a);
      MulAssoc(At(J, a), BoxWeight(a, g, h1), BoxWeight(g, b, h2));
      MulComm(At(J, a), BoxWeight(a, g, h1));
      MulComm(Mul(BoxWeight(a, g, h1), At(J, a)), BoxWeight(g, b, h2));
    }
    SumListScale(s, BoxWeight(g, b, h2), ShiftTerms(J, h1, g), column);
    assert At(R, g) == ShiftedAt(J, h1, g);
  }

  lemma {:induction false} GroupRow(J: Jet, h1: Complex, h2: Complex, b: Index, a: Index)
    requires Dense(J) && |b| == J.Q && InSimplex(a, J.Q, J.order)
    ensures ListRowSums(Simplex(J.Q, J.order), GroupTable(J, b, h1, h2))(a) == ShiftTerms(J, Add(h1, h2), b)(a)
  {
    hide Mul, BoxWeight, Simplex, SumList, At, Add;
    var s := Simplex(J.Q, J.order);
    var row := ListRow(GroupTable(J, b, h1, h2), a);
    forall g | g in s
      ensures row(g) == Mul(At(J, a), BoxPaths(a, b, h1, h2)(g))
    {
      SimplexMembers(J.Q, J.order, g);
    }
    SumListScale(s, At(J, a), BoxPaths(a, b, h1, h2), row);
    BoxGroup(a, b, h1, h2, J.Q, J.order);
    MulComm(At(J, a), BoxWeight(a, b, Add(h1, h2)));
  }

  /** The one-parameter group: shifting by h1 and then by h2 is shifting by h1 + h2. */
  lemma {:induction false} ShiftGroup(J: Jet, R: Jet, S: Jet, T: Jet, h1: Complex, h2: Complex)
    requires IsShift(R, J, h1) && IsShift(S, R, h2) && IsShift(T, J, Add(h1, h2))
    ensures S == T
  {
    hide Mul, BoxWeight, Simplex, SumList, At, Add;
    var s := Simplex(J.Q, J.order);
    forall b | InSimplex(b, J.Q, J.order)
      ensures At(S, b) == At(T, b)
    {
      var table := GroupTable(J, b, h1, h2);
      forall a | a in s
        ensures ListRowSums(s, table)(a) == ShiftTerms(J, Add(h1, h2), b)(a)
        ensures ListColumnSums(s, table)(a) == ShiftTerms(R, h2, b)(a)
      {
        SimplexMembers(J.Q, J.order, a);
        GroupRow(J, h1, h2, b, a);
        GroupColumn(J, R, h1, h2, b, a);
      }
      SumListCongruence(s, ListRowSums(s, table), ShiftTerms(J, Add(h1, h2), b));
      SumListCongruence(s, ListColumnSums(s, table), ShiftTerms(R, h2, b));
      SumListSwap(s, s, table);
    }
    SameJet(S, T);
  }

  lemma {:induction false} SumListSingle(s: seq<Index>, k: nat, f: Index -> Complex)
    requires k < |s| && forall i: nat :: i < |s| && i != k ==> f(s[i]) == ZERO
    ensures SumList(s, f) == f(s[k])
  {
    var n := |s| - 1;
    if k == n {
      SumListZero(s[..n], f);
    } else {
      SumListSingle(s[..n], k, f);
    }
  }

  /** Shifting by 0 is the identity on jets supported in the simplex. */
  lemma {:induction false} ShiftIdentity(J: Jet, R: Jet)
    requires IsShift(R, J, ZERO) && SupportedJet(J)
    ensures R == J
  {
    hide Mul, BoxWeight, Simplex, SumList, At, Supported;
    var s := Simplex(J.Q, J.order);
    SupportedSizes(R, J);
    forall b | InSimplex(b, J.Q, J.order)
      ensures At(R, b) == At(J, b)
    {
      SimplexMembers(J.Q, J.order, b);
      SimplexNoRepeats(J.Q, J.order);
      var k: nat :| k < |s| && s[k] == b;
      forall i: nat | i < |s|
        ensures ShiftTerms(J, ZERO, b)(s[i]) == if i == k then At(J, b) else ZERO
      {
        SimplexMembers(J.Q, J.order, s[i]);
        BoxIdentity(s[i], b);
        MulUnits(At(J, s[i]));
      }
      SumListSingle(s, k, ShiftTerms(J, ZERO, b));
    }
    SameJet(R, J);
  }

  // ---------------------------------------------------------------- evaluation

  /** eta^a. */
  ghost function Monomial(eta: seq<Complex>, a: Index): Complex
    requires |eta| == |a|
  {
    if a == [] then ONE else Mul(Pow(eta[0], a[0]), Monomial(eta[1..], a[1..]))
  }

  ghost function EvaluationTerms(J: Jet, eta: seq<Complex>): Index -> Complex
    requires Dense(J) && |eta| == J.Q
  {
    (a: Index) => if |a| == J.Q then Mul(Monomial(eta, a), At(J, a)) else ZERO
  }

  /** J(eta), the sum of J_a eta^a. */
  ghost function JetValue(J: Jet, eta: seq<Complex>): Complex
    requires Dense(J) && |eta| == J.Q
  {
    SumList(Simplex(J.Q, J.order), EvaluationTerms(J, eta))
  }

  lemma {:induction false} WeightAtZero(a: Index, h: Complex)
    ensures BoxWeight(a, Zeros(|a|), h) == Monomial(seq(|a|, i => h), a)
  {
    hide Mul;
    if a != [] {
      WeightAtZero(a[1..], h);
      assert Zeros(|a|)[1..] == Zeros(|a| - 1);
      assert seq(|a|, i => h)[1..] == seq(|a| - 1, i => h);
      MulUnits(Pow(h, a[0]));
    }
  }

  /** The constant coefficient of the jet shifted by h is the jet's value at (h, ..., h). */
  lemma {:induction false} ShiftEvaluates(J: Jet, R: Jet, h: Complex)
    requires IsShift(R, J, h)
    ensures Dense(R) && At(R, Zeros(J.Q)) == JetValue(J, seq(J.Q, i => h))
  {
    hide Mul, BoxWeight, Simplex, SumList, Supported, Coef, Monomial;
    SupportedSizes(R, R);
    var s, eta := Simplex(J.Q, J.order), seq(J.Q, i => h);
    ZerosDegree(J.Q);
    assert At(R, Zeros(J.Q)) == ShiftedAt(J, h, Zeros(J.Q));
    forall a | a in s
      ensures ShiftTerms(J, h, Zeros(J.Q))(a) == EvaluationTerms(J, eta)(a)
    {
      SimplexMembers(J.Q, J.order, a);
      WeightAtZero(a, h);
    }
    SumListCongruence(s, ShiftTerms(J, h, Zeros(J.Q)), EvaluationTerms(J, eta));
  }

  lemma {:induction false} ZerosDegree(n: nat)
    ensures Degree(Zeros(n)) == 0
  {
    if n > 0 {
      ZerosDegree(n - 1);
      assert Zeros(n)[1..] == Zeros(n - 1);
    }
  }

  /** The inner product loop of `evaluate_jet`: term * eta_q once per unit of a_q. */
  method TimesMonomial(term0: Complex, eta: seq<Complex>, a: Index) returns (term: Complex)
    requires |eta| == |a|
    ensures term == Mul(Monomial(eta, a), term0)
  {
    hide Mul;
    term := term0;
    MulUnits(term0);
    var q := 0;
    while q < |a|
      invariant 0 <= q <= |a|
      invariant Mul(Monomial(eta[q..], a[q..]), term) == Mul(Monomial(eta, a), term0)
    {
      ghost var before := term;
      MulUnits(before);
      var j := 0;
      while j < a[q]
        invariant 0 <= j <= a[q] && term == Mul(Pow(eta[q], j), before)
      {
        MulComm(term, eta[q]);
        MulAssoc(eta[q], Pow(eta[q], j), before);
        term := Mul(term, eta[q]);
        j := j + 1;
      }
      assert eta[q..][1..] == eta[q + 1..] && a[q..][1..] == a[q + 1..];
      var rest := Monomial(eta[q + 1..], a[q + 1..]);
      MulAssoc(Pow(eta[q], a[q]), rest, before);
      MulLeftComm(Pow(eta[q], a[q]), rest, before);
      q := q + 1;
    }
    MulUnits(term);
  }

  /** The stored coefficient; positions beyond the end of the array are skipped. */
  ghost function StoredTerms(J: Jet, eta: seq<Complex>): Index -> Complex
    requires |eta| == J.Q
  {
    (a: Index) =>
      if |a| == J.Q && Flat(J.Q, J.order, a) < |J.coeff|
      then Mul(Monomial(eta, a), J.coeff[Flat(J.Q, J.order, a)])
      else ZERO
  }

  /** `evaluate_jet`. */
  method EvaluateJet(J: Jet, eta: seq<Complex>) returns (acc: Complex)
    requires |eta| == J.Q
    ensures acc == SumList(Simplex(J.Q, J.order), StoredTerms(J, eta))
    ensures Dense(J) ==> acc == JetValue(J, eta)
  {
    hide Mul, Monomial, Simplex, LexIncreasing;
    var layout := MakeLayout(J.Q, J.order);
    var idx := EnumerateMultiIndices(J.Q, J.order);
    acc := ZERO;
    var i := 0;
    while i < |idx|
      invariant 0 <= i <= |idx| && acc == SumList(idx[..i], StoredTerms(J, eta))
    {
      var alpha := idx[i];
      SimplexMembers(J.Q, J.order, alpha);
      assert idx[..i + 1][..i] == idx[..i];
      var k := Flatten(alpha, layout);
      if k < |J.coeff| {
        var term := TimesMonomial(J.coeff[k], eta, alpha);
        acc := Add(acc, term);
      }
      i := i + 1;
    }
    assert idx[..i] == idx;
    if Dense(J) {
      StoredIsValue(J, eta);
    }
  }

  lemma {:induction false} StoredIsValue(J: Jet, eta: seq<Complex>)
    requires Dense(J) && |eta| == J.Q
    ensures SumList(Simplex(J.Q, J.order), StoredTerms(J, eta)) == JetValue(J, eta)
  {
    hide Mul, Monomial, SumList, Simplex;
    forall a | a in Simplex(J.Q, J.order)
      ensures StoredTerms(J, eta)(a) == EvaluationTerms(J, eta)(a)
    {
      SimplexMembers(J.Q, J.order, a);
      FlatInDense(J.Q, J.order, a);
    }
    SumListCongruence(Simplex(J.Q, J.order), StoredTerms(J, eta), EvaluationTerms(J, eta));
  }

  // ---------------------------------------------------------------- the translation loop

  /** The box of all b <= alpha. */
  function Below(alpha: Index): (radix: Index)
    ensures |radix| == |alpha| && forall q :: 0 <= q < |alpha| ==> radix[q] == alpha[q] + 1
  {
    seq(|alpha|, q requires 0 <= q < |alpha| => alpha[q] + 1)
  }

  lemma {:induction false} BelowDegree(alpha: Index, b: Index)
    requires InBox(Below(alpha), b)
    ensures Degree(b) <= Degree(alpha)
  {
    if alpha != [] {
      assert Below(alpha)[1..] == Below(alpha[1..]);
      BelowDegree(alpha[1..], b[1..]);
    }
  }

  /** The product of C(a_q, b_q) over the axes. */
  ghost function Binomials(a: Index, b: Index): real
    requires |a| == |b|
  {
    if a == [] then 1.0 else Choose(a[0], b[0]) as real * Binomials(a[1..], b[1..])
  }

  /** The product of binomials times one power of h is the product of the axis weights. */
  lemma {:induction false} WeightFactors(a: Index, b: Index, h: Complex)
    requires InBox(Below(a), b)
    ensures Degree(b) <= Degree(a)
    ensures BoxWeight(a, b, h) == Mul(OfReal(Binomials(a, b)), Pow(h, Degree(a) - Degree(b)))
  {
    hide Mul, Choose, Pow, OfReal;
    BelowDegree(a, b);
    if a == [] {
      NoAxisFactors(h);
    } else {
      assert Below(a)[1..] == Below(a[1..]);
      WeightFactors(a[1..], b[1..], h);
      BelowDegree(a[1..], b[1..]);
      var m, n := a[0] - b[0], Degree(a[1..]) - Degree(b[1..]);
      assert Degree(a) - Degree(b) == m + n;
      CombineFactors(Choose(a[0], b[0]) as real, Binomials(a[1..], b[1..]), Binomials(a, b), h, m, n);
    }
  }

  lemma {:induction false} CombineFactors(c: real, p: real, z: real, h: Complex, m: nat, n: nat)
    requires z == c * p
    ensures Mul(Mul(OfReal(c), Pow(h, m)), Mul(OfReal(p), Pow(h, n))) == Mul(OfReal(z), Pow(h, m + n))
  {
    hide Mul, Pow, OfReal;
    PowAdd(h, m, n);
    OfRealHom(c, p);
    MulMedial(OfReal(c), Pow(h, m), OfReal(p), Pow(h, n));
  }

  lemma {:induction false} NoAxisFactors(h: Complex)
    ensures ONE == Mul(OfReal(1.0), Pow(h, 0))
  {
    MulUnits(ONE);
  }

  method BetaWeight(a: Index, b: Index, h: Complex) returns (w: Complex)
    requires InBox(Below(a), b)
    ensures w == BoxWeight(a, b, h)
  {
    hide Mul, Choose, Pow, BoxWeight, Binomials, Degree;
    WeightFactors(a, b, h);
    var c := 1.0;
    var delta := 0;
    var q := 0;
    RemainingAll(a, b);
    while q < |a|
      invariant 0 <= q <= |a|
      invariant c * Binomials(a[q..], b[q..]) == Binomials(a, b)
      invariant delta + Degree(a[q..]) - Degree(b[q..]) == Degree(a) - Degree(b)
    {
      RemainingStep(a, b, q);
      var f := Binom(a[q], b[q]);
      Reassociate(c, f, Binomials(a[q + 1..], b[q + 1..]));
      c := c * f;
      delta := delta + (a[q] - b[q]);
      q := q + 1;
    }
    RemainingNone(a, b);
    TimesOne(c, Binomials(a[q..], b[q..]));
    w := Mul(OfReal(c), Pow(h, delta));
  }

  lemma {:induction false} RemainingAll(a: Index, b: Index)
    requires |a| == |b|
    ensures a[0..] == a && b[0..] == b
  {
  }

  lemma {:induction false} RemainingStep(a: Index, b: Index, q: nat)
    requires q < |a| == |b|
    ensures Binomials(a[q..], b[q..]) == Choose(a[q], b[q]) as real * Binomials(a[q + 1..], b[q + 1..])
    ensures Degree(a[q..]) == a[q] + Degree(a[q + 1..]) && Degree(b[q..]) == b[q] + Degree(b[q + 1..])
  {
    assert a[q..][1..] == a[q + 1..] && b[q..][1..] == b[q + 1..];
  }

  lemma {:induction false} RemainingNone(a: Index, b: Index)
    requires |a| == |b|
    ensures Binomials(a[|a|..], b[|a|..]) == 1.0 && Degree(a[|a|..]) == 0 && Degree(b[|a|..]) == 0
  {
  }

  lemma {:induction false} TimesOne(x: real, y: real)
    requires y == 1.0
    ensures x * y == x
  {
  }

  lemma {:induction false} Reassociate(x: real, y: real, z: real)
    ensures x * (y * z) == (x * y) * z
  {
  }

  /** The box odometer of the translation loop: the last axis below its limit steps up and the
      axes to its right restart. */
  method NextBelow(alpha: Index, beta: Index) returns (next: Index, more: bool)
    requires InBox(Below(alpha), beta)
    ensures |next| == |beta|
    ensures more ==> exists q :: Steps(Below(alpha), beta, next, q)
    ensures !more ==> AtEnd(Below(alpha), beta)
  {
    next := beta;
    var q := |alpha| - 1;
    while q >= 0
      invariant -1 <= q < |alpha| && next == beta
      invariant forall p :: q < p < |alpha| ==> beta[p] == alpha[p]
    {
      if beta[q] < alpha[q] {
        next := next[q := next[q] + 1];
        var qq := q + 1;
        while qq < |alpha|
          invariant q + 1 <= qq <= |alpha|
          invariant next == beta[..q] + [beta[q] + 1] + Zeros(qq - q - 1) + beta[qq..]
        {
          next := next[qq := 0];
          qq := qq + 1;
        }
        assert Steps(Below(alpha), beta, next, q);
        return next, true;
      }
      q := q - 1;
    }
    more := false;
  }

  /** What alpha has added to R so far: its term at every b <= alpha before position k. */
  ghost predicate Distributed(R: seq<Complex>, R0: seq<Complex>, J: Jet, h: Complex, alpha: Index, k: nat)
    requires Dense(J) && |R| == |R0| == |J.coeff| && |alpha| == J.Q
  {
    forall b: Index {:trigger Coef(R, J.Q, J.order, b)} ::
      InSimplex(b, J.Q, J.order) ==>
      Coef(R, J.Q, J.order, b) ==
        if InBox(Below(alpha), b) && Rank(Below(alpha), b) < k
        then Add(Coef(R0, J.Q, J.order, b), ShiftTerms(J, h, b)(alpha))
        else Coef(R0, J.Q, J.order, b)
  }

  lemma {:induction false} DistributeStep(R: seq<Complex>, R0: seq<Complex>, J: Jet, h: Complex, alpha: Index,
                                          beta: Index, v: Complex, R': seq<Complex>)
    requires Dense(J) && |R| == |R0| == |J.coeff| && InSimplex(alpha, J.Q, J.order) && InBox(Below(alpha), beta)
    requires Distributed(R, R0, J, h, alpha, Rank(Below(alpha), beta)) && Supported(R, J.Q, J.order)
    requires InSimplex(beta, J.Q, J.order) && Flat(J.Q, J.order, beta) < |R|
    requires v == Add(Coef(R, J.Q, J.order, beta), ShiftTerms(J, h, beta)(alpha))
    requires R' == R[Flat(J.Q, J.order, beta) := v]
    ensures Distributed(R', R0, J, h, alpha, Rank(Below(alpha), beta) + 1) && Supported(R', J.Q, J.order)
  {
    hide Mul, BoxWeight, Coef, Supported, Rank;
    CoefUpdate(R, J.Q, J.order, beta, v);
    forall b: Index | InSimplex(b, J.Q, J.order)
      ensures Coef(R', J.Q, J.order, b) ==
        if InBox(Below(alpha), b) && Rank(Below(alpha), b) < Rank(Below(alpha), beta) + 1
        then Add(Coef(R0, J.Q, J.order, b), ShiftTerms(J, h, b)(alpha))
        else Coef(R0, J.Q, J.order, b)
    {
      if InBox(Below(alpha), b) && Rank(Below(alpha), b) == Rank(Below(alpha), beta) {
        RankInjective(Below(alpha), b, beta);
      }
    }
  }

  /** All positions of the box done: alpha's term has been added at every index. */
  lemma {:induction false} DistributeDone(R: seq<Complex>, R0: seq<Complex>, J: Jet, h: Complex, alpha: Index)
    requires Dense(J) && |R| == |R0| == |J.coeff| && InSimplex(alpha, J.Q, J.order)
    requires Distributed(R, R0, J, h, alpha, Volume(Below(alpha)))
    ensures forall b: Index {:trigger Coef(R, J.Q, J.order, b)} :: InSimplex(b, J.Q, J.order) ==>
      Coef(R, J.Q, J.order, b) == Add(Coef(R0, J.Q, J.order, b), ShiftTerms(J, h, b)(alpha))
  {
    hide Mul, BoxWeight, Coef, Rank, Volume;
    forall b: Index | InSimplex(b, J.Q, J.order)
      ensures Coef(R, J.Q, J.order, b) == Add(Coef(R0, J.Q, J.order, b), ShiftTerms(J, h, b)(alpha))
    {
      if InBox(Below(alpha), b) {
        RankBound(Below(alpha), b);
      } else {
        var q: nat :| q < |b| && b[q] > alpha[q];
        BoxOutside(alpha, b, h, q);
        MulUnits(At(J, alpha));
      }
    }
  }

  /** Adds the contributions of one coefficient at every b <= alpha, each exactly once. */
  method Distribute(R0: seq<Complex>, J: Jet, h: Complex, alpha: Index, layout: Layout) returns (R: seq<Complex>)
    requires Dense(J) && |R0| == |J.coeff| && Supported(R0, J.Q, J.order) && InSimplex(alpha, J.Q, J.order)
    requires LayoutOf(layout) && layout.Q == J.Q && layout.order == J.order
    ensures |R| == |R0| && Supported(R, J.Q, J.order)
    ensures forall b: Index {:trigger Coef(R, J.Q, J.order, b)} :: InSimplex(b, J.Q, J.order) ==>
      Coef(R, J.Q, J.order, b) == Add(Coef(R0, J.Q, J.order, b), ShiftTerms(J, h, b)(alpha))
  {
    hide Mul, BoxWeight, Coef, Supported, Rank, Volume, Degree, Steps, AtEnd, Distributed, LayoutOf;
    R := R0;
    FlatInDense(J.Q, J.order, alpha);
    var sa := Flatten(alpha, layout);
    var ca := J.coeff[sa];
    StoredCoefficient(J, alpha, sa);
    var beta := Zeros(J.Q);
    RankZeros(Below(alpha));
    NothingDistributed(R0, J, h, alpha);
    var more := true;
    while more
      invariant |R| == |R0| && Supported(R, J.Q, J.order) && |beta| == J.Q
      invariant more ==> InBox(Below(alpha), beta) && Distributed(R, R0, J, h, alpha, Rank(Below(alpha), beta))
      invariant !more ==> Distributed(R, R0, J, h, alpha, Volume(Below(alpha)))
      decreases if more then 1 + Volume(Below(alpha)) - Rank(Below(alpha), beta) else 0
    {
      var w := BetaWeight(alpha, beta, h);
      var k := Flatten(beta, layout);
      BetaInSimplex(J, alpha, beta);
      StoredIn(R, J, beta, k);
      ghost var before := R;
      R := R[k := Add(R[k], Mul(w, ca))];
      DistributeStep(before, R0, J, h, alpha, beta, R[k], R);
      RankBound(Below(alpha), beta);
      var next, another := NextBelow(alpha, beta);
      if another {
        StepInBox(Below(alpha), beta, next);
      } else {
        RankAtEnd(Below(alpha), beta);
      }
      beta, more := next, another;
    }
    DistributeDone(R, R0, J, h, alpha);
  }

  lemma {:induction false} NothingDistributed(R0: seq<Complex>, J: Jet, h: Complex, alpha: Index)
    requires Dense(J) && |R0| == |J.coeff| && |alpha| == J.Q
    ensures Distributed(R0, R0, J, h, alpha, 0)
  {
  }

  lemma {:induction false} StoredCoefficient(J: Jet, alpha: Index, sa: nat)
    requires Dense(J) && InSimplex(alpha, J.Q, J.order) && sa == Flat(J.Q, J.order, alpha)
    ensures sa < |J.coeff| && At(J, alpha) == J.coeff[sa]
  {
    FlatInDense(J.Q, J.order, alpha);
  }

  lemma {:induction false} StoredIn(R: seq<Complex>, J: Jet, beta: Index, k: nat)
    requires Dense(J) && |R| == |J.coeff| && InSimplex(beta, J.Q, J.order) && k == Flat(J.Q, J.order, beta)
    ensures k < |R| && Coef(R, J.Q, J.order, beta) == R[k]
  {
    FlatInDense(J.Q, J.order, beta);
  }

  lemma {:induction false} BetaInSimplex(J: Jet, alpha: Index, beta: Index)
    requires InSimplex(alpha, J.Q, J.order) && InBox(Below(alpha), beta)
    ensures InSimplex(beta, J.Q, J.order)
  {
    BelowDegree(alpha, beta);
  }

  lemma {:induction false} StepInBox(radix: Index, a: Index, b: Index)
    requires InBox(radix, a) && exists q :: Steps(radix, a, b, q)
    ensures InBox(radix, b) && Rank(radix, b) == Rank(radix, a) + 1
  {
    hide Rank;
    var q :| Steps(radix, a, b, q);
    RankSteps(radix, a, b, q);
  }

  /** `shift_jet_semigroup_cpu`: the jet translated by h along every axis; an array that is too
      short gives the zero jet. */
  method ShiftJet(J: Jet, h: Complex) returns (R: Jet)
    ensures R.Q == J.Q && R.order == J.order && |R.coeff| == DenseSize(J.Q, J.order)
    ensures |J.coeff| < DenseSize(J.Q, J.order) ==> forall k :: 0 <= k < |R.coeff| ==> R.coeff[k] == ZERO
    ensures |J.coeff| >= DenseSize(J.Q, J.order) ==> IsShift(R, FullPart(J), h)
  {
    hide Mul, BoxWeight, Coef, Supported, Simplex, LexIncreasing, Volume, SumList, Degree;
    var size := ComputeDenseSize(J.Q, J.order);
    var coeff := seq(size, i => ZERO);
    CoefZeros(J.Q, J.order, coeff);
    if |J.coeff| < size {
      return Jet(J.Q, J.order, coeff);
    }
    var K := Jet(J.Q, J.order, J.coeff[..size]);
    var layout := MakeLayout(J.Q, J.order);
    var idx := EnumerateMultiIndices(J.Q, J.order);
    var i := 0;
    SumListEmpty();
    while i < |idx|
      invariant 0 <= i <= |idx| && |coeff| == size && Supported(coeff, J.Q, J.order)
      invariant forall b: Index {:trigger Coef(coeff, J.Q, J.order, b)} :: InSimplex(b, J.Q, J.order) ==>
        Coef(coeff, J.Q, J.order, b) == SumList(idx[..i], ShiftTerms(K, h, b))
    {
      var alpha := idx[i];
      SimplexMembers(J.Q, J.order, alpha);
      FlatInDense(J.Q, J.order, alpha);
      var sa := Flatten(alpha, layout);
      StoredCoefficient(K, alpha, sa);
      assert idx[..i + 1][..i] == idx[..i];
      ghost var before := coeff;
      if J.coeff[sa] != ZERO {
        coeff := Distribute(coeff, K, h, alpha, layout);
      }
      forall b: Index | InSimplex(b, J.Q, J.order)
        ensures Coef(coeff, J.Q, J.order, b) == SumList(idx[..i + 1], ShiftTerms(K, h, b))
      {
        SumListLast(idx[..i + 1], ShiftTerms(K, h, b));
        MulUnits(BoxWeight(alpha, b, h));
      }
      i := i + 1;
    }
    assert idx[..i] == idx;
    R := Jet(J.Q, J.order, coeff);
  }

  lemma {:induction false} SumListEmpty()
    ensures forall f: Index -> Complex :: SumList([], f) == ZERO
  {
  }

  lemma {:induction false} SumListLast(s: seq<Index>, f: Index -> Complex)
    requires s != []
    ensures SumList(s, f) == Add(SumList(s[..|s| - 1], f), f(s[|s| - 1]))
  {
  }
}
