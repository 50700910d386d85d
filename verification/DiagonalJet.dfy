/** A jet seen along the diagonal (h, ..., h): what the jet carrier of
    src/engine/trajectorizer_engine.cpp depends on, and how it compares with the smooth
    section, which keeps one axis only. */
module DiagonalJet {
  import opened ComplexField
  import opened MultiIndex
  import opened Polynomials
  import opened PhaseTorus
  import opened JetLattice
  import opened JetSemigroup
  import opened Combinatorics
  import opened NewtonGregory
  import opened Anchor
  import opened Candles
  import opened Reals

  // ---------------------------------------------------------------- exchanging sums

  ghost function Along(f: (Index, nat) -> Complex, a: Index): nat -> Complex {
    (n: nat) => f(a, n)
  }

  ghost function Across(f: (Index, nat) -> Complex, n: nat): Index -> Complex {
    (a: Index) => f(a, n)
  }

  ghost function AlongSums(N: nat, f: (Index, nat) -> Complex): Index -> Complex {
    (a: Index) => Sum(N, Along(f, a))
  }

  ghost function AcrossSums(s: seq<Index>, f: (Index, nat) -> Complex): nat -> Complex {
    (n: nat) => SumList(s, Across(f, n))
  }

  lemma {:induction false} ExchangeSums(s: seq<Index>, N: nat, f: (Index, nat) -> Complex)
    ensures SumList(s, AlongSums(N, f)) == Sum(N, AcrossSums(s, f))
    decreases |s|
  {
    if s == [] {
      SumZero(N, AcrossSums(s, f));
    } else {
      var rest, a := s[..|s| - 1], s[|s| - 1];
      ExchangeSums(rest, N, f);
      SumAdd(N, AcrossSums(rest, f), Along(f, a), AcrossSums(s, f));
    }
  }

  // ---------------------------------------------------------------- degree sums

  ghost function OfDegree(J: Jet, n: nat): Index -> Complex
    requires Dense(J)
  {
    (a: Index) => if |a| == J.Q && Degree(a) == n then At(J, a) else ZERO
  }

  /** The sum of all coefficients of total degree n, for n = 0..order. */
  ghost function DegreeSums(J: Jet): (d: seq<Complex>)
    requires Dense(J)
    ensures |d| == J.order + 1
    ensures forall n: nat :: n <= J.order ==> d[n] == SumList(Simplex(J.Q, J.order), OfDegree(J, n))
  {
    seq(J.order + 1, n requires n >= 0 => SumList(Simplex(J.Q, J.order), OfDegree(J, n)))
  }

  function Diagonal(Q: nat, h: Complex): (eta: seq<Complex>)
    ensures |eta| == Q
  {
    seq(Q, i => h)
  }

  lemma {:induction false} DiagonalMonomial(a: Index, h: Complex)
    ensures Monomial(Diagonal(|a|, h), a) == Pow(h, Degree(a))
    decreases |a|
  {
    hide Mul;
    if a == [] {
      PowZero(h);
    } else {
      DiagonalMonomial(a[1..], h);
      assert Diagonal(|a|, h)[1..] == Diagonal(|a| - 1, h);
      PowAdd(h, a[0], Degree(a[1..]));
    }
  }

  ghost function DegreeTable(J: Jet, h: Complex): (Index, nat) -> Complex
    requires Dense(J)
  {
    (a: Index, n: nat) => if |a| == J.Q && Degree(a) == n then Mul(Pow(h, n), At(J, a)) else ZERO
  }

  /** On the diagonal a jet is the polynomial of its degree sums. */
  lemma {:induction false} DiagonalValue(J: Jet, h: Complex)
    requires Dense(J)
    ensures JetValue(J, Diagonal(J.Q, h)) == PolyValue(DegreeSums(J), h)
  {
    hide Mul, Pow, At, Degree, Monomial, SumList, Simplex, Dense;
    var s, N, f := Simplex(J.Q, J.order), J.order + 1, DegreeTable(J, h);
    var eta := Diagonal(J.Q, h);
    forall a | a in s
      ensures EvaluationTerms(J, eta)(a) == AlongSums(N, f)(a)
    {
      SimplexMembers(J.Q, J.order, a);
      DiagonalMonomial(a, h);
      SumSingle(N, Degree(a), Along(f, a));
    }
    SumListCongruence(s, EvaluationTerms(J, eta), AlongSums(N, f));
    ExchangeSums(s, N, f);
    forall n: nat | n < N
      ensures AcrossSums(s, f)(n) == PolyTerms(DegreeSums(J), h)(n)
    {
      forall a | a in s
        ensures Across(f, n)(a) == Mul(Pow(h, n), OfDegree(J, n)(a))
      {
        MulUnits(Pow(h, n));
      }
      SumListScale(s, Pow(h, n), OfDegree(J, n), Across(f, n));
      MulComm(Pow(h, n), DegreeSums(J)[n]);
    }
    SumCongruence(N, AcrossSums(s, f), PolyTerms(DegreeSums(J), h));
  }

  // ---------------------------------------------------------------- the two carriers

  /** The smooth past of the jet: A_phi. */
  ghost function SmoothList(J: Jet, nPhi: int): (A: seq<Complex>)
    ensures |A| == Max(1, nPhi) && forall n: nat :: n < |A| ==> A[n] == SmoothAt(J, nPhi, n)
  {
    seq(Max(1, nPhi), n requires n >= 0 => SmoothAt(J, nPhi, n))
  }

  /** The continuous carrier equals the jet carrier at every whole horizon. */
  ghost predicate ContinuousIsJet(J: Jet, nPhi: int)
    requires Dense(J) && J.Q > 0
  {
    forall h: nat :: AtHorizon(SmoothList(J, nPhi), h) == JetValue(J, Diagonal(J.Q, OfReal(h as real)))
  }

  /** Main result, the exact condition for the first identity of the four-way theorem: for
      every degree the kept first-axis coefficient is the whole degree sum. */
  lemma {:induction false} ContinuousIsJetExactly(J: Jet, nPhi: int)
    requires Dense(J) && J.Q > 0
    ensures ContinuousIsJet(J, nPhi) <==> forall n: nat :: n <= J.order ==> DegreeSums(J)[n] == SmoothAt(J, nPhi, n)
    ensures (forall h: nat :: h <= J.order || h < nPhi ==>
              AtHorizon(SmoothList(J, nPhi), h) == AtHorizon(DegreeSums(J), h)) ==>
            ContinuousIsJet(J, nPhi)
  {
    hide AtHorizon, At, Degree, Dense, JetValue, Max, SmoothAt;
    var A, D := SmoothList(J, nPhi), DegreeSums(J);
    var N := |A| + |D|;
    PolynomialIdentity(A, D, N);
    forall h: nat
      ensures AtHorizon(D, h) == JetValue(J, Diagonal(J.Q, OfReal(h as real)))
    {
      HorizonOfJet(J, h);
    }
    if SameCoefficients(A, D) {
      SameAtHorizons(A, D);
    }
    forall n: nat
      ensures SampleAt(A, n) == if n <= J.order then SmoothAt(J, nPhi, n) else ZERO
    {
      SmoothCoefficient(J, nPhi, n);
    }
    if forall n: nat :: n <= J.order ==> D[n] == SmoothAt(J, nPhi, n) {
      assert SameCoefficients(A, D);
    }
    if SameCoefficients(A, D) {
      forall n: nat | n <= J.order
        ensures D[n] == SmoothAt(J, nPhi, n)
      {
        assert SampleAt(A, n) == SampleAt(D, n);
      }
    }
    if forall h: nat :: h <= J.order || h < nPhi ==> AtHorizon(A, h) == AtHorizon(D, h) {
      SmallestDegree(nPhi);
      var M := if |A| < |D| then |D| else |A|;
      PolynomialIdentity(A, D, M);
    }
  }

  lemma {:induction false} SmallestDegree(nPhi: int)
    ensures Max(1, nPhi) == if nPhi >= 1 then nPhi else 1
  {
  }

  lemma {:induction false} HorizonOfJet(J: Jet, h: nat)
    requires Dense(J)
    ensures AtHorizon(DegreeSums(J), h) == JetValue(J, Diagonal(J.Q, OfReal(h as real)))
  {
    hide PolyValue, JetValue;
    DiagonalValue(J, OfReal(h as real));
  }

  lemma {:induction false} SameAtHorizons(A: seq<Complex>, D: seq<Complex>)
    requires SameCoefficients(A, D)
    ensures forall h: nat :: AtHorizon(A, h) == AtHorizon(D, h)
  {
    hide PolyValue;
    PolynomialIdentity(A, D, |A| + |D|);
  }

  lemma {:induction false} SmoothCoefficient(J: Jet, nPhi: int, n: nat)
    ensures SampleAt(SmoothList(J, nPhi), n) == if n <= J.order then SmoothAt(J, nPhi, n) else ZERO
  {
    hide At;
  }

  // ---------------------------------------------------------------- anchor jets

  ghost function ChannelTerms(coeffs: seq<seq<Complex>>, n: nat): nat -> Complex {
    (q: nat) => if q < |coeffs| then SampleAt(coeffs[q], n) else ZERO
  }

  function AxisPower(Q: nat, q: nat, n: nat): (a: Index)
    requires q < Q
    ensures |a| == Q && a[q] == n && forall p :: 0 <= p < Q && p != q ==> a[p] == 0
  {
    Zeros(Q)[q := n]
  }

  ghost function AxisTable(coeffs: seq<seq<Complex>>, n: nat): (Index, nat) -> Complex {
    (a: Index, q: nat) =>
      if q < |coeffs| == |a| && OnAxis(a, q) && a[q] == n then SampleAt(coeffs[q], n) else ZERO
  }

  /** Degree n of an anchor jet holds, at alpha, one channel's coefficient or nothing. */
  lemma {:induction false} AnchorDegreeTerm(J: Jet, coeffs: seq<seq<Complex>>, n: nat, a: Index)
    requires TaylorJet(J, coeffs) && 0 < n <= J.order && InSimplex(a, J.Q, J.order)
    ensures Dense(J) && OfDegree(J, n)(a) == AlongSums(J.Q, AxisTable(coeffs, n))(a)
  {
    hide Mul, Degree, Supported, At;
    SupportedSize(J.coeff, J.Q, J.order);
    assert IsTaylor(At(J, a), ONE, coeffs, a);
    MulUnits(TaylorAt(coeffs, a));
    var f := Along(AxisTable(coeffs, n), a);
    if AllZero(a) {
      AllZeroDegree(a);
      SumZero(J.Q, f);
    } else if exists q: nat :: OnAxis(a, q) {
      var q: nat :| OnAxis(a, q);
      OnAxisDegree(a, q);
      forall p: nat | OnAxis(a, p)
        ensures p == q
      {
        OnAxisUnique(a, p, q);
      }
      SumSingle(J.Q, q, f);
    } else {
      SumZero(J.Q, f);
    }
  }

  lemma {:induction false} AxisPowerUnique(a: Index, q: nat, n: nat)
    requires OnAxis(a, q) && a[q] == n
    ensures a == AxisPower(|a|, q, n)
  {
  }

  lemma {:induction false} AxisColumn(coeffs: seq<seq<Complex>>, order: nat, n: nat, q: nat)
    requires q < |coeffs| && 0 < n <= order
    ensures AcrossSums(Simplex(|coeffs|, order), AxisTable(coeffs, n))(q) == ChannelTerms(coeffs, n)(q)
  {
    hide Degree, Simplex, SumList;
    var s, e := Simplex(|coeffs|, order), AxisPower(|coeffs|, q, n);
    var g := Across(AxisTable(coeffs, n), q);
    assert OnAxis(e, q);
    OnAxisDegree(e, q);
    SimplexMembers(|coeffs|, order, e);
    var k :| 0 <= k < |s| && s[k] == e;
    SimplexNoRepeats(|coeffs|, order);
    forall i: nat | i < |s| && i != k
      ensures g(s[i]) == ZERO
    {
      assert s[i] != e;
      if |s[i]| == |coeffs| && OnAxis(s[i], q) && s[i][q] == n {
        AxisPowerUnique(s[i], q, n);
      }
    }
    SumListSingle(s, k, g);
  }

  /** The degree sums of an anchor jet are the sums over the channels: the jet carrier
      follows all channels at once. */
  lemma {:induction false} AnchorDegreeSum(J: Jet, coeffs: seq<seq<Complex>>, n: nat)
    requires TaylorJet(J, coeffs) && J.Q > 0 && n <= J.order
    ensures Dense(J) && DegreeSums(J)[n] == Sum(J.Q, ChannelTerms(coeffs, n))
  {
    hide Mul, Degree, Supported, At, Simplex, SumList, IsTaylor;
    SupportedSize(J.coeff, J.Q, J.order);
    var s := Simplex(J.Q, J.order);
    if n == 0 {
      AnchorConstant(J, coeffs);
    } else {
      var f := AxisTable(coeffs, n);
      forall a | a in s
        ensures OfDegree(J, n)(a) == AlongSums(J.Q, f)(a)
      {
        SimplexMembers(J.Q, J.order, a);
        AnchorDegreeTerm(J, coeffs, n, a);
      }
      SumListCongruence(s, OfDegree(J, n), AlongSums(J.Q, f));
      ExchangeSums(s, J.Q, f);
      forall q: nat | q < J.Q
        ensures AcrossSums(s, f)(q) == ChannelTerms(coeffs, n)(q)
      {
        AxisColumn(coeffs, J.order, n, q);
      }
      SumCongruence(J.Q, AcrossSums(s, f), ChannelTerms(coeffs, n));
    }
  }

  lemma {:induction false} DegreeZeroIndex(a: Index)
    requires Degree(a) == 0
    ensures AllZero(a) && a == Zeros(|a|)
  {
    forall p | 0 <= p < |a|
      ensures a[p] == 0
    {
      DegreeBounds(a, p);
    }
  }

  lemma {:induction false} AnchorConstant(J: Jet, coeffs: seq<seq<Complex>>)
    requires TaylorJet(J, coeffs) && J.Q > 0
    ensures Dense(J) && DegreeSums(J)[0] == Sum(J.Q, ChannelTerms(coeffs, 0))
  {
    hide Mul, Degree, Supported, At, Simplex, SumList;
    SupportedSize(J.coeff, J.Q, J.order);
    var s, e := Simplex(J.Q, J.order), Zeros(J.Q);
    AllZeroDegree(e);
    SimplexMembers(J.Q, J.order, e);
    var k :| 0 <= k < |s| && s[k] == e;
    SimplexNoRepeats(J.Q, J.order);
    forall i: nat | i < |s| && i != k
      ensures OfDegree(J, 0)(s[i]) == ZERO
    {
      if |s[i]| == J.Q && Degree(s[i]) == 0 {
        DegreeZeroIndex(s[i]);
      }
    }
    SumListSingle(s, k, OfDegree(J, 0));
    assert IsTaylor(At(J, e), ONE, coeffs, e);
    MulUnits(TaylorAt(coeffs, e));
    SumCongruence(J.Q, Constants(coeffs), ChannelTerms(coeffs, 0));
  }

  /** Main result: at an anchor the continuous carrier equals the jet carrier at every
      horizon exactly when, degree by degree, the channels other than the first cancel (and
      degrees from N_phi on vanish altogether). */
  lemma {:induction false} AnchorContinuousIsJet(J: Jet, coeffs: seq<seq<Complex>>, nPhi: int)
    requires TaylorJet(J, coeffs) && J.Q > 0
    ensures Dense(J)
    ensures ContinuousIsJet(J, nPhi) <==>
      forall n: nat :: n <= J.order ==> ChannelsCancel(coeffs, nPhi, n)
  {
    hide At, Degree, Supported, IsTaylor, DegreeSums, ContinuousIsJet;
    SupportedSize(J.coeff, J.Q, J.order);
    ContinuousIsJetExactly(J, nPhi);
    forall n: nat | n <= J.order
      ensures DegreeSums(J)[n] == SmoothAt(J, nPhi, n) <==> ChannelsCancel(coeffs, nPhi, n)
    {
      AnchorDegreeSum(J, coeffs, n);
      SmoothOfAnchorOrZero(J, coeffs, nPhi, n);
    }
  }

  /** The degree-n coefficients of all channels add up to what the smooth past keeps. */
  ghost predicate ChannelsCancel(coeffs: seq<seq<Complex>>, nPhi: int, n: nat) {
    |coeffs| > 0 &&
    var all := Sum(|coeffs|, ChannelTerms(coeffs, n));
    if n >= nPhi then all == ZERO else n == 0 || all == SampleAt(coeffs[0], n)
  }

  lemma {:induction false} SmoothOfAnchorOrZero(J: Jet, coeffs: seq<seq<Complex>>, nPhi: int, n: nat)
    requires TaylorJet(J, coeffs) && J.Q > 0 && n <= J.order && Dense(J)
    ensures SmoothAt(J, nPhi, n)
         == if n >= nPhi then ZERO
            else if n == 0 then Sum(J.Q, ChannelTerms(coeffs, 0)) else SampleAt(coeffs[0], n)
  {
    hide At, Degree, Supported, IsTaylor;
    if n < nPhi {
      SmoothOfAnchor(J, coeffs, nPhi, n);
      SumCongruence(J.Q, Constants(coeffs), ChannelTerms(coeffs, 0));
    }
  }

  lemma {:induction false} TaylorChannels(J: Jet, coeffs: seq<seq<Complex>>)
    requires TaylorJet(J, coeffs)
    ensures |coeffs| == J.Q
  {
  }

  /** The identity does fail: when the high and the close move together and the other
      channels stand still, the jet carrier leaves the continuous one. */
  lemma {:induction false} OtherChannelsBreakIdentity(J: Jet, coeffs: seq<seq<Complex>>, nPhi: int, g: real)
    requires TaylorJet(J, coeffs) && J.Q == 5 == |coeffs| && J.order == 1 && nPhi >= 2 && g != 0.0
    requires forall q :: 0 <= q < 5 ==> SampleAt(coeffs[q], 1) == if q == 1 || q == 3 then OfReal(g) else ZERO
    ensures Dense(J) && !ContinuousIsJet(J, nPhi)
  {
    hide TaylorJet, Dense, ContinuousIsJet, ChannelsCancel;
    HighAndCloseMove(coeffs, nPhi, g);
    TaylorChannels(J, coeffs);
    AnchorContinuousIsJet(J, coeffs, nPhi);
    assert !ChannelsCancel(coeffs, nPhi, 1);
  }

  lemma {:induction false} HighAndCloseMove(coeffs: seq<seq<Complex>>, nPhi: int, g: real)
    requires |coeffs| == 5 && nPhi >= 2 && g != 0.0
    requires forall q :: 0 <= q < 5 ==> SampleAt(coeffs[q], 1) == if q == 1 || q == 3 then OfReal(g) else ZERO
    ensures !ChannelsCancel(coeffs, nPhi, 1)
  {
    hide Sum, SampleAt;
    TwoMovers(ChannelTerms(coeffs, 1), OfReal(g));
    assert Add(OfReal(g), OfReal(g)) != ZERO;
  }

  ghost function Only(k: nat, v: Complex): nat -> Complex {
    (q: nat) => if q == k then v else ZERO
  }

  lemma {:induction false} TwoMovers(f: nat -> Complex, v: Complex)
    requires forall q: nat :: q < 5 ==> f(q) == if q == 1 || q == 3 then v else ZERO
    ensures Sum(5, f) == Add(v, v)
  {
    hide Sum;
    SumSingle(5, 1, Only(1, v));
    SumSingle(5, 3, Only(3, v));
    SumAdd(5, Only(1, v), Only(3, v), f);
  }

  /** The five columns of the market state (src/data/feature_map.cpp:9-22), for a given
      logarithm. */
  function MarketColumns(x: seq<Candle>, log: real -> real, norm: real): (xs: seq<seq<real>>)
    requires norm > 0.0
    ensures |xs| == 5 && forall q :: 0 <= q < 5 ==> |xs[q]| == |x|
  {
    [seq(|x|, i requires 0 <= i < |x| => log(x[i].open)), seq(|x|, i requires 0 <= i < |x| => log(x[i].high)),
     seq(|x|, i requires 0 <= i < |x| => log(x[i].low)), seq(|x|, i requires 0 <= i < |x| => log(x[i].close)),
     seq(|x|, i requires 0 <= i < |x| => log(1.0 + MaxReal(x[i].volume, 0.0) / norm))]
  }

  /** Two bars at price one, of which the second rallies to p and closes there. */
  function Rally(p: real): seq<Candle> {
    [Candle(0, 1.0, 1.0, 1.0, 1.0, 0.0), Candle(1, 1.0, p, 1.0, p, 0.0)]
  }

  lemma {:induction false} RallySlopes(p: real, log: real -> real, norm: real)
    requires norm > 0.0 && log(1.0) == 0.0
    ensures forall q :: 0 <= q < 5 ==>
      AnchorGerms(MarketColumns(Rally(p), log, norm), 2, 1, 1)[q][1]
        == if q == 1 || q == 3 then OfReal(log(p)) else ZERO
  {
    hide GermCoefficient;
    var xs := MarketColumns(Rally(p), log, norm);
    assert MaxReal(0.0, 0.0) / norm == 0.0;
    forall q | 0 <= q < 5
      ensures AnchorGerms(xs, 2, 1, 1)[q][1] == OfReal(xs[q][1] - xs[q][0])
    {
      SlopeOfTwoBars(xs[q]);
      assert Clamp(1, 0, 1) == 1;
    }
  }

  lemma {:induction false} SlopeOfTwoBars(x: seq<real>)
    requires |x| == 2
    ensures GermCoefficient(x, 1, 1) == OfReal(x[1] - x[0])
  {
    hide Difference, Factorial, DivReal;
    var p := Lookback(x, 1);
    FirstDifferences(p);
    SmallFactorials();
    DivByOne(OfReal(x[1] - x[0]));
    assert p(0) == OfReal(x[1]) && p(1) == OfReal(x[0]);
  }

  /** On these bars, which the validator accepts, the engine's own jet breaks the identity,
      whatever the logarithm. */
  lemma {:induction false} RallyBreaksIdentity(J: Jet, nPhi: int, p: real, log: real -> real, norm: real)
    requires p > 1.0 && norm > 0.0 && log(1.0) == 0.0 && log(p) != 0.0
    requires TaylorJet(J, AnchorGerms(MarketColumns(Rally(p), log, norm), 2, 1, 1)) && J.Q == 5 && J.order == 1
    requires nPhi >= 2
    ensures ValidCandles(Rally(p))
    ensures Dense(J) && !ContinuousIsJet(J, nPhi)
  {
    hide TaylorJet, Dense, ContinuousIsJet, AnchorGerms, MarketColumns;
    var xs := MarketColumns(Rally(p), log, norm);
    RallySlopes(p, log, norm);
    GermLengths(xs, 2, 1, 1);
    OtherChannelsBreakIdentity(J, AnchorGerms(xs, 2, 1, 1), nPhi, log(p));
  }
}
