/** The local sector certificate (src/engine/pipeline.cpp): how far ahead of an anchor the
    carriers are certified to agree, and their largest gaps on that sector. */
module Sector {
  import opened ComplexField
  import opened Elimination
  import opened Spectral
  import opened FutureSection
  import opened Evolution

  /** A nonnegative quantity that may be infinite. */
  datatype Bound = Finite(value: real) | Infinite

  predicate Below(b: Bound, tol: real) {
    b.Finite? && BelowTolerance(b.value, tol)
  }

  function ClampH(h: int, H: int): (r: int)
    ensures -1 <= r && (H >= 0 ==> r <= H) && (h >= 0 && H >= 0 ==> r <= h)
  {
    if H < 0 then -1 else if h < 0 then -1 else if h < H then h else H
  }

  function MinInt(a: int, b: int): int {
    if a < b then a else b
  }

  // ---------------------------------------------------------------- structural caps

  /** `coeff_cap_h`, for a given estimate of the radius of convergence. */
  function CoefficientCap(radius: Bound, H: int): (r: int)
    ensures r <= H || r == -1
  {
    if radius.Infinite? then H
    else if 0.9 * radius.value < 0.0 then -1
    else ClampH((0.9 * radius.value).Floor, H)
  }

  /** `condition_cap_h`. */
  function ConditionCap(cond: Bound, H: int): (r: int)
    requires H >= 0
    ensures 0 <= r && (r <= H || r == 1)
  {
    if cond.Infinite? then 0
    else if cond.value <= 100.0 then H
    else if cond.value <= 1000.0 then if H / 2 > 1 then H / 2 else 1
    else if cond.value <= 10000.0 then if H / 4 > 1 then H / 4 else 1
    else if cond.value <= 1000000.0 then if H / 8 > 1 then H / 8 else 1
    else 0
  }

  ghost predicate FirstOnset(b: Bound, sigma: seq<real>) {
    match b
    case Infinite => forall l :: 0 <= l < |sigma| ==> sigma[l] <= 0.0
    case Finite(m) =>
      m > 0.0 && m in sigma && forall l :: 0 <= l < |sigma| && sigma[l] > 0.0 ==> m <= sigma[l]
  }

  /** `packet_cap_h`: the last whole horizon before the first positive onset. */
  method PacketCap(sigma: seq<real>, H: nat) returns (cap: int)
    ensures exists b :: FirstOnset(b, sigma) && cap == CapBefore(b, H)
  {
    var first := Infinite;
    var l := 0;
    while l < |sigma|
      invariant 0 <= l <= |sigma| && FirstOnset(first, sigma[..l])
    {
      assert sigma[..l + 1] == sigma[..l] + [sigma[l]];
      if sigma[l] > 0.0 && (first.Infinite? || sigma[l] < first.value) {
        first := Finite(sigma[l]);
      }
      l := l + 1;
    }
    assert sigma[..l] == sigma;
    cap := CapBefore(first, H);
  }

  function CapBefore(first: Bound, H: nat): int {
    if first.Infinite? then H else ClampH((first.value - 0.000000001).Floor, H)
  }

  /** With whole positive onsets the cap is exact: up to it no packet is active, and past it
      one is. */
  lemma {:induction false} PacketCapExact(sec: Section, first: Bound, H: nat, h: nat)
    requires FirstOnset(first, sec.sigma) && h <= H
    requires forall l :: 0 <= l < |sec.sigma| ==> sec.sigma[l] >= 1.0 && sec.sigma[l] == sec.sigma[l].Floor as real
    ensures h <= CapBefore(first, H) <==> NoPacketActive(sec, h as real)
  {
    if first.Finite? {
      var l :| 0 <= l < |sec.sigma| && sec.sigma[l] == first.value;
      var k := first.value.Floor;
      assert (first.value - 0.000000001).Floor == k - 1;
    }
  }

  // ---------------------------------------------------------------- the residual cap

  /** All required neighbours agree within tolerance at entry h. */
  ghost predicate Passes(ee: Carriers, h: nat, tolEvolution: real, tolClosure: real) {
    && h < |ee.continuous| && h < |ee.jet| && h < |ee.newton| && h < |ee.matrix|
    && Close(ee.continuous[h], ee.jet[h], tolEvolution)
    && Close(ee.jet[h], ee.newton[h], tolEvolution)
    && Close(ee.newton[h], ee.matrix[h], tolEvolution)
    && (ee.closed ==>
          && h < |ee.rational| && h < |ee.spectral|
          && Close(ee.matrix[h], ee.rational[h], tolClosure)
          && Close(ee.rational[h], ee.spectral[h], tolClosure))
  }

  function Last(s: seq<Complex>): int {
    if s == [] then 0 else |s| - 1
  }

  predicate Missing(ee: Carriers) {
    || ee.continuous == [] || ee.jet == [] || ee.newton == [] || ee.matrix == []
    || (ee.closed && (ee.rational == [] || ee.spectral == []))
  }

  /** The last entry all required carriers have, at most H. */
  function Horizon(ee: Carriers, H: nat): (m: nat)
    ensures m <= H
  {
    var four := MinInt(MinInt(MinInt(MinInt(H, Last(ee.continuous)), Last(ee.jet)), Last(ee.newton)), Last(ee.matrix));
    if ee.closed then MinInt(MinInt(four, Last(ee.rational)), Last(ee.spectral)) else four
  }

  /** c is the end of the longest passing prefix of 0..m, or -1. */
  ghost predicate LongestPrefix(c: int, ee: Carriers, m: nat, tolEvolution: real, tolClosure: real) {
    && -1 <= c <= m
    && (forall h: nat :: h <= c ==> Passes(ee, h, tolEvolution, tolClosure))
    && (c < m ==> !Passes(ee, c + 1, tolEvolution, tolClosure))
  }

  /** `residual_cap_h`. */
  method ResidualCap(ee: Carriers, H: int, tolEvolution: real, tolClosure: real) returns (cap: int)
    ensures H < 0 || Missing(ee) ==> cap == -1
    ensures H >= 0 && !Missing(ee) ==> LongestPrefix(cap, ee, Horizon(ee, H), tolEvolution, tolClosure)
  {
    hide Close;
    if H < 0 || Missing(ee) {
      return -1;
    }
    var maxH := Horizon(ee, H);
    var lastOk := -1;
    var h := 0;
    while h <= maxH
      invariant 0 <= h <= maxH + 1 && lastOk == h - 1
      invariant forall k: nat :: k < h ==> Passes(ee, k, tolEvolution, tolClosure)
    {
      if !Close(ee.continuous[h], ee.jet[h], tolEvolution) || !Close(ee.jet[h], ee.newton[h], tolEvolution)
         || !Close(ee.newton[h], ee.matrix[h], tolEvolution)
      {
        break;
      }
      if ee.closed {
        if !Close(ee.matrix[h], ee.rational[h], tolClosure) || !Close(ee.rational[h], ee.spectral[h], tolClosure) {
          break;
        }
      }
      lastOk := h;
      h := h + 1;
    }
    cap := ClampH(lastOk, H);
  }

  // ---------------------------------------------------------------- the certificate

  datatype Certificate = Certificate(coefficientCap: int, packetCap: int, conditionCap: int, structuralCap: int,
                                     residualCap: int, validMax: int, validCount: nat, fraction: real, verified: bool)

  const MIN_VALID_COUNT: nat := 2

  ghost predicate CertificateOf(c: Certificate, sec: Section, ee: Carriers, H: nat, tolEvolution: real,
                                tolClosure: real) {
    && (exists b :: FirstOnset(b, sec.sigma) && c.packetCap == CapBefore(b, H))
    && (Missing(ee) ==> c.residualCap == -1)
    && (!Missing(ee) ==> LongestPrefix(c.residualCap, ee, Horizon(ee, H), tolEvolution, tolClosure))
    && c.structuralCap == ClampH(MinInt(c.coefficientCap, MinInt(c.packetCap, c.conditionCap)), H)
    && c.validMax == ClampH(MinInt(c.structuralCap, c.residualCap), H)
    && c.validCount == c.validMax + 1 && c.fraction == c.validCount as real / (H + 1) as real
    && c.verified == (c.validCount >= MIN_VALID_COUNT)
  }

  /** `build_local_theorem_sector`.  The radius estimate and the condition number are given. */
  method BuildSector(sec: Section, ee: Carriers, radius: Bound, cond: Bound, cfgH: int, tolEvolution: real,
                     tolClosure: real)
    returns (c: Certificate)
    ensures var H := if cfgH < 0 then 0 else cfgH;
      CertificateOf(c, sec, ee, H, tolEvolution, tolClosure) &&
      c.coefficientCap == CoefficientCap(radius, H) && c.conditionCap == ConditionCap(cond, H) &&
      0.0 <= c.fraction <= 1.0
  {
    hide LongestPrefix, FirstOnset, Missing;
    var H: nat := if cfgH < 0 then 0 else cfgH;
    var coefficientCap := CoefficientCap(radius, H);
    var packetCap := PacketCap(sec.sigma, H);
    var conditionCap := ConditionCap(cond, H);
    var structuralCap := ClampH(MinInt(coefficientCap, MinInt(packetCap, conditionCap)), H);
    var residualCap := ResidualCap(ee, H, tolEvolution, tolClosure);
    var validMax := ClampH(MinInt(structuralCap, residualCap), H);
    var validCount: nat := if validMax >= 0 then validMax + 1 else 0;
    var fraction := validCount as real / (H + 1) as real;
    FractionBound(validCount, H + 1);
    c := Certificate(coefficientCap, packetCap, conditionCap, structuralCap, residualCap, validMax, validCount,
      fraction, validCount >= MIN_VALID_COUNT);
  }

  lemma {:induction false} OnsetOnce(a: Bound, b: Bound, sigma: seq<real>)
    requires FirstOnset(a, sigma) && FirstOnset(b, sigma)
    ensures a == b
  {
  }

  lemma {:induction false} PrefixOnce(x: int, y: int, ee: Carriers, m: nat, tolEvolution: real, tolClosure: real)
    requires LongestPrefix(x, ee, m, tolEvolution, tolClosure) && LongestPrefix(y, ee, m, tolEvolution, tolClosure)
    ensures x == y
  {
    hide Passes;
    var p: nat, q: nat := x + 1, y + 1;
    assert p <= y ==> Passes(ee, p, tolEvolution, tolClosure);
    assert q <= x ==> Passes(ee, q, tolEvolution, tolClosure);
  }

  /** Carriers, section and the two estimates determine the certificate. */
  lemma {:induction false} CertificateOnce(c: Certificate, d: Certificate, sec: Section, ee: Carriers, H: nat,
                                           tolEvolution: real, tolClosure: real)
    requires CertificateOf(c, sec, ee, H, tolEvolution, tolClosure)
    requires CertificateOf(d, sec, ee, H, tolEvolution, tolClosure)
    requires c.coefficientCap == d.coefficientCap && c.conditionCap == d.conditionCap
    ensures c == d
  {
    hide FirstOnset, LongestPrefix, Missing, Horizon, ClampH;
    var a :| FirstOnset(a, sec.sigma) && c.packetCap == CapBefore(a, H);
    var b :| FirstOnset(b, sec.sigma) && d.packetCap == CapBefore(b, H);
    OnsetOnce(a, b, sec.sigma);
    if !Missing(ee) {
      PrefixOnce(c.residualCap, d.residualCap, ee, Horizon(ee, H), tolEvolution, tolClosure);
    }
  }

  lemma {:induction false} FractionBound(a: nat, b: nat)
    requires a <= b && b > 0
    ensures 0.0 <= a as real / b as real <= 1.0
  {
    var q := a as real / b as real;
    assert q * b as real == a as real;
    if q < 0.0 || q > 1.0 {
      OutOfRange(q, b as real, a as real);
    }
  }

  lemma {:induction false} OutOfRange(q: real, b: real, p: real)
    requires b > 0.0 && q * b == p && 0.0 <= p <= b
    ensures 0.0 <= q <= 1.0
  {
    if q < 0.0 {
      ProductPositive(-q, b, -q * b);
    } else if q > 1.0 {
      ProductPositive(q - 1.0, b, (q - 1.0) * b);
    }
  }

  lemma {:induction false} StructuralBelowPacket(c: Certificate, H: nat)
    requires c.structuralCap == ClampH(MinInt(c.coefficientCap, MinInt(c.packetCap, c.conditionCap)), H)
    requires c.validMax == ClampH(MinInt(c.structuralCap, c.residualCap), H) && c.validMax >= 0
    ensures c.validMax <= c.packetCap && c.validMax <= c.residualCap && c.validMax <= H
  {
  }

  /** Main result, sector soundness: at every whole horizon of the certified sector all
      required neighbours agree within tolerance, no packet is active, and the full future
      section is the smooth one. */
  lemma {:induction false} SectorSound(c: Certificate, sec: Section, ee: Carriers, H: nat, tolEvolution: real,
                                       tolClosure: real, h: nat)
    requires CertificateOf(c, sec, ee, H, tolEvolution, tolClosure) && h <= c.validMax
    requires WellShaped(sec)
    requires forall l :: 0 <= l < |sec.sigma| ==> sec.sigma[l] >= 1.0 && sec.sigma[l] == sec.sigma[l].Floor as real
    ensures Passes(ee, h, tolEvolution, tolClosure)
    ensures NoPacketActive(sec, h as real) && Full(sec, h as real) == Smooth(sec, h as real)
  {
    hide Passes, FirstOnset, Missing, Full, Smooth, NoPacketActive, Horizon;
    StructuralBelowPacket(c, H);
    var b :| FirstOnset(b, sec.sigma) && c.packetCap == CapBefore(b, H);
    PacketCapExact(sec, b, H, h);
    FullIsSmooth(sec, h as real);
  }

  // ---------------------------------------------------------------- residuals on the sector

  datatype Residuals = Residuals(cj: Bound, jn: Bound, nm: Bound, mr: Bound, rs: Bound, finite: bool)

  function NoResiduals(): Residuals {
    Residuals(Infinite, Infinite, Infinite, Infinite, Infinite, false)
  }

  /** m is the largest gap over entries 0..n-1. */
  ghost predicate LargestUpTo(m: Bound, a: seq<Complex>, b: seq<Complex>, n: nat) {
    && m.Finite? && n <= |a| && n <= |b| && m.value >= 0.0
    && (forall i: nat :: i < n ==> Gap(a, b, i) <= m.value)
    && (m.value == 0.0 || exists i: nat :: i < n && Gap(a, b, i) == m.value)
  }

  predicate Enough(ee: Carriers, need: nat) {
    |ee.continuous| >= need && |ee.jet| >= need && |ee.newton| >= need && |ee.matrix| >= need
  }

  predicate EnoughClosed(ee: Carriers, need: nat) {
    ee.closed ==> |ee.rational| >= need && |ee.spectral| >= need
  }

  function Raise(m: Bound, a: seq<Complex>, b: seq<Complex>, i: nat): Bound
    requires m.Finite? && i < |a| && i < |b|
  {
    Finite(if Gap(a, b, i) > m.value then Gap(a, b, i) else m.value)
  }

  lemma {:induction false} RaiseKeeps(m: Bound, a: seq<Complex>, b: seq<Complex>, i: nat)
    requires LargestUpTo(m, a, b, i) && i < |a| && i < |b|
    ensures LargestUpTo(Raise(m, a, b, i), a, b, i + 1)
  {
    hide Norm2;
    if Gap(a, b, i) <= m.value && m.value != 0.0 {
      var k: nat :| k < i && Gap(a, b, k) == m.value;
      assert k < i + 1;
    }
  }

  /** The largest gaps on the sector 0..hMax: infinite without a sector or without carriers
      that cover it, and cut short after the first entry when only the closing two are too
      short; an open regime has no closing gaps. */
  ghost predicate ResidualsOf(res: Residuals, ee: Carriers, hMax: int) {
    if hMax < 0 || !Enough(ee, hMax + 1) then res == NoResiduals()
    else
      var n := if EnoughClosed(ee, hMax + 1) then hMax + 1 else 1;
      && LargestUpTo(res.cj, ee.continuous, ee.jet, n)
      && LargestUpTo(res.jn, ee.jet, ee.newton, n)
      && LargestUpTo(res.nm, ee.newton, ee.matrix, n)
      && (!ee.closed ==> res.mr == res.rs == Finite(0.0))
      && (ee.closed && EnoughClosed(ee, hMax + 1) ==>
            LargestUpTo(res.mr, ee.matrix, ee.rational, n) && LargestUpTo(res.rs, ee.rational, ee.spectral, n))
      && (!EnoughClosed(ee, hMax + 1) ==> res.mr == res.rs == Infinite)
      && res.finite == EnoughClosed(ee, hMax + 1)
  }

  /** `summarize_local_residuals`. */
  method SummarizeResiduals(ee: Carriers, hMax: int) returns (out: Residuals)
    ensures ResidualsOf(out, ee, hMax)
  {
    hide LargestUpTo, Raise;
    out := NoResiduals();
    if hMax < 0 || !Enough(ee, hMax + 1) {
      return;
    }
    var cj, jn, nm, mr, rs := Finite(0.0), Finite(0.0), Finite(0.0), Finite(0.0), Finite(0.0);
    StartAtZero(ee.continuous, ee.jet);
    StartAtZero(ee.jet, ee.newton);
    StartAtZero(ee.newton, ee.matrix);
    StartAtZero(ee.matrix, ee.rational);
    StartAtZero(ee.rational, ee.spectral);
    var h := 0;
    while h <= hMax
      invariant 0 <= h <= hMax + 1 && Enough(ee, hMax + 1)
      invariant h > 0 ==> EnoughClosed(ee, hMax + 1)
      invariant !ee.closed ==> mr == rs == Finite(0.0)
      invariant LargestUpTo(cj, ee.continuous, ee.jet, h)
      invariant LargestUpTo(jn, ee.jet, ee.newton, h)
      invariant LargestUpTo(nm, ee.newton, ee.matrix, h)
      invariant ee.closed ==> LargestUpTo(mr, ee.matrix, ee.rational, h)
      invariant ee.closed ==> LargestUpTo(rs, ee.rational, ee.spectral, h)
    {
      RaiseStep(cj, ee.continuous, ee.jet, h);
      RaiseStep(jn, ee.jet, ee.newton, h);
      RaiseStep(nm, ee.newton, ee.matrix, h);
      cj, jn, nm := Raise(cj, ee.continuous, ee.jet, h), Raise(jn, ee.jet, ee.newton, h),
        Raise(nm, ee.newton, ee.matrix, h);
      if ee.closed {
        if |ee.rational| < hMax + 1 || |ee.spectral| < hMax + 1 {
          return Residuals(cj, jn, nm, Infinite, Infinite, false);
        }
        RaiseStep(mr, ee.matrix, ee.rational, h);
        RaiseStep(rs, ee.rational, ee.spectral, h);
        mr, rs := Raise(mr, ee.matrix, ee.rational, h), Raise(rs, ee.rational, ee.spectral, h);
      }
      h := h + 1;
    }
    out := Residuals(cj, jn, nm, mr, rs, true);
  }

  lemma {:induction false} LargestOnce(x: Bound, y: Bound, a: seq<Complex>, b: seq<Complex>, n: nat)
    requires LargestUpTo(x, a, b, n) && LargestUpTo(y, a, b, n)
    ensures x == y
  {
    hide Norm2;
    assert x.value <= y.value && y.value <= x.value;
  }

  lemma {:induction false} ResidualsOnce(x: Residuals, y: Residuals, ee: Carriers, hMax: int)
    requires ResidualsOf(x, ee, hMax) && ResidualsOf(y, ee, hMax)
    ensures x == y
  {
    hide LargestUpTo;
    if hMax >= 0 && Enough(ee, hMax + 1) {
      var n := if EnoughClosed(ee, hMax + 1) then hMax + 1 else 1;
      LargestOnce(x.cj, y.cj, ee.continuous, ee.jet, n);
      LargestOnce(x.jn, y.jn, ee.jet, ee.newton, n);
      LargestOnce(x.nm, y.nm, ee.newton, ee.matrix, n);
      if ee.closed && EnoughClosed(ee, hMax + 1) {
        LargestOnce(x.mr, y.mr, ee.matrix, ee.rational, n);
        LargestOnce(x.rs, y.rs, ee.rational, ee.spectral, n);
      }
    }
  }

  lemma {:induction false} StartAtZero(a: seq<Complex>, b: seq<Complex>)
    ensures LargestUpTo(Finite(0.0), a, b, 0)
  {
  }

  lemma {:induction false} RaiseStep(m: Bound, a: seq<Complex>, b: seq<Complex>, i: nat)
    requires LargestUpTo(m, a, b, i) && i < |a| && i < |b|
    ensures m.Finite? && LargestUpTo(Raise(m, a, b, i), a, b, i + 1)
  {
    RaiseKeeps(m, a, b, i);
  }

  lemma {:induction false} LargestBelow(m: Bound, a: seq<Complex>, b: seq<Complex>, n: nat, tol: real)
    requires LargestUpTo(m, a, b, n) && n > 0
    requires forall i: nat :: i < n ==> Close(a[i], b[i], tol)
    ensures Below(m, tol)
  {
    hide Norm2, Square;
    assert Close(a[0], b[0], tol);
    TolerancePositive(tol);
    if m.value != 0.0 {
      var i: nat :| i < n && Gap(a, b, i) == m.value;
      assert Close(a[i], b[i], tol);
    }
  }

  /** On a certified sector the certificate alone decides whether the residuals are below
      tolerance: all of them are when one horizon or more is certified, and none is otherwise. */
  lemma {:induction false} ResidualsExactly(c: Certificate, sec: Section, ee: Carriers, H: nat, tolEvolution: real,
                                            tolClosure: real, res: Residuals)
    requires CertificateOf(c, sec, ee, H, tolEvolution, tolClosure) && ResidualsOf(res, ee, c.validMax)
    ensures Below(res.cj, tolEvolution) <==> c.validMax >= 0
    ensures Below(res.jn, tolEvolution) <==> c.validMax >= 0
    ensures Below(res.nm, tolEvolution) <==> c.validMax >= 0
    ensures ee.closed ==> (Below(res.mr, tolClosure) <==> c.validMax >= 0)
    ensures ee.closed ==> (Below(res.rs, tolClosure) <==> c.validMax >= 0)
    ensures c.verified ==> c.validMax >= 1
  {
    hide Below, LargestUpTo, FirstOnset, Close;
    var n := c.validMax + 1;
    if c.validMax < 0 {
      NothingBelow(tolEvolution);
      NothingBelow(tolClosure);
    } else {
      StructuralBelowPacket(c, H);
      PrefixPasses(c, ee, H, tolEvolution, tolClosure);
      forall i: nat | i < n
        ensures Close(ee.continuous[i], ee.jet[i], tolEvolution)
        ensures Close(ee.jet[i], ee.newton[i], tolEvolution)
        ensures Close(ee.newton[i], ee.matrix[i], tolEvolution)
        ensures ee.closed ==> Close(ee.matrix[i], ee.rational[i], tolClosure)
        ensures ee.closed ==> Close(ee.rational[i], ee.spectral[i], tolClosure)
      {
        assert Passes(ee, i, tolEvolution, tolClosure);
      }
      LargestBelow(res.cj, ee.continuous, ee.jet, n, tolEvolution);
      LargestBelow(res.jn, ee.jet, ee.newton, n, tolEvolution);
      LargestBelow(res.nm, ee.newton, ee.matrix, n, tolEvolution);
      if ee.closed {
        LargestBelow(res.mr, ee.matrix, ee.rational, n, tolClosure);
        LargestBelow(res.rs, ee.rational, ee.spectral, n, tolClosure);
      }
    }
  }

  lemma {:induction false} NothingBelow(tol: real)
    ensures !Below(Infinite, tol)
  {
  }

  lemma {:induction false} PrefixPasses(c: Certificate, ee: Carriers, H: nat, tolEvolution: real, tolClosure: real)
    requires 0 <= c.validMax <= c.residualCap
    requires Missing(ee) ==> c.residualCap == -1
    requires !Missing(ee) ==> LongestPrefix(c.residualCap, ee, Horizon(ee, H), tolEvolution, tolClosure)
    ensures Enough(ee, c.validMax + 1) && EnoughClosed(ee, c.validMax + 1)
    ensures forall h: nat :: h <= c.validMax ==> Passes(ee, h, tolEvolution, tolClosure)
  {
    hide Close, Horizon;
    assert Passes(ee, c.validMax, tolEvolution, tolClosure);
  }
}
