/** Candles, their validation (src/data/canonicalizer.cpp) and resampling
    (src/data/resampler.cpp). */
module Candles {
  import MultiIndex
  import opened Reals

  datatype Candle = Candle(ts: int, open: real, high: real, low: real, close: real, volume: real)

  // ---------------------------------------------------------------- validation

  datatype Verdict = Valid | LowViolated(i: nat) | HighViolated(i: nat) | NegativeVolume(i: nat) | NotIncreasing(i: nat)

  predicate Ordered(c: Candle) {
    c.low <= c.open && c.low <= c.close && c.low <= c.high && c.high >= c.open && c.high >= c.close
  }

  ghost predicate ValidUpTo(x: seq<Candle>, n: nat) {
    n <= |x| && forall i :: 0 <= i < n ==> Ordered(x[i]) && x[i].volume >= 0.0 && (i > 0 ==> x[i].ts > x[i - 1].ts)
  }

  ghost predicate ValidCandles(x: seq<Candle>) {
    ValidUpTo(x, |x|)
  }

  /** `validate_candles`: the first violation, or none. */
  method ValidateCandles(x: seq<Candle>) returns (v: Verdict)
    ensures v.Valid? <==> ValidCandles(x)
    ensures !v.Valid? ==> v.i < |x| && ValidUpTo(x, v.i) && !ValidUpTo(x, v.i + 1)
    ensures v.NegativeVolume? ==> Ordered(x[v.i]) && x[v.i].volume < 0.0
    ensures v.NotIncreasing? ==> Ordered(x[v.i]) && 0 < v.i && x[v.i].ts <= x[v.i - 1].ts
  {
    var i := 0;
    while i < |x|
      invariant 0 <= i <= |x| && ValidUpTo(x, i)
    {
      var c := x[i];
      if !(c.low <= c.open && c.low <= c.close && c.low <= c.high) {
        return LowViolated(i);
      }
      if !(c.high >= c.open && c.high >= c.close && c.high >= c.low) {
        return HighViolated(i);
      }
      if !(c.volume >= 0.0) {
        return NegativeVolume(i);
      }
      if i > 0 && !(c.ts > x[i - 1].ts) {
        return NotIncreasing(i);
      }
      i := i + 1;
    }
    v := Valid;
  }

  // ---------------------------------------------------------------- merging

  /** c followed by d, as one candle. */
  function Combine(c: Candle, d: Candle): Candle {
    Candle(c.ts, c.open, MaxReal(c.high, d.high), MinReal(c.low, d.low), d.close, c.volume + d.volume)
  }

  function Merge(g: seq<Candle>): Candle
    requires g != []
  {
    if |g| == 1 then g[0] else Combine(Merge(g[..|g| - 1]), g[|g| - 1])
  }

  function TotalVolume(g: seq<Candle>): real {
    if g == [] then 0.0 else TotalVolume(g[..|g| - 1]) + g[|g| - 1].volume
  }

  /** What merging means, without the fold: opening of the first, close of the last, the
      extremes over all, the summed volume. */
  lemma {:induction false} MergeMeaning(g: seq<Candle>)
    requires g != []
    ensures var m := Merge(g);
      && m.ts == g[0].ts && m.open == g[0].open && m.close == g[|g| - 1].close
      && m.volume == TotalVolume(g)
      && (forall i :: 0 <= i < |g| ==> g[i].high <= m.high && m.low <= g[i].low)
      && (exists i :: 0 <= i < |g| && g[i].high == m.high)
      && (exists i :: 0 <= i < |g| && g[i].low == m.low)
  {
    var n := |g| - 1;
    if n == 0 {
      assert TotalVolume(g) == TotalVolume(g[..0]) + g[0].volume;
      assert g[0].high == Merge(g).high && g[0].low == Merge(g).low;
    } else {
      var init := g[..n];
      MergeMeaning(init);
      var h :| 0 <= h < n && init[h].high == Merge(init).high;
      var l :| 0 <= l < n && init[l].low == Merge(init).low;
      assert g[h].high == Merge(init).high && g[l].low == Merge(init).low;
      assert Merge(g) == Combine(Merge(init), g[n]);
      assert Merge(g).high == g[h].high || Merge(g).high == g[n].high;
      assert Merge(g).low == g[l].low || Merge(g).low == g[n].low;
    }
  }

  lemma {:induction false} CombineAssociative(a: Candle, b: Candle, c: Candle)
    ensures Combine(Combine(a, b), c) == Combine(a, Combine(b, c))
  {
  }

  lemma {:induction false} MergeConcat(g: seq<Candle>, h: seq<Candle>)
    requires g != [] && h != []
    ensures Merge(g + h) == Combine(Merge(g), Merge(h))
    decreases |h|
  {
    hide Combine;
    var n := |h| - 1;
    assert (g + h)[..|g| + n] == g + h[..n];
    if n == 0 {
      assert g + h[..0] == g;
    } else {
      MergeConcat(g, h[..n]);
      CombineAssociative(Merge(g), Merge(h[..n]), h[n]);
    }
  }

  // ---------------------------------------------------------------- resampling

  function Cut(x: seq<Candle>, f: nat): nat {
    if f < |x| then f else |x|
  }

  /** Consecutive groups of f candles, the last one possibly shorter, each merged. */
  function Resampled(x: seq<Candle>, f: nat): seq<Candle>
    requires f >= 1
    decreases |x|
  {
    if x == [] then [] else [Merge(x[..Cut(x, f)])] + Resampled(x[Cut(x, f)..], f)
  }

  lemma {:induction false} ResampledStep(x: seq<Candle>, f: nat)
    requires f >= 1 && x != []
    ensures Resampled(x, f) == [Merge(x[..Cut(x, f)])] + Resampled(x[Cut(x, f)..], f)
  {
  }

  /** The number of groups, ragged one included. */
  lemma {:induction false} ResampledSize(x: seq<Candle>, f: nat)
    requires f >= 1
    ensures |Resampled(x, f)| == (|x| + f - 1) / f
    decreases |x|
  {
    if x != [] {
      var rest := x[Cut(x, f)..];
      ResampledSize(rest, f);
      if f < |x| {
        GroupCount(|x|, f);
      } else {
        assert |rest| == 0;
        SmallQuotient(f - 1, f);
        OneGroup(|x|, f);
      }
    } else {
      SmallQuotient(f - 1, f);
    }
  }

  lemma {:induction false} SmallQuotient(a: nat, f: nat)
    requires a < f
    ensures a / f == 0
  {
  }

  lemma {:induction false} GroupCount(n: nat, f: nat)
    requires 1 <= f < n
    ensures (n + f - 1) / f == 1 + (n - 1) / f
  {
    var q, r := (n - 1) / f, (n - 1) % f;
    assert n - 1 == q * f + r;
    NextMultiple(q, f);
    MultiIndex.DivisionUnique(q + 1, r, f);
  }

  lemma {:induction false} NextMultiple(q: nat, f: nat)
    ensures (q + 1) * f == q * f + f
  {
  }

  lemma {:induction false} OneGroup(n: nat, f: nat)
    requires 1 <= n <= f
    ensures (n + f - 1) / f == 1
  {
    MultiIndex.DivisionUnique(1, n - 1, f);
  }

  method MergeGroup(x: seq<Candle>, i: nat, jEnd: nat) returns (m: Candle)
    requires i < jEnd <= |x|
    ensures m == Merge(x[i..jEnd])
  {
    var hi, lo, v := x[i].high, x[i].low, 0.0;
    var k := i;
    while k < jEnd
      invariant i <= k <= jEnd
      invariant k == i ==> hi == x[i].high && lo == x[i].low && v == 0.0
      invariant k > i ==> Merge(x[i..k]) == Candle(x[i].ts, x[i].open, hi, lo, x[k - 1].close, v)
    {
      assert k > i ==> x[i..k + 1][..k - i] == x[i..k];
      hi := MaxReal(hi, x[k].high);
      lo := MinReal(lo, x[k].low);
      v := v + x[k].volume;
      k := k + 1;
    }
    m := Candle(x[i].ts, x[i].open, hi, lo, x[jEnd - 1].close, v);
  }

  /** `resample`. */
  method Resample(x: seq<Candle>, factor: int) returns (out: seq<Candle>)
    ensures factor <= 1 ==> out == x
    ensures factor >= 1 ==> out == Resampled(x, factor)
  {
    hide Resampled, Merge;
    if factor <= 1 {
      if factor == 1 {
        ResampleByOne(x);
      }
      return x;
    }
    var f: nat := factor;
    var nOut := (|x| + f - 1) / f;
    out := seq(nOut, i => Candle(0, 0.0, 0.0, 0.0, 0.0, 0.0));
    var i, w := 0, 0;
    assert x[0..] == x;
    ResampledSize(x, f);
    while i < |x|
      invariant 0 <= i && 0 <= w <= |out| == nOut
      invariant i <= |x| ==> out[..w] + Resampled(x[i..], f) == Resampled(x, f)
      invariant i > |x| ==> out[..w] == Resampled(x, f)
      invariant |Resampled(x, f)| == nOut
      decreases |x| - i
    {
      var jEnd := if i + f < |x| then i + f else |x|;
      ResampledStep(x[i..], f);
      assert x[i..][..Cut(x[i..], f)] == x[i..jEnd];
      assert x[i..][Cut(x[i..], f)..] == x[jEnd..];
      var m := MergeGroup(x, i, jEnd);
      ghost var before := out[..w];
      assert |before + Resampled(x[i..], f)| == nOut;
      out := out[w := m];
      assert out[..w + 1] == before + [m];
      if i + f > |x| {
        ResampledNone(f);
      }
      i := i + f;
      w := w + 1;
    }
    ResampledNone(f);
    out := out[..w];
  }

  lemma {:induction false} ResampledNone(f: nat)
    requires f >= 1
    ensures forall x :: x == [] ==> Resampled(x, f) == []
  {
  }

  /** Factor one changes nothing. */
  lemma {:induction false} ResampleByOne(x: seq<Candle>)
    ensures Resampled(x, 1) == x
    decreases |x|
  {
    if x != [] {
      ResampleByOne(x[1..]);
      assert Cut(x, 1) == 1;
      assert x == [x[0]] + x[1..];
    }
  }

  /** Grouping by a splits at any multiple of a. */
  lemma {:induction false} ResampledSplit(x: seq<Candle>, a: nat, b: nat)
    requires a >= 1
    ensures a * b < |x| ==>
      Resampled(x, a) == Resampled(x[..a * b], a) + Resampled(x[a * b..], a) && |Resampled(x[..a * b], a)| == b
    ensures a * b >= |x| ==> |Resampled(x, a)| <= b
    decreases b
  {
    hide Merge, Resampled;
    ResampledNone(a);
    if b == 0 {
      assert a * b == 0;
      assert x[0..] == x && x[..0] == [];
    } else if x != [] {
      NextProduct(a, b);
      ResampledStep(x, a);
      if a < |x| {
        ResampledSplit(x[a..], a, b - 1);
        if a * b < |x| {
          SplitStep(x, a, b);
        }
      } else {
        assert x[Cut(x, a)..] == [];
      }
    }
  }

  lemma {:induction false} NextProduct(a: nat, b: nat)
    requires b >= 1
    ensures a * b == a + a * (b - 1) && a * (b - 1) >= 0
  {
  }

  lemma {:induction false} SplitStep(x: seq<Candle>, a: nat, b: nat)
    requires 1 <= a < |x| && b >= 1 && a * b == a + a * (b - 1) < |x| && 0 <= a * (b - 1)
    requires Resampled(x[a..], a) == Resampled(x[a..][..a * (b - 1)], a) + Resampled(x[a..][a * (b - 1)..], a)
    requires |Resampled(x[a..][..a * (b - 1)], a)| == b - 1
    ensures Resampled(x, a) == Resampled(x[..a * b], a) + Resampled(x[a * b..], a)
    ensures |Resampled(x[..a * b], a)| == b
  {
    hide Merge, Resampled;
    var m := a * (b - 1);
    var rest, head := x[a..], x[..a + m];
    ResampledStep(x, a);
    ResampledStep(head, a);
    assert head[..Cut(head, a)] == x[..a] && head[Cut(head, a)..] == rest[..m];
    assert x[a + m..] == rest[m..];
  }

  lemma {:induction false} ProductPositive(a: nat, b: nat)
    requires a >= 1 && b >= 1
    ensures a * b >= a && a * b >= b
  {
  }

  /** Merging the groups merges everything. */
  lemma {:induction false} MergeResampled(x: seq<Candle>, a: nat)
    requires a >= 1 && x != []
    ensures Resampled(x, a) != [] && Merge(Resampled(x, a)) == Merge(x)
    decreases |x|
  {
    var rest := x[Cut(x, a)..];
    if rest == [] {
      assert x[..Cut(x, a)] == x;
    } else {
      MergeResampled(rest, a);
      MergeConcat(x[..a], rest);
      MergeConcat([Merge(x[..a])], Resampled(rest, a));
      assert x == x[..a] + rest;
    }
  }

  /** Main result: resampling by a and then by b is resampling by their product, ragged last
      groups included. */
  lemma {:induction false} ResampleComposes(x: seq<Candle>, a: nat, b: nat)
    requires a >= 1 && b >= 1
    ensures a * b >= 1 && Resampled(Resampled(x, a), b) == Resampled(x, a * b)
    decreases |x|
  {
    hide Merge;
    var f := a * b;
    ProductPositive(a, b);
    if x != [] {
      var y := Resampled(x, a);
      ResampledSplit(x, a, b);
      MergeResampled(x, a);
      if f < |x| {
        var head, tail := x[..f], x[f..];
        ResampleComposes(tail, a, b);
        MergeResampled(head, a);
        TailNotEmpty(tail, a);
        assert Cut(y, b) == b;
        assert y[..b] == Resampled(head, a) && y[b..] == Resampled(tail, a);
      } else {
        assert x[..Cut(x, f)] == x && x[Cut(x, f)..] == [];
        assert y[..Cut(y, b)] == y && y[Cut(y, b)..] == [];
      }
    }
  }

  lemma {:induction false} TailNotEmpty(x: seq<Candle>, a: nat)
    requires a >= 1 && x != []
    ensures Resampled(x, a) != []
  {
  }

  lemma {:induction false} VolumeConcat(g: seq<Candle>, h: seq<Candle>)
    ensures TotalVolume(g + h) == TotalVolume(g) + TotalVolume(h)
    decreases |h|
  {
    if h == [] {
      assert g + h == g;
    } else {
      assert (g + h)[..|g + h| - 1] == g + h[..|h| - 1];
      VolumeConcat(g, h[..|h| - 1]);
    }
  }

  /** Volume is conserved. */
  lemma {:induction false} VolumeConserved(x: seq<Candle>, f: nat)
    requires f >= 1
    ensures TotalVolume(Resampled(x, f)) == TotalVolume(x)
    decreases |x|
  {
    if x != [] {
      var g, rest := x[..Cut(x, f)], x[Cut(x, f)..];
      VolumeConserved(rest, f);
      MergeMeaning(g);
      VolumeConcat([Merge(g)], Resampled(rest, f));
      VolumeConcat(g, rest);
      assert x == g + rest;
      assert [Merge(g)][..0] == [];
    }
  }

  /** The group that starts at position m. */
  function GroupAt(x: seq<Candle>, f: nat, m: nat): seq<Candle>
    requires m <= |x|
  {
    x[m..][..Cut(x[m..], f)]
  }

  lemma {:induction false} GroupShift(x: seq<Candle>, f: nat, m: nat)
    requires m + f <= |x|
    ensures GroupAt(x[f..], f, m) == GroupAt(x, f, m + f)
  {
    assert x[f..][m..] == x[m + f..];
  }

  /** Candle k of the result merges the group that starts at k f. */
  lemma {:induction false} ResampledAt(x: seq<Candle>, f: nat, k: nat)
    requires f >= 1 && k < |Resampled(x, f)|
    ensures 0 <= k * f < |x|
    ensures Resampled(x, f)[k] == Merge(GroupAt(x, f, k * f))
    decreases k
  {
    hide Merge, Resampled, GroupAt;
    ResampledNone(f);
    ResampledStep(x, f);
    if k == 0 {
      FirstGroup(x, f);
    } else {
      var rest := x[Cut(x, f)..];
      assert rest != [];
      ResampledAt(rest, f, k - 1);
      NextMultiple(k - 1, f);
      GroupShift(x, f, (k - 1) * f);
    }
  }

  lemma {:induction false} FirstGroup(x: seq<Candle>, f: nat)
    ensures 0 * f == 0 && GroupAt(x, f, 0 * f) == x[..Cut(x, f)]
  {
    assert x[0..] == x;
  }

  lemma {:induction false} TimesIncrease(x: seq<Candle>, i: nat, j: nat)
    requires ValidCandles(x) && i < j < |x|
    ensures x[i].ts < x[j].ts
    decreases j
  {
    if i < j - 1 {
      TimesIncrease(x, i, j - 1);
    }
  }

  /** Every invariant of the validator survives resampling. */
  lemma {:induction false} ResampleKeepsValid(x: seq<Candle>, f: nat)
    requires f >= 1 && ValidCandles(x)
    ensures ValidCandles(Resampled(x, f))
  {
    hide Resampled;
    hide Merge;
    var y := Resampled(x, f);
    forall k: nat | k < |y|
      ensures Ordered(y[k]) && y[k].volume >= 0.0 && (k > 0 ==> y[k].ts > y[k - 1].ts)
    {
      GroupStart(x, f, k);
      if k > 0 {
        GroupStart(x, f, k - 1);
        NextMultiple(k - 1, f);
        TimesIncrease(x, (k - 1) * f, k * f);
      }
    }
  }

  lemma {:induction false} GroupStart(x: seq<Candle>, f: nat, k: nat)
    requires f >= 1 && ValidCandles(x) && k < |Resampled(x, f)|
    ensures 0 <= k * f < |x| && Resampled(x, f)[k].ts == x[k * f].ts
    ensures Ordered(Resampled(x, f)[k]) && Resampled(x, f)[k].volume >= 0.0
  {
    hide Resampled, Merge;
    ResampledAt(x, f, k);
    MergeValid(GroupAt(x, f, k * f));
  }

  lemma {:induction false} MergeValid(g: seq<Candle>)
    requires g != [] && forall i :: 0 <= i < |g| ==> Ordered(g[i]) && g[i].volume >= 0.0
    ensures Ordered(Merge(g)) && Merge(g).volume >= 0.0 && Merge(g).ts == g[0].ts
    decreases |g|
  {
    MergeMeaning(g);
    if |g| > 1 {
      MergeValid(g[..|g| - 1]);
    }
  }
}
