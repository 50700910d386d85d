/** Rolling statistics over the bars strictly before a given one
    (src/engine/extraction_engine.cpp, src/data/feature_map.cpp). */
module Windows {
  import opened Reals

  /** The w entries before entry i, fewer at the start. */
  function Window(v: seq<real>, i: nat, w: nat): seq<real>
    requires i <= |v|
  {
    v[(if i < w then 0 else i - w)..i]
  }

  /** Only entries before i matter. */
  lemma {:induction false} WindowPrefix(u: seq<real>, v: seq<real>, i: nat, w: nat)
    requires i <= |u| <= |v| && u == v[..|u|]
    ensures Window(u, i, w) == Window(v, i, w)
  {
  }

  function Total(s: seq<real>): real {
    if s == [] then 0.0 else Total(s[..|s| - 1]) + s[|s| - 1]
  }

  lemma {:induction false} TotalNone()
    ensures forall s :: s == [] ==> Total(s) == 0.0
  {
  }

  lemma {:induction false} TotalNext(s: seq<real>, k: nat)
    requires k < |s|
    ensures Total(s[..k + 1]) == Total(s[..k]) + s[k]
  {
    assert s[..k + 1][..k] == s[..k];
  }

  lemma {:induction false} TotalCons(x: real, s: seq<real>)
    ensures Total([x] + s) == x + Total(s)
  {
    if s == [] {
      assert [x] + s == [x] && [x][..0] == [];
    } else {
      TotalCons(x, s[..|s| - 1]);
      assert ([x] + s)[..|s|] == [x] + s[..|s| - 1];
    }
  }

  function Mean(win: seq<real>): real {
    if win == [] then 0.0 else Total(win) / |win| as real
  }

  function Squared(x: real): real {
    x * x
  }

  function Squares(win: seq<real>, mean: real): (s: seq<real>)
    ensures |s| == |win| && forall k :: 0 <= k < |s| ==> s[k] == Squared(win[k] - mean)
  {
    seq(|win|, k requires 0 <= k < |win| => Squared(win[k] - mean))
  }

  /** The population standard deviation; zero for fewer than two entries. */
  function Deviation(win: seq<real>, mean: real, sqrt: real -> real): real {
    if |win| <= 1 then 0.0 else sqrt(Total(Squares(win, mean)) / |win| as real)
  }

  function Lo(i: int, w: nat): int {
    if i - w > 0 then i - w else 0
  }

  /** `mean_prev_window`. */
  method MeanPrev(v: seq<real>, i: nat, w: nat) returns (m: real)
    requires i <= |v|
    ensures m == Mean(Window(v, i, w))
  {
    if i == 0 {
      return 0.0;
    }
    var lo := Lo(i, w);
    var n := i - lo;
    if n <= 0 {
      return 0.0;
    }
    ghost var win := Window(v, i, w);
    var acc := 0.0;
    var k := lo;
    while k < i
      invariant lo <= k <= i && acc == Total(win[..k - lo])
    {
      assert win[..k + 1 - lo][..k - lo] == win[..k - lo];
      acc := acc + v[k];
      k := k + 1;
    }
    assert win[..n] == win;
    m := acc / n as real;
  }

  /** `std_prev_window`. */
  method StdPrev(v: seq<real>, i: nat, w: nat, mean: real, sqrt: real -> real) returns (s: real)
    requires i <= |v|
    ensures s == Deviation(Window(v, i, w), mean, sqrt)
  {
    if i == 0 {
      return 0.0;
    }
    var lo := Lo(i, w);
    var n := i - lo;
    if n <= 1 {
      return 0.0;
    }
    hide Total, Squared;
    ghost var sq := Squares(Window(v, i, w), mean);
    TotalNone();
    var acc := 0.0;
    var k := lo;
    while k < i
      invariant lo <= k <= i && acc == Total(sq[..k - lo])
    {
      TotalNext(sq, k - lo);
      var e := v[k] - mean;
      acc := acc + Squared(e);
      k := k + 1;
    }
    assert sq[..n] == sq && n == |sq|;
    s := sqrt(acc / n as real);
  }

  /** How many deviations entry i is away from the entries before it. */
  function Score(v: seq<real>, i: nat, w: nat, sqrt: real -> real): real
    requires i < |v|
  {
    var win := Window(v, i, w);
    var s := Deviation(win, Mean(win), sqrt);
    if s <= 0.0 then 0.0 else (v[i] - Mean(win)) / s
  }

  /** `normalized_deviation_now`. */
  method NormalizedDeviation(v: seq<real>, i: nat, w: nat, sqrt: real -> real) returns (z: real)
    requires i < |v|
    ensures z == Score(v, i, w, sqrt)
  {
    var m := MeanPrev(v, i, w);
    var s := StdPrev(v, i, w, m, sqrt);
    if s <= 0.0 {
      return 0.0;
    }
    z := (v[i] - m) / s;
  }

  // ---------------------------------------------------------------- order statistics

  predicate Ascending(s: seq<real>) {
    forall i, j :: 0 <= i < j < |s| ==> s[i] <= s[j]
  }

  function Insert(x: real, s: seq<real>): (r: seq<real>)
    ensures |r| == |s| + 1
  {
    if s == [] then [x] else if x <= s[0] then [x] + s else [s[0]] + Insert(x, s[1..])
  }

  function Sorted(s: seq<real>): (r: seq<real>)
    ensures |r| == |s|
  {
    if s == [] then [] else Insert(s[0], Sorted(s[1..]))
  }

  lemma {:induction false} InsertBag(x: real, s: seq<real>)
    ensures multiset(Insert(x, s)) == multiset(s) + multiset{x}
  {
    hide Insert;
    InsertStep(x, s);
    if s != [] && x > s[0] {
      var t := Insert(x, s[1..]);
      InsertBag(x, s[1..]);
      assert s == [s[0]] + s[1..];
      assert multiset([s[0]] + t) == multiset{s[0]} + multiset(t);
    } else {
      assert multiset([x] + s) == multiset{x} + multiset(s);
    }
  }

  lemma {:induction false} InsertStep(x: real, s: seq<real>)
    ensures Insert(x, s) == if s != [] && x > s[0] then [s[0]] + Insert(x, s[1..]) else [x] + s
  {
  }

  lemma {:induction false} InsertOrder(x: real, s: seq<real>)
    requires Ascending(s)
    ensures Ascending(Insert(x, s))
    ensures Insert(x, s)[0] == if s == [] || x <= s[0] then x else s[0]
  {
    if s != [] && x > s[0] {
      InsertOrder(x, s[1..]);
      var rest := Insert(x, s[1..]);
      assert s[0] <= rest[0];
      forall j | 0 <= j < |rest|
        ensures s[0] <= rest[j]
      {
      }
    }
  }

  /** The sorted window is an ascending rearrangement. */
  lemma {:induction false} SortedKeeps(s: seq<real>)
    ensures Ascending(Sorted(s)) && multiset(Sorted(s)) == multiset(s)
  {
    if s != [] {
      SortedKeeps(s[1..]);
      InsertBag(s[0], Sorted(s[1..]));
      InsertOrder(s[0], Sorted(s[1..]));
      assert s == [s[0]] + s[1..];
    }
  }

  /** What std::nth_element leaves at position k. */
  function NthElement(s: seq<real>, k: nat): real
    requires k < |s|
  {
    Sorted(s)[k]
  }

  function Median(win: seq<real>): real {
    if win == [] then 0.0
    else if |win| % 2 == 1 then NthElement(win, |win| / 2)
    else 0.5 * (NthElement(win, |win| / 2) + NthElement(win, |win| / 2 - 1))
  }

  function Distances(win: seq<real>, med: real): (d: seq<real>)
    ensures |d| == |win|
  {
    seq(|win|, k requires 0 <= k < |win| => Abs(win[k] - med))
  }

  /** The median absolute deviation of the window, kept away from zero; one before bar two. */
  function Mad(win: seq<real>, i: nat): (m: real)
    ensures m > 0.0
  {
    if i <= 1 || win == [] then 1.0
    else MaxReal(0.000000001, NthElement(Distances(win, Median(win)), |win| / 2))
  }

  /** `median_prev_window`. */
  method MedianPrev(v: seq<real>, i: nat, w: nat) returns (m: real)
    requires i <= |v|
    ensures m == Median(Window(v, i, w))
  {
    if i == 0 || i <= Lo(i, w) {
      return 0.0;
    }
    var win := [];
    var k := Lo(i, w);
    while k < i
      invariant Lo(i, w) <= k <= i && win == Window(v, i, w)[..k - Lo(i, w)]
    {
      win := win + [v[k]];
      k := k + 1;
    }
    assert win == Window(v, i, w);
    var mid := |win| / 2;
    if |win| % 2 == 1 {
      return NthElement(win, mid);
    }
    var a := NthElement(win, mid);
    var b := NthElement(win, mid - 1);
    m := 0.5 * (a + b);
  }

  /** `mad_prev_window`. */
  method MadPrev(v: seq<real>, i: nat, w: nat) returns (m: real)
    requires i <= |v|
    ensures m == Mad(Window(v, i, w), i)
  {
    if i <= 1 || i <= Lo(i, w) {
      return 1.0;
    }
    var med := MedianPrev(v, i, w);
    var dev := [];
    var k := Lo(i, w);
    while k < i
      invariant Lo(i, w) <= k <= i && dev == Distances(Window(v, i, w), med)[..k - Lo(i, w)]
    {
      dev := dev + [Abs(v[k] - med)];
      k := k + 1;
    }
    assert dev == Distances(Window(v, i, w), med);
    m := MaxReal(0.000000001, NthElement(dev, |dev| / 2));
  }
}
