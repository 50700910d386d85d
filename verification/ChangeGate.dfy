/** The change-point automaton inside `build_event_packets`
    (src/engine/extraction_engine.cpp): a run of large transitions, long enough and far
    enough from the previous change point, makes a new one. */
module ChangeGate {
  datatype GateConfig = GateConfig(threshold: real, persistence: int, separation: int)

  /** hits counts the current run since the last change point. */
  datatype Gate = Gate(hits: nat, last: int, points: seq<int>)

  function Start(cfg: GateConfig): Gate {
    Gate(0, -cfg.separation, [])
  }

  /** One bar: the two ifs of the source. */
  function Step(g: Gate, i: int, transition: real, cfg: GateConfig): Gate {
    var hits := if transition > cfg.threshold then g.hits + 1 else 0;
    if hits >= cfg.persistence && i - g.last >= cfg.separation then Gate(0, i, g.points + [i])
    else Gate(hits, g.last, g.points)
  }

  /** The automaton after bars 0..n-1; bar 0 is skipped. */
  function After(tr: seq<real>, n: nat, cfg: GateConfig): Gate
    requires n <= |tr|
  {
    if n <= 1 then Start(cfg) else Step(After(tr, n - 1, cfg), n - 1, tr[n - 1], cfg)
  }

  predicate Over(tr: seq<real>, j: int, cfg: GateConfig) {
    0 <= j < |tr| && tr[j] > cfg.threshold
  }

  // ---------------------------------------------------------------- what the counters mean

  function Latest(points: seq<int>): int {
    if points == [] then 0 else points[|points| - 1]
  }

  /** The number of consecutive large transitions that end at bar i and start after bar b. */
  function RunSince(tr: seq<real>, b: nat, i: nat, cfg: GateConfig): nat
    requires i < |tr|
  {
    if i > b && Over(tr, i, cfg) then 1 + RunSince(tr, b, i - 1, cfg) else 0
  }

  ghost predicate Increasing(points: seq<int>) {
    forall a, b :: 0 <= a < b < |points| ==> points[a] < points[b]
  }

  ghost predicate CounterMeaning(g: Gate, tr: seq<real>, n: nat, cfg: GateConfig)
    requires 1 <= n <= |tr|
  {
    && (g.points == [] ==> g.last == -cfg.separation)
    && (g.points != [] ==> g.last == Latest(g.points))
    && (forall k :: 0 <= k < |g.points| ==> 1 <= g.points[k] < n)
    && Increasing(g.points)
    && g.hits == if Latest(g.points) == n - 1 then 0 else RunSince(tr, Latest(g.points), n - 1, cfg)
  }

  lemma {:induction false} CountersMean(tr: seq<real>, n: nat, cfg: GateConfig)
    requires 1 <= n <= |tr|
    ensures CounterMeaning(After(tr, n, cfg), tr, n, cfg)
  {
    if n > 1 {
      CountersMean(tr, n - 1, cfg);
      var g := After(tr, n - 1, cfg);
      var i, b := n - 1, Latest(g.points);
      assert 0 <= b < i;
      assert RunSince(tr, b, i, cfg) == if Over(tr, i, cfg) then 1 + RunSince(tr, b, i - 1, cfg) else 0;
      assert b == i - 1 ==> RunSince(tr, b, i - 1, cfg) == 0;
    }
  }

  /** A run of length r really is r large transitions in a row, inside (b, i]. */
  lemma {:induction false} RunIsRun(tr: seq<real>, b: nat, i: nat, cfg: GateConfig)
    requires i < |tr|
    ensures b <= i ==> RunSince(tr, b, i, cfg) <= i - b
    ensures b > i ==> RunSince(tr, b, i, cfg) == 0
    ensures forall j :: i - RunSince(tr, b, i, cfg) < j <= i ==> Over(tr, j, cfg) && j > b
    decreases i
  {
    if i > b && Over(tr, i, cfg) {
      RunIsRun(tr, b, i - 1, cfg);
    }
  }

  // ---------------------------------------------------------------- properties of every run

  /** Main result: bar i becomes a change point exactly when the run of large transitions
      since the previous change point has reached the persistence and that point is far
      enough back; the first one needs the run only. */
  lemma {:induction false} ChangePointExactly(tr: seq<real>, i: nat, cfg: GateConfig)
    requires 1 <= i < |tr|
    ensures 0 <= Latest(After(tr, i, cfg).points) < i
    ensures var g := After(tr, i, cfg);
      var isPoint := RunSince(tr, Latest(g.points), i, cfg) >= cfg.persistence && i - g.last >= cfg.separation;
      After(tr, i + 1, cfg).points == if isPoint then g.points + [i] else g.points
    ensures After(tr, i, cfg).points == [] ==> After(tr, i, cfg).last == -cfg.separation
  {
    CountersMean(tr, i, cfg);
    var g := After(tr, i, cfg);
    var b := Latest(g.points);
    assert 0 <= b < i;
    assert b == i - 1 ==> RunSince(tr, b, i - 1, cfg) == 0;
  }

  ghost predicate WellSpaced(points: seq<int>, cfg: GateConfig) {
    forall k :: 0 <= k < |points| - 1 ==>
      points[k + 1] - points[k] >= cfg.separation && points[k + 1] - points[k] >= cfg.persistence
  }

  ghost predicate EndsRun(tr: seq<real>, c: int, cfg: GateConfig) {
    forall j :: c - cfg.persistence < j <= c ==> Over(tr, j, cfg)
  }

  ghost predicate GoodPoints(points: seq<int>, tr: seq<real>, n: nat, cfg: GateConfig) {
    && Increasing(points) && WellSpaced(points, cfg)
    && forall k :: 0 <= k < |points| ==> 1 <= points[k] < n && EndsRun(tr, points[k], cfg)
  }

  /** Every run of the automaton: change points increase, neighbours are at least the
      separation and the persistence apart, and each ends that many large transitions. */
  lemma {:induction false} RunProperties(tr: seq<real>, n: nat, cfg: GateConfig)
    requires n <= |tr|
    ensures GoodPoints(After(tr, n, cfg).points, tr, n, cfg)
  {
    hide GoodPoints, RunSince, Step;
    if n <= 1 {
      NoPoints(tr, n, cfg);
    } else {
      var i: nat := n - 1;
      RunProperties(tr, i, cfg);
      CountersMean(tr, i, cfg);
      ChangePointExactly(tr, i, cfg);
      var g := After(tr, i, cfg);
      var b := Latest(g.points);
      if RunSince(tr, b, i, cfg) >= cfg.persistence && i - g.last >= cfg.separation {
        NewRun(tr, b, i, cfg);
        AddPoint(g.points, tr, i, cfg);
      } else {
        LaterBar(g.points, tr, i, cfg);
      }
    }
  }

  lemma {:induction false} NoPoints(tr: seq<real>, n: nat, cfg: GateConfig)
    requires n <= 1 && n <= |tr|
    ensures GoodPoints(After(tr, n, cfg).points, tr, n, cfg)
  {
  }

  lemma {:induction false} NewRun(tr: seq<real>, b: nat, i: nat, cfg: GateConfig)
    requires b < i < |tr| && RunSince(tr, b, i, cfg) >= cfg.persistence
    ensures EndsRun(tr, i, cfg) && i - b >= cfg.persistence
  {
    hide Over;
    RunIsRun(tr, b, i, cfg);
  }

  lemma {:induction false} AddPoint(points: seq<int>, tr: seq<real>, i: nat, cfg: GateConfig)
    requires GoodPoints(points, tr, i, cfg) && i >= 1 && EndsRun(tr, i, cfg)
    requires points != [] ==> i - Latest(points) >= cfg.separation && i - Latest(points) >= cfg.persistence
    ensures GoodPoints(points + [i], tr, i + 1, cfg)
  {
    hide EndsRun;
  }

  lemma {:induction false} LaterBar(points: seq<int>, tr: seq<real>, i: nat, cfg: GateConfig)
    requires GoodPoints(points, tr, i, cfg)
    ensures GoodPoints(points, tr, i + 1, cfg)
  {
    hide EndsRun;
  }

  /** Run on a prefix: the same automaton, so the same change points so far. */
  lemma {:induction false} GateCausal(tr: seq<real>, m: nat, n: nat, cfg: GateConfig)
    requires m <= n <= |tr|
    ensures After(tr[..m], m, cfg) == After(tr, m, cfg)
    ensures After(tr, m, cfg).points <= After(tr, n, cfg).points
    decreases n
  {
    GateAgrees(tr[..m], tr, m, cfg);
    if m < n {
      GateCausal(tr, m, n - 1, cfg);
    }
  }

  lemma {:induction false} GateAgrees(s: seq<real>, t: seq<real>, m: nat, cfg: GateConfig)
    requires m <= |s| && m <= |t| && s[..m] == t[..m]
    ensures After(s, m, cfg) == After(t, m, cfg)
  {
    if m > 1 {
      assert s[m - 1] == s[..m][m - 1] == t[m - 1];
      assert s[..m - 1] == s[..m][..m - 1];
      assert t[..m - 1] == t[..m][..m - 1];
      GateAgrees(s, t, m - 1, cfg);
    }
  }

  /** The points found on a prefix are those of the whole run that lie in it. */
  lemma {:induction false} PrefixPoints(tr: seq<real>, m: nat, n: nat, cfg: GateConfig)
    requires m <= n <= |tr|
    ensures forall c :: c in After(tr[..m], m, cfg).points <==> c in After(tr, n, cfg).points && c < m
    decreases n
  {
    GateCausal(tr, m, n, cfg);
    if m < n {
      PrefixPoints(tr, m, n - 1, cfg);
      if n > 1 {
        ChangePointExactly(tr, n - 1, cfg);
      }
    } else {
      RunProperties(tr, m, cfg);
    }
  }
}
