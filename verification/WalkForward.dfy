/** The walk-forward loop and its stratified accounting (src/backtest/walk_forward.cpp).  The
    engine is an oracle that may fail on any anchor. */
module WalkForward {
  import opened Candles
  import opened Simulator
  import opened Results
  import Gate = Authority

  /** What the loop reads from one processed anchor, with the signal made from it. */
  datatype Anchor = Anchor(ready: bool, sectorVerified: bool, packets: nat, order: int, modes: nat, hCount: int,
                           failed: seq<string>, signal: Signal)

  /** The engine on the candles up to an anchor; None when it throws. */
  type Engine = (seq<Candle>, int) -> Option<Anchor>

  datatype WalkConfig = WalkConfig(trainMin: nat, testWindow: int, step: int, stride: int, maxWindows: int,
                                   research: bool)

  // ---------------------------------------------------------------- strata

  /** One accumulator of the source each: the fixed ones, and one per failed clause. */
  datatype Stratum =
    | All
    | Authority(ready: bool)
    | LocalSector(valid: bool)
    | PacketAnchor(present: bool)
    | RecurrenceBand(band: nat)
    | SpectralBand(band: nat)
    | HorizonBand(band: nat)
    | PrimaryClause(clause: string)

  /** The edges 0, low, high of a four-way split. */
  function Band(x: int, low: int, high: int): nat {
    if x <= 0 then 0 else if x <= low then 1 else if x <= high then 2 else 3
  }

  /** `primary_failed_clause`. */
  function PrimaryFailed(failed: seq<string>): string {
    if failed == [] then "none" else failed[0]
  }

  predicate Belongs(a: Anchor, st: Stratum) {
    match st
    case All => true
    case Authority(ready) => a.ready == ready
    case LocalSector(valid) => a.sectorVerified == valid
    case PacketAnchor(present) => (a.packets > 0) == present
    case RecurrenceBand(band) => Band(a.order, 2, 5) == band
    case SpectralBand(band) => Band(a.modes, 1, 3) == band
    case HorizonBand(band) => Band(a.hCount, 4, 16) == band
    case PrimaryClause(clause) => PrimaryFailed(a.failed) == clause
  }

  datatype Tally = Tally(anchors: nat, signals: nat)

  function Plus(x: Tally, y: Tally): Tally {
    Tally(x.anchors + y.anchors, x.signals + y.signals)
  }

  function One(a: Anchor): Tally {
    Tally(1, if a.signal.side == 0 then 0 else 1)
  }

  /** The anchors of a list that fall in a stratum, and their signals. */
  function Count(list: seq<Anchor>, st: Stratum): Tally {
    if list == [] then Tally(0, 0)
    else
      var rest := Count(list[..|list| - 1], st);
      var a := list[|list| - 1];
      if Belongs(a, st) then Plus(rest, One(a)) else rest
  }

  lemma {:induction false} CountAppend(list: seq<Anchor>, a: Anchor, st: Stratum)
    ensures Count(list + [a], st) == if Belongs(a, st) then Plus(Count(list, st), One(a)) else Count(list, st)
  {
    assert (list + [a])[..|list + [a]| - 1] == list;
  }

  lemma {:induction false} CountNone(st: Stratum)
    ensures Count([], st) == Tally(0, 0)
  {
  }

  lemma {:induction false} CountConcat(x: seq<Anchor>, y: seq<Anchor>, st: Stratum)
    ensures Count(x + y, st) == Plus(Count(x, st), Count(y, st))
    decreases |y|
  {
    hide Count, Belongs, One;
    if y == [] {
      assert x + y == x;
      CountNone(st);
    } else {
      var init, a := y[..|y| - 1], y[|y| - 1];
      CountConcat(x, init, st);
      CountAppend(init, a, st);
      CountAppend(x + init, a, st);
      assert init + [a] == y && (x + init) + [a] == x + y;
    }
  }

  type Table = map<Stratum, Tally>

  function At(t: Table, st: Stratum): Tally {
    if st in t then t[st] else Tally(0, 0)
  }

  ghost predicate Tallies(t: Table, list: seq<Anchor>) {
    forall st :: At(t, st) == Count(list, st)
  }

  // ---------------------------------------------------------------- one anchor

  /** `update_split`: one more anchor, one more signal unless it is flat. */
  method UpdateSplit(t: Table, st: Stratum, a: Anchor) returns (u: Table)
    ensures forall s :: At(u, s) == if s == st then Plus(At(t, s), One(a)) else At(t, s)
  {
    hide At;
    var acc := At(t, st);
    var anchors, signals := acc.anchors + 1, acc.signals;
    if a.signal.side != 0 {
      signals := signals + 1;
    }
    u := t[st := Tally(anchors, signals)];
    forall s
      ensures At(u, s) == if s == st then Tally(anchors, signals) else At(t, s)
    {
      AtUpdated(t, st, Tally(anchors, signals), s);
    }
  }

  lemma {:induction false} AtUpdated(t: Table, st: Stratum, v: Tally, s: Stratum)
    ensures At(t[st := v], s) == if s == st then v else At(t, s)
  {
  }

  /** The updates of one retained anchor: one stratum of every stratification. */
  method UpdateAll(t: Table, a: Anchor) returns (u: Table)
    ensures forall s :: At(u, s) == if Belongs(a, s) then Plus(At(t, s), One(a)) else At(t, s)
  {
    hide At, Plus, One;
    u := UpdateSplit(t, All, a);
    u := UpdateSplit(u, Authority(a.ready), a);
    u := UpdateSplit(u, LocalSector(a.sectorVerified), a);
    u := UpdateSplit(u, PacketAnchor(a.packets > 0), a);
    u := UpdateSplit(u, RecurrenceBand(Band(a.order, 2, 5)), a);
    u := UpdateSplit(u, SpectralBand(Band(a.modes, 1, 3)), a);
    u := UpdateSplit(u, HorizonBand(Band(a.hCount, 4, 16)), a);
    u := UpdateSplit(u, PrimaryClause(PrimaryFailed(a.failed)), a);
  }

  // ---------------------------------------------------------------- one window

  function Stride(cfg: WalkConfig): nat
    ensures Stride(cfg) >= 1
  {
    if cfg.stride > 1 then cfg.stride else 1
  }

  /** The anchors visited in [t, end). */
  function Visited(t: nat, end: int, stride: nat): seq<nat>
    requires stride >= 1
    decreases end - t
  {
    if t >= end then [] else [t] + Visited(t + stride, end, stride)
  }

  predicate Retained(r: Option<Anchor>, research: bool) {
    r.Some? && (r.value.ready || research)
  }

  /** The outcome of the engine at bar t, fed bars 0..t only. */
  function Outcome(candles: seq<Candle>, t: nat, engine: Engine): Option<Anchor>
    requires t < |candles|
  {
    engine(candles[..t + 1], t)
  }

  function RetainedAnchors(candles: seq<Candle>, ts: seq<nat>, engine: Engine, research: bool): seq<Anchor>
    requires forall i :: 0 <= i < |ts| ==> ts[i] < |candles|
  {
    if ts == [] then []
    else
      var rest := RetainedAnchors(candles, ts[..|ts| - 1], engine, research);
      var r := Outcome(candles, ts[|ts| - 1], engine);
      if Retained(r, research) then rest + [r.value] else rest
  }

  datatype Counters = Counters(authoritative: nat, nonAuthoritative: nat, rejected: nat)

  function CountOutcome(c: Counters, r: Option<Anchor>, research: bool): Counters {
    if r.None? then c.(rejected := c.rejected + 1)
    else if r.value.ready then c.(authoritative := c.authoritative + 1)
    else if research then c.(nonAuthoritative := c.nonAuthoritative + 1)
    else Counters(c.authoritative, c.nonAuthoritative + 1, c.rejected + 1)
  }

  function CountOutcomes(c: Counters, candles: seq<Candle>, ts: seq<nat>, engine: Engine, research: bool): Counters
    requires forall i :: 0 <= i < |ts| ==> ts[i] < |candles|
  {
    if ts == [] then c
    else
      CountOutcome(CountOutcomes(c, candles, ts[..|ts| - 1], engine, research), Outcome(candles, ts[|ts| - 1], engine),
        research)
  }

  lemma {:induction false} VisitedInside(t: nat, end: int, stride: nat)
    requires stride >= 1
    ensures forall i :: 0 <= i < |Visited(t, end, stride)| ==> t <= Visited(t, end, stride)[i] < end
    decreases end - t
  {
    if t < end {
      VisitedInside(t + stride, end, stride);
    }
  }

  lemma {:induction false} VisitOne(c: Counters, candles: seq<Candle>, ts: seq<nat>, n: nat, engine: Engine,
                                    research: bool)
    requires n < |ts| && forall i :: 0 <= i < |ts| ==> ts[i] < |candles|
    ensures var r := Outcome(candles, ts[n], engine);
      var before := RetainedAnchors(candles, ts[..n], engine, research);
      && RetainedAnchors(candles, ts[..n + 1], engine, research)
           == (if Retained(r, research) then before + [r.value] else before)
      && CountOutcomes(c, candles, ts[..n + 1], engine, research)
           == CountOutcome(CountOutcomes(c, candles, ts[..n], engine, research), r, research)
  {
    hide CountOutcome;
    assert ts[..n + 1][..n] == ts[..n];
  }

  /** The anchor loop of one window. */
  method RunAnchors(candles: seq<Candle>, start: nat, end: int, cfg: WalkConfig, engine: Engine, counters: Counters)
    returns (table: Table, out: Counters)
    requires end <= |candles|
    ensures forall i :: 0 <= i < |Visited(start, end, Stride(cfg))| ==> Visited(start, end, Stride(cfg))[i] < |candles|
    ensures Tallies(table, RetainedAnchors(candles, Visited(start, end, Stride(cfg)), engine, cfg.research))
    ensures out == CountOutcomes(counters, candles, Visited(start, end, Stride(cfg)), engine, cfg.research)
  {
    hide Belongs, At, Plus, One, Count, RetainedAnchors, CountOutcomes, CountOutcome, Stride;
    ghost var all := Visited(start, end, Stride(cfg));
    VisitedInside(start, end, Stride(cfg));
    table, out := map[], counters;
    EmptyTallies();
    NoOutcomes(counters, candles, engine, cfg.research);
    NothingRetained(candles, engine, cfg.research);
    var t := start;
    ghost var done := 0;
    while t < end
      invariant start <= t && 0 <= done <= |all| && all[done..] == Visited(t, end, Stride(cfg))
      invariant Tallies(table, RetainedAnchors(candles, all[..done], engine, cfg.research))
      invariant out == CountOutcomes(counters, candles, all[..done], engine, cfg.research)
      decreases end - t
    {
      assert all[done] == t && all[done..][1..] == all[done + 1..];
      VisitOne(counters, candles, all, done, engine, cfg.research);
      var view := candles[..t + 1];
      var r := engine(view, t);
      ghost var before := RetainedAnchors(candles, all[..done], engine, cfg.research);
      out := CountOutcome(out, r, cfg.research);
      if r.Some? && (r.value.ready || cfg.research) {
        ghost var old' := table;
        table := UpdateAll(table, r.value);
        forall st
          ensures At(table, st) == Count(before + [r.value], st)
        {
          CountAppend(before, r.value, st);
          assert At(old', st) == Count(before, st);
        }
      }
      t := t + Stride(cfg);
      done := done + 1;
    }
    assert all[..done] == all;
  }

  lemma {:induction false} EmptyTallies()
    ensures Tallies(map[], [])
  {
  }

  // ---------------------------------------------------------------- all windows

  datatype Window = Window(trainStart: nat, trainEnd: nat, testStart: nat, testEnd: int)

  function WindowAt(cfg: WalkConfig, k: nat): Window
    requires cfg.step > 0
  {
    var e := cfg.trainMin + k * cfg.step;
    Window(0, e, e, e + cfg.testWindow)
  }

  ghost predicate Fits(cfg: WalkConfig, N: nat, k: nat)
    requires cfg.step > 0
  {
    WindowAt(cfg, k).testEnd <= N
  }

  /** Per window the table and its clause rows, the same in aggregate, and the counters. */
  datatype Result = Result(windows: seq<Window>, diagnostics: seq<Table>, reports: seq<seq<ClauseRow>>,
                           aggregate: Table, report: seq<ClauseRow>, counters: Counters)

  function TestAnchors(cfg: WalkConfig, k: nat): seq<nat>
    requires cfg.step > 0
  {
    Visited(WindowAt(cfg, k).testStart, WindowAt(cfg, k).testEnd, Stride(cfg))
  }

  lemma {:induction false} TestInside(cfg: WalkConfig, N: nat, k: nat)
    requires cfg.step > 0 && Fits(cfg, N, k)
    ensures forall i :: 0 <= i < |TestAnchors(cfg, k)| ==>
      cfg.trainMin + k * cfg.step <= TestAnchors(cfg, k)[i] < N
  {
    VisitedInside(WindowAt(cfg, k).testStart, WindowAt(cfg, k).testEnd, Stride(cfg));
  }

  lemma {:induction false} EarlierFits(cfg: WalkConfig, N: nat, j: nat, k: nat)
    requires cfg.step > 0 && Fits(cfg, N, k) && j <= k
    ensures Fits(cfg, N, j)
  {
    assert (k - j) * cfg.step >= 0;
    assert k * cfg.step == j * cfg.step + (k - j) * cfg.step;
  }

  /** The anchors retained in windows 0..n-1, in order. */
  function RetainedUpTo(candles: seq<Candle>, cfg: WalkConfig, n: nat, engine: Engine): seq<Anchor>
    requires cfg.step > 0 && (n > 0 ==> Fits(cfg, |candles|, n - 1))
  {
    if n == 0 then []
    else
      TestInside(cfg, |candles|, n - 1);
      if n > 1 then
        EarlierFits(cfg, |candles|, n - 2, n - 1);
        RetainedUpTo(candles, cfg, n - 1, engine) + RetainedIn(candles, cfg, n - 1, engine)
      else RetainedIn(candles, cfg, n - 1, engine)
  }

  function RetainedIn(candles: seq<Candle>, cfg: WalkConfig, k: nat, engine: Engine): seq<Anchor>
    requires cfg.step > 0 && Fits(cfg, |candles|, k)
  {
    TestInside(cfg, |candles|, k);
    RetainedAnchors(candles, TestAnchors(cfg, k), engine, cfg.research)
  }

  /** All anchors visited in windows 0..n-1, in order. */
  function VisitedUpTo(cfg: WalkConfig, n: nat): seq<nat>
    requires cfg.step > 0
  {
    if n == 0 then [] else VisitedUpTo(cfg, n - 1) + TestAnchors(cfg, n - 1)
  }

  ghost predicate WindowsOf(windows: seq<Window>, diagnostics: seq<Table>, candles: seq<Candle>, cfg: WalkConfig,
                            engine: Engine)
    requires cfg.step > 0
  {
    && |windows| == |diagnostics| && (windows != [] ==> Fits(cfg, |candles|, |windows| - 1))
    && forall k: nat :: k < |windows| ==>
         && windows[k] == WindowAt(cfg, k) && Fits(cfg, |candles|, k)
         && Tallies(diagnostics[k], RetainedIn(candles, cfg, k, engine))
  }

  ghost predicate Stopped(n: nat, N: nat, cfg: WalkConfig)
    requires cfg.step > 0
  {
    (cfg.maxWindows > 0 && n >= cfg.maxWindows) || !Fits(cfg, N, n)
  }

  /** `run_walk_forward`, without the metrics. */
  method RunWalkForward(candles: seq<Candle>, cfg: WalkConfig, engine: Engine) returns (res: Result)
    ensures cfg.step <= 0 || |candles| <= cfg.trainMin + cfg.testWindow ==>
      res == Result([], [], [], map[], [], Counters(0, 0, 0))
    ensures cfg.step > 0 && |candles| > cfg.trainMin + cfg.testWindow ==>
      && WindowsOf(res.windows, res.diagnostics, candles, cfg, engine)
      && |res.windows| >= 1 && Stopped(|res.windows|, |candles|, cfg)
      && (cfg.maxWindows > 0 ==> |res.windows| <= cfg.maxWindows)
      && Tallies(res.aggregate, RetainedUpTo(candles, cfg, |res.windows|, engine))
      && (forall i :: 0 <= i < |VisitedUpTo(cfg, |res.windows|)| ==> VisitedUpTo(cfg, |res.windows|)[i] < |candles|)
      && res.counters
           == CountOutcomes(Counters(0, 0, 0), candles, VisitedUpTo(cfg, |res.windows|), engine, cfg.research)
      && At(res.aggregate, All).anchors + res.counters.rejected == |VisitedUpTo(cfg, |res.windows|)|
      && |res.reports| == |res.windows| && RowsOf(res.report, res.aggregate)
      && (forall k :: 0 <= k < |res.windows| ==> RowsOf(res.reports[k], res.diagnostics[k]))
  {
    hide Tallies, RetainedAnchors, CountOutcomes, Visited, Stride, RowsOf;
    var N := |candles|;
    if cfg.step <= 0 || N <= cfg.trainMin + cfg.testWindow {
      return Result([], [], [], map[], [], Counters(0, 0, 0));
    }
    var trainEnd := cfg.trainMin;
    var windows, diagnostics, reports, counters := [], [], [], Counters(0, 0, 0);
    var emitted := 0;
    NoOutcomes(counters, candles, engine, cfg.research);
    while trainEnd + cfg.testWindow <= N
      invariant 0 <= emitted == |windows| && trainEnd == cfg.trainMin + emitted * cfg.step
      invariant emitted == 0 ==> trainEnd + cfg.testWindow <= N
      invariant cfg.maxWindows > 0 ==> emitted <= cfg.maxWindows
      invariant WindowsOf(windows, diagnostics, candles, cfg, engine) && |reports| == |windows|
      invariant forall k :: 0 <= k < |windows| ==> RowsOf(reports[k], diagnostics[k])
      invariant forall i :: 0 <= i < |VisitedUpTo(cfg, emitted)| ==> VisitedUpTo(cfg, emitted)[i] < N
      invariant counters == CountOutcomes(Counters(0, 0, 0), candles, VisitedUpTo(cfg, emitted), engine, cfg.research)
      decreases N - trainEnd - cfg.testWindow
    {
      if cfg.maxWindows > 0 && emitted >= cfg.maxWindows {
        break;
      }
      var w := Window(0, trainEnd, trainEnd, if trainEnd + cfg.testWindow < N then trainEnd + cfg.testWindow else N);
      assert w == WindowAt(cfg, emitted) && Fits(cfg, N, emitted);
      var table;
      table, counters := RunAnchors(candles, w.testStart, w.testEnd, cfg, engine, counters);
      TestInside(cfg, N, emitted);
      OutcomesConcat(Counters(0, 0, 0), candles, VisitedUpTo(cfg, emitted), TestAnchors(cfg, emitted), engine,
        cfg.research);
      var rows := ClauseRows(table);
      windows := windows + [w];
      diagnostics := diagnostics + [table];
      reports := reports + [rows];
      NextEnd(emitted, cfg.step);
      emitted := emitted + 1;
      trainEnd := trainEnd + cfg.step;
    }
    var aggregate := Aggregate(diagnostics, windows, candles, cfg, engine);
    RunAccounted(aggregate, candles, cfg, |windows|, engine);
    var report := ClauseRows(aggregate);
    res := Result(windows, diagnostics, reports, aggregate, report, counters);
  }

  lemma {:induction false} NextEnd(n: nat, step: int)
    ensures (n + 1) * step == n * step + step
  {
  }

  lemma {:induction false} NoOutcomes(c: Counters, candles: seq<Candle>, engine: Engine, research: bool)
    ensures CountOutcomes(c, candles, [], engine, research) == c
  {
  }

  lemma {:induction false} OutcomesConcat(c: Counters, candles: seq<Candle>, x: seq<nat>, y: seq<nat>, engine: Engine,
                                          research: bool)
    requires forall i :: 0 <= i < |x| ==> x[i] < |candles|
    requires forall i :: 0 <= i < |y| ==> y[i] < |candles|
    ensures forall i :: 0 <= i < |x + y| ==> (x + y)[i] < |candles|
    ensures CountOutcomes(c, candles, x + y, engine, research)
         == CountOutcomes(CountOutcomes(c, candles, x, engine, research), candles, y, engine, research)
    decreases |y|
  {
    if y == [] {
      assert x + y == x;
    } else {
      assert (x + y)[..|x + y| - 1] == x + y[..|y| - 1];
      OutcomesConcat(c, candles, x, y[..|y| - 1], engine, research);
    }
  }

  // ---------------------------------------------------------------- aggregation

  /** `aggregate_stratified` and `aggregate_clause_splits`: every stratum, named or found in
      some window, is summed over the windows. */
  method Aggregate(tables: seq<Table>, ghost windows: seq<Window>, ghost candles: seq<Candle>, ghost cfg: WalkConfig,
                   ghost engine: Engine)
    returns (agg: Table)
    requires cfg.step > 0 && WindowsOf(windows, tables, candles, cfg, engine)
    ensures Tallies(agg, RetainedUpTo(candles, cfg, |tables|, engine))
  {
    hide At, Plus, RetainedIn;
    agg := map[];
    EmptyTallies();
    var k := 0;
    while k < |tables|
      invariant 0 <= k <= |tables|
      invariant k > 0 ==> Fits(cfg, |candles|, k - 1)
      invariant Tallies(agg, RetainedUpTo(candles, cfg, k, engine))
    {
      ghost var before := agg;
      agg := AddTable(agg, tables[k]);
      forall st
        ensures At(agg, st) == Count(RetainedUpTo(candles, cfg, k + 1, engine), st)
      {
        assert At(before, st) == Count(RetainedUpTo(candles, cfg, k, engine), st);
        assert At(tables[k], st) == Count(RetainedIn(candles, cfg, k, engine), st);
        CountConcat(RetainedUpTo(candles, cfg, k, engine), RetainedIn(candles, cfg, k, engine), st);
        assert k == 0 ==> RetainedUpTo(candles, cfg, 0, engine) + RetainedIn(candles, cfg, k, engine)
                            == RetainedIn(candles, cfg, k, engine);
      }
      k := k + 1;
    }
  }

  /** u is agg with the rows of t outside `keys` added. */
  ghost predicate AddedBut(u: Table, agg: Table, t: Table, keys: set<Stratum>) {
    forall st :: At(u, st) == if st in keys || st !in t then At(agg, st) else Plus(At(agg, st), At(t, st))
  }

  lemma {:induction false} AddedRow(u: Table, agg: Table, t: Table, keys: set<Stratum>, st: Stratum)
    requires AddedBut(u, agg, t, keys) && st in keys && st in t
    ensures AddedBut(u[st := Plus(At(u, st), At(t, st))], agg, t, keys - {st})
  {
    hide Plus, At;
    forall s
      ensures At(u[st := Plus(At(u, st), At(t, st))], s) == if s == st then Plus(At(u, st), At(t, st)) else At(u, s)
    {
      AtUpdated(u, st, Plus(At(u, st), At(t, st)), s);
    }
  }

  lemma {:induction false} AllAdded(u: Table, agg: Table, t: Table)
    requires AddedBut(u, agg, t, {})
    ensures forall st :: At(u, st) == Plus(At(agg, st), At(t, st))
  {
  }

  method AddTable(agg: Table, t: Table) returns (u: Table)
    ensures forall st :: At(u, st) == Plus(At(agg, st), At(t, st))
  {
    hide AddedBut, Plus;
    u := agg;
    var keys := t.Keys;
    NoneAdded(agg, t);
    while keys != {}
      invariant keys <= t.Keys && AddedBut(u, agg, t, keys)
      decreases |keys|
    {
      var st :| st in keys;
      AddedRow(u, agg, t, keys, st);
      u := u[st := Plus(At(u, st), t[st])];
      keys := keys - {st};
    }
    AllAdded(u, agg, t);
  }

  lemma {:induction false} NoneAdded(agg: Table, t: Table)
    ensures AddedBut(agg, agg, t, t.Keys)
  {
  }

  // ---------------------------------------------------------------- accounting

  lemma {:induction false} CountAll(list: seq<Anchor>)
    ensures Count(list, All).anchors == |list|
  {
    if list != [] {
      CountAll(list[..|list| - 1]);
    }
  }

  lemma {:induction false} RetainedConcat(candles: seq<Candle>, x: seq<nat>, y: seq<nat>, engine: Engine,
                                          research: bool)
    requires forall i :: 0 <= i < |x| ==> x[i] < |candles|
    requires forall i :: 0 <= i < |y| ==> y[i] < |candles|
    ensures forall i :: 0 <= i < |x + y| ==> (x + y)[i] < |candles|
    ensures RetainedAnchors(candles, x + y, engine, research)
         == RetainedAnchors(candles, x, engine, research) + RetainedAnchors(candles, y, engine, research)
    decreases |y|
  {
    if y == [] {
      assert x + y == x;
    } else {
      assert (x + y)[..|x + y| - 1] == x + y[..|y| - 1];
      RetainedConcat(candles, x, y[..|y| - 1], engine, research);
    }
  }

  /** The anchors retained over the windows are those retained among all visited bars. */
  lemma {:induction false} RetainedOfVisited(candles: seq<Candle>, cfg: WalkConfig, n: nat, engine: Engine)
    requires cfg.step > 0 && (n > 0 ==> Fits(cfg, |candles|, n - 1))
    ensures forall i :: 0 <= i < |VisitedUpTo(cfg, n)| ==> VisitedUpTo(cfg, n)[i] < |candles|
    ensures RetainedUpTo(candles, cfg, n, engine)
         == RetainedAnchors(candles, VisitedUpTo(cfg, n), engine, cfg.research)
    decreases n
  {
    hide RetainedAnchors, Fits, TestAnchors;
    if n == 0 {
      NothingRetained(candles, engine, cfg.research);
    } else {
      TestInside(cfg, |candles|, n - 1);
      if n > 1 {
        EarlierFits(cfg, |candles|, n - 2, n - 1);
      }
      RetainedOfVisited(candles, cfg, n - 1, engine);
      RetainedConcat(candles, VisitedUpTo(cfg, n - 1), TestAnchors(cfg, n - 1), engine, cfg.research);
      if n == 1 {
        assert VisitedUpTo(cfg, 0) + TestAnchors(cfg, 0) == TestAnchors(cfg, 0);
      }
    }
  }

  lemma {:induction false} NothingRetained(candles: seq<Candle>, engine: Engine, research: bool)
    ensures RetainedAnchors(candles, [], engine, research) == []
  {
  }

  /** The books of a whole run balance: the anchors in the aggregate's `all` and the rejected
      ones are the visited ones. */
  lemma {:induction false} RunAccounted(t: Table, candles: seq<Candle>, cfg: WalkConfig, n: nat, engine: Engine)
    requires cfg.step > 0 && (n > 0 ==> Fits(cfg, |candles|, n - 1))
    requires Tallies(t, RetainedUpTo(candles, cfg, n, engine))
    ensures forall i :: 0 <= i < |VisitedUpTo(cfg, n)| ==> VisitedUpTo(cfg, n)[i] < |candles|
    ensures var c := CountOutcomes(Counters(0, 0, 0), candles, VisitedUpTo(cfg, n), engine, cfg.research);
      && At(t, All).anchors + c.rejected == |VisitedUpTo(cfg, n)|
      && At(t, All).anchors == c.authoritative + (if cfg.research then c.nonAuthoritative else 0)
  {
    hide RetainedAnchors, RetainedUpTo, CountOutcomes, VisitedUpTo, Fits, At, Count;
    RetainedOfVisited(candles, cfg, n, engine);
    AnchorsAccounted(candles, VisitedUpTo(cfg, n), engine, cfg.research);
    CountAll(RetainedUpTo(candles, cfg, n, engine));
    assert At(t, All) == Count(RetainedUpTo(candles, cfg, n, engine), All);
  }

  /** Nothing is lost: every visited anchor is either retained or rejected, and the retained
      ones are the authoritative ones or, in research mode, all that did not throw. */
  lemma {:induction false} AnchorsAccounted(candles: seq<Candle>, ts: seq<nat>, engine: Engine, research: bool)
    requires forall i :: 0 <= i < |ts| ==> ts[i] < |candles|
    ensures var c := CountOutcomes(Counters(0, 0, 0), candles, ts, engine, research);
      var kept := |RetainedAnchors(candles, ts, engine, research)|;
      && kept + c.rejected == |ts|
      && kept == c.authoritative + (if research then c.nonAuthoritative else 0)
    decreases |ts|
  {
    if ts != [] {
      AnchorsAccounted(candles, ts[..|ts| - 1], engine, research);
    }
  }

  /** The strata of one stratification. */
  function Family(i: nat): seq<Stratum>
    requires i < 6
  {
    match i
    case 0 => [Authority(true), Authority(false)]
    case 1 => [LocalSector(true), LocalSector(false)]
    case 2 => [PacketAnchor(true), PacketAnchor(false)]
    case 3 => [RecurrenceBand(0), RecurrenceBand(1), RecurrenceBand(2), RecurrenceBand(3)]
    case 4 => [SpectralBand(0), SpectralBand(1), SpectralBand(2), SpectralBand(3)]
    case _ => [HorizonBand(0), HorizonBand(1), HorizonBand(2), HorizonBand(3)]
  }

  function SumOf(t: Table, strata: seq<Stratum>): Tally {
    if strata == [] then Tally(0, 0) else Plus(SumOf(t, strata[..|strata| - 1]), At(t, strata[|strata| - 1]))
  }

  function CountsOf(list: seq<Anchor>, strata: seq<Stratum>): Tally {
    if strata == [] then Tally(0, 0)
    else Plus(CountsOf(list, strata[..|strata| - 1]), Count(list, strata[|strata| - 1]))
  }

  /** Exactly one stratum of the list holds the anchor. */
  ghost predicate OneHome(a: Anchor, strata: seq<Stratum>) {
    exists k :: 0 <= k < |strata| && Belongs(a, strata[k]) &&
      forall j :: 0 <= j < |strata| && j != k ==> !Belongs(a, strata[j])
  }

  lemma {:induction false} PairHome(a: Anchor, x: Stratum, y: Stratum)
    requires Belongs(a, x) != Belongs(a, y)
    ensures OneHome(a, [x, y])
  {
    hide Belongs;
    var pair := [x, y];
    var k := if Belongs(a, x) then 0 else 1;
    assert Belongs(a, pair[k]);
  }

  lemma {:induction false} QuadHome(a: Anchor, quad: seq<Stratum>, k: nat)
    requires |quad| == 4 && k < 4
    requires forall j :: 0 <= j < 4 ==> (Belongs(a, quad[j]) <==> j == k)
    ensures OneHome(a, quad)
  {
    hide Belongs;
    assert Belongs(a, quad[k]);
  }

  lemma {:induction false} BandHomes(a: Anchor)
    ensures OneHome(a, [RecurrenceBand(0), RecurrenceBand(1), RecurrenceBand(2), RecurrenceBand(3)])
    ensures OneHome(a, [SpectralBand(0), SpectralBand(1), SpectralBand(2), SpectralBand(3)])
    ensures OneHome(a, [HorizonBand(0), HorizonBand(1), HorizonBand(2), HorizonBand(3)])
  {
    hide OneHome;
    QuadHome(a, [RecurrenceBand(0), RecurrenceBand(1), RecurrenceBand(2), RecurrenceBand(3)], Band(a.order, 2, 5));
    QuadHome(a, [SpectralBand(0), SpectralBand(1), SpectralBand(2), SpectralBand(3)], Band(a.modes, 1, 3));
    QuadHome(a, [HorizonBand(0), HorizonBand(1), HorizonBand(2), HorizonBand(3)], Band(a.hCount, 4, 16));
  }

  lemma {:induction false} FamilyPartitions(a: Anchor, i: nat)
    requires i < 6
    ensures OneHome(a, Family(i))
  {
    hide OneHome;
    PairHome(a, Authority(true), Authority(false));
    PairHome(a, LocalSector(true), LocalSector(false));
    PairHome(a, PacketAnchor(true), PacketAnchor(false));
    BandHomes(a);
  }

  lemma {:induction false} CountsAppend(list: seq<Anchor>, a: Anchor, strata: seq<Stratum>, k: nat)
    requires forall j :: 0 <= j < |strata| && j != k ==> !Belongs(a, strata[j])
    requires k < |strata| ==> Belongs(a, strata[k])
    ensures CountsOf(list + [a], strata)
         == if k < |strata| then Plus(CountsOf(list, strata), One(a)) else CountsOf(list, strata)
    decreases |strata|
  {
    if strata != [] {
      var n := |strata| - 1;
      CountAppend(list, a, strata[n]);
      CountsAppend(list, a, strata[..n], k);
    }
  }

  lemma {:induction false} NothingCounted(strata: seq<Stratum>)
    ensures CountsOf([], strata) == Tally(0, 0)
  {
    if strata != [] {
      NothingCounted(strata[..|strata| - 1]);
    }
  }

  /** Strata that give every anchor exactly one home add up to all anchors and signals. */
  lemma {:induction false} CountsAddUp(list: seq<Anchor>, strata: seq<Stratum>)
    requires forall i :: 0 <= i < |list| ==> OneHome(list[i], strata)
    ensures CountsOf(list, strata) == Count(list, All)
    decreases |list|
  {
    hide CountsOf, Count, Plus, One;
    if list == [] {
      CountNone(All);
      NothingCounted(strata);
    } else {
      var n := |list| - 1;
      CountsAddUp(list[..n], strata);
      assert OneHome(list[n], strata);
      var k :| 0 <= k < |strata| && Belongs(list[n], strata[k]) &&
        forall j :: 0 <= j < |strata| && j != k ==> !Belongs(list[n], strata[j]);
      CountsAppend(list[..n], list[n], strata, k);
      CountAppend(list[..n], list[n], All);
      assert list[..n] + [list[n]] == list;
    }
  }

  lemma {:induction false} SumIsCounts(t: Table, list: seq<Anchor>, strata: seq<Stratum>)
    requires Tallies(t, list)
    ensures SumOf(t, strata) == CountsOf(list, strata)
    decreases |strata|
  {
    hide At, Count, Plus;
    if strata != [] {
      SumIsCounts(t, list, strata[..|strata| - 1]);
      assert At(t, strata[|strata| - 1]) == Count(list, strata[|strata| - 1]);
    }
  }

  /** Main result: in any table that tallies a list of anchors, be it a window's or the
      aggregate, every stratification sums to `all`, for anchors and for signals. */
  lemma {:induction false} StrataSumToAll(t: Table, list: seq<Anchor>, i: nat)
    requires Tallies(t, list) && i < 6
    ensures SumOf(t, Family(i)) == At(t, All)
  {
    hide SumOf, CountsOf, At, Count, Family, OneHome;
    forall k | 0 <= k < |list|
      ensures OneHome(list[k], Family(i))
    {
      FamilyPartitions(list[k], i);
    }
    CountsAddUp(list, Family(i));
    SumIsCounts(t, list, Family(i));
    assert At(t, All) == Count(list, All);
  }

  lemma {:induction false} CountsMembers(list: seq<Anchor>, i: nat, st: Stratum)
    requires i < |list| && Belongs(list[i], st)
    ensures Count(list, st).anchors >= 1
    decreases |list|
  {
    hide Belongs;
    if i < |list| - 1 {
      CountsMembers(list[..|list| - 1], i, st);
    }
  }

  /** One row of the clause report. */
  datatype ClauseRow = ClauseRow(clause: string, tally: Tally)

  /** One row for every clause the table holds, and no other. */
  ghost predicate RowsOf(rows: seq<ClauseRow>, t: Table) {
    && (forall j, k :: 0 <= j < k < |rows| ==> rows[j].clause != rows[k].clause)
    && (forall k :: 0 <= k < |rows| ==> PrimaryClause(rows[k].clause) in t)
    && (forall c :: PrimaryClause(c) in t ==> HasRow(rows, c))
    && (forall k :: 0 <= k < |rows| ==> rows[k].tally == At(t, PrimaryClause(rows[k].clause)))
  }

  ghost predicate HasRow(rows: seq<ClauseRow>, clause: string) {
    exists k :: 0 <= k < |rows| && rows[k].clause == clause
  }

  /** The loop that turns the clause accumulators into rows. */
  method ClauseRows(t: Table) returns (rows: seq<ClauseRow>)
    ensures RowsOf(rows, t)
  {
    rows := [];
    var keys := t.Keys;
    while keys != {}
      invariant keys <= t.Keys
      invariant forall j, k :: 0 <= j < k < |rows| ==> rows[j].clause != rows[k].clause
      invariant forall k :: 0 <= k < |rows| ==> PrimaryClause(rows[k].clause) in t.Keys - keys
      invariant forall c :: PrimaryClause(c) in t.Keys - keys ==> HasRow(rows, c)
      invariant forall k :: 0 <= k < |rows| ==> rows[k].tally == At(t, PrimaryClause(rows[k].clause))
      decreases |keys|
    {
      var st :| st in keys;
      keys := keys - {st};
      if st.PrimaryClause? {
        ghost var before := rows;
        rows := rows + [ClauseRow(st.clause, t[st])];
        RowAdded(before, rows);
      }
    }
  }

  lemma {:induction false} RowAdded(before: seq<ClauseRow>, rows: seq<ClauseRow>)
    requires |rows| == |before| + 1 && rows[..|before|] == before
    ensures forall c :: HasRow(rows, c) <==> HasRow(before, c) || c == rows[|before|].clause
  {
    forall c
      ensures HasRow(rows, c) <==> HasRow(before, c) || c == rows[|before|].clause
    {
      if HasRow(before, c) {
        var k :| 0 <= k < |before| && before[k].clause == c;
        assert rows[k].clause == c;
      }
    }
  }

  function SumRows(rows: seq<ClauseRow>): Tally {
    if rows == [] then Tally(0, 0) else Plus(SumRows(rows[..|rows| - 1]), rows[|rows| - 1].tally)
  }

  function ClauseStrata(rows: seq<ClauseRow>): (s: seq<Stratum>)
    ensures |s| == |rows| && forall k :: 0 <= k < |s| ==> s[k] == PrimaryClause(rows[k].clause)
  {
    seq(|rows|, k requires 0 <= k < |rows| => PrimaryClause(rows[k].clause))
  }

  lemma {:induction false} RowsAreStrata(t: Table, rows: seq<ClauseRow>)
    requires forall k :: 0 <= k < |rows| ==> rows[k].tally == At(t, PrimaryClause(rows[k].clause))
    ensures SumRows(rows) == SumOf(t, ClauseStrata(rows))
    decreases |rows|
  {
    hide At, Plus;
    if rows != [] {
      var init := rows[..|rows| - 1];
      RowsAreStrata(t, init);
      assert ClauseStrata(rows)[..|rows| - 1] == ClauseStrata(init);
    }
  }

  /** The table has a row for the primary clause of every anchor it tallies. */
  lemma {:induction false} AnchorHasRow(t: Table, list: seq<Anchor>, rows: seq<ClauseRow>, i: nat)
    requires Tallies(t, list) && RowsOf(rows, t) && i < |list|
    ensures OneHome(list[i], ClauseStrata(rows))
  {
    hide PrimaryFailed, Count, OneHome;
    var c := PrimaryFailed(list[i].failed);
    CountsMembers(list, i, PrimaryClause(c));
    assert At(t, PrimaryClause(c)) == Count(list, PrimaryClause(c));
    assert HasRow(rows, c);
    var k :| 0 <= k < |rows| && rows[k].clause == c;
    ClauseHome(list[i], ClauseStrata(rows), k);
  }

  lemma {:induction false} ClauseHome(a: Anchor, strata: seq<Stratum>, k: nat)
    requires k < |strata| && forall j :: 0 <= j < |strata| ==> strata[j].PrimaryClause?
    requires forall i, j :: 0 <= i < j < |strata| ==> strata[i].clause != strata[j].clause
    requires strata[k].clause == PrimaryFailed(a.failed)
    ensures OneHome(a, strata)
  {
    hide PrimaryFailed;
    assert Belongs(a, strata[k]);
  }

  /** The clause report as well: its rows sum to `all`. */
  lemma {:induction false} ClausesSumToAll(t: Table, list: seq<Anchor>, rows: seq<ClauseRow>)
    requires Tallies(t, list) && RowsOf(rows, t)
    ensures SumRows(rows) == At(t, All)
  {
    hide SumOf, SumRows, CountsOf, At, Count, OneHome, Family, Belongs;
    forall i: nat | i < |list|
      ensures OneHome(list[i], ClauseStrata(rows))
    {
      AnchorHasRow(t, list, rows, i);
    }
    CountsAddUp(list, ClauseStrata(rows));
    SumIsCounts(t, list, ClauseStrata(rows));
    RowTallies(t, rows);
    RowsAreStrata(t, rows);
    assert At(t, All) == Count(list, All);
  }

  lemma {:induction false} RowTallies(t: Table, rows: seq<ClauseRow>)
    requires RowsOf(rows, t)
    ensures forall k :: 0 <= k < |rows| ==> rows[k].tally == At(t, PrimaryClause(rows[k].clause))
  {
    hide At;
  }

  lemma {:induction false} AnchorsCausal(x: seq<Candle>, y: seq<Candle>, ts: seq<nat>, m: nat, engine: Engine,
                                         research: bool)
    requires m <= |x| && m <= |y| && x[..m] == y[..m]
    requires forall i :: 0 <= i < |ts| ==> ts[i] < m
    ensures RetainedAnchors(x, ts, engine, research) == RetainedAnchors(y, ts, engine, research)
    decreases |ts|
  {
    if ts != [] {
      var t := ts[|ts| - 1];
      AnchorsCausal(x, y, ts[..|ts| - 1], m, engine, research);
      assert x[..t + 1] == x[..m][..t + 1] == y[..m][..t + 1] == y[..t + 1];
    }
  }

  /** No lookahead: the anchors kept in a window depend on no bar at or after its end. */
  lemma {:induction false} WindowCausal(x: seq<Candle>, y: seq<Candle>, cfg: WalkConfig, k: nat, engine: Engine)
    requires cfg.step > 0 && Fits(cfg, |x|, k) && Fits(cfg, |y|, k)
    requires var e := WindowAt(cfg, k).testEnd; e >= 0 ==> x[..e] == y[..e]
    ensures RetainedIn(x, cfg, k, engine) == RetainedIn(y, cfg, k, engine)
  {
    hide Visited, RetainedAnchors, Stride;
    var e := WindowAt(cfg, k).testEnd;
    TestInside(cfg, |x|, k);
    if e >= 0 {
      VisitedInside(WindowAt(cfg, k).testStart, e, Stride(cfg));
      AnchorsCausal(x, y, TestAnchors(cfg, k), e, engine, cfg.research);
    } else {
      NoTest(cfg, k);
      AnchorsCausal(x, y, TestAnchors(cfg, k), 0, engine, cfg.research);
    }
  }

  lemma {:induction false} NoTest(cfg: WalkConfig, k: nat)
    requires cfg.step > 0 && WindowAt(cfg, k).testEnd < 0
    ensures TestAnchors(cfg, k) == []
  {
  }

  /** Every anchor the engine reports carries the readiness, the sector flag and the numbers of
      a verdict of the authority gate on some artifacts. */
  ghost predicate Gated(engine: Engine) {
    forall c: seq<Candle>, t: int :: engine(c, t).Some? ==> FromVerdict(engine(c, t).value)
  }

  ghost predicate FromVerdict(a: Anchor) {
    exists st, art, cfg, tr, self :: Gate.GateOf(st, art, cfg, tr, self) && ReadFrom(a, st, art)
  }

  predicate ReadFrom(a: Anchor, st: Gate.Status, art: Gate.Artifacts) {
    && a.ready == st.productionReady && a.sectorVerified == st.certificate.verified
    && a.hCount == st.certificate.validCount && a.packets == |art.events.packets|
    && a.order == |art.recurrence.rec| && a.modes == |art.recurrence.spectrum.modes|
  }

  lemma {:induction false} NotReady(a: Anchor)
    requires FromVerdict(a)
    ensures !a.ready
  {
    hide Gate.GateOf;
    var st, art, cfg, tr, self :| Gate.GateOf(st, art, cfg, tr, self) && ReadFrom(a, st, art);
    Gate.NeverProductionReady(st, art, cfg, tr, self);
  }

  /** A run on the gate's verdicts without the research flag retains no anchor at all. */
  lemma {:induction false} NeverReadyKeepsNothing(candles: seq<Candle>, ts: seq<nat>, engine: Engine)
    requires forall i :: 0 <= i < |ts| ==> ts[i] < |candles|
    requires Gated(engine)
    ensures RetainedAnchors(candles, ts, engine, false) == []
    ensures CountOutcomes(Counters(0, 0, 0), candles, ts, engine, false).rejected == |ts|
    decreases |ts|
  {
    hide FromVerdict;
    if ts != [] {
      NeverReadyKeepsNothing(candles, ts[..|ts| - 1], engine);
      var r := Outcome(candles, ts[|ts| - 1], engine);
      if r.Some? {
        NotReady(r.value);
      }
    }
  }
}
