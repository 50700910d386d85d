/** The fill and equity simulator (src/backtest/simulator.cpp). */
module Simulator {
  import ComplexField
  import opened Candles
  import opened Reals

  datatype Signal = Signal(ts: int, side: int, strength: real)

  datatype Order = Order(ts: int, side: int, qty: real)

  datatype Fill = Fill(ts: int, px: real, qty: real, fee: real)

  datatype Config = Config(startingEquity: real, feeBps: real, slippageBps: real, lag: int)

  function ApplySlippage(px: real, side: int, bps: real): real {
    px * (1.0 + side as real * bps * 0.0001)
  }

  function Commission(notional: real, bps: real): real {
    notional * bps * 0.0001
  }

  /** `simulate_fill`. */
  function SimulateFill(o: Order, next: Candle, feeBps: real, slippageBps: real): Fill {
    var qty := o.side as real * o.qty;
    var px := ApplySlippage(next.open, o.side, slippageBps);
    Fill(next.ts, px, qty, Commission(Abs(qty) * px, feeBps))
  }

  // ---------------------------------------------------------------- the trading desk

  /** Where a fill came from: the signal and the bar at which it was taken up. */
  datatype Origin = Origin(signal: nat, bar: nat)

  /** The state between signals.  Besides the source's variables it remembers each fill's
      origin and how many fills there were when the position was last flattened. */
  datatype Desk = Desk(sig: nat, equity: real, qty: real, avg: real, fills: seq<Fill>, orders: seq<Order>,
                       origins: seq<Origin>, flat: nat)

  function Opening(cfg: Config): Desk {
    Desk(0, cfg.startingEquity, 0.0, 0.0, [], [], [], 0)
  }

  predicate Priced(candles: seq<Candle>) {
    forall i :: 0 <= i < |candles| ==> candles[i].open != 0.0
  }

  predicate Tradable(s: Signal, i: nat, n: nat, cfg: Config) {
    s.side != 0 && 0 <= i + cfg.lag < n
  }

  function AveragePrice(qty: real, avg: real, f: Fill): real {
    var newQty := qty + f.qty;
    if Abs(newQty) > 0.000000000001 then (qty * avg + f.qty * f.px) / newQty else 0.0
  }

  function Book(d: Desk, o: Order, f: Fill, origin: Origin): Desk {
    var newQty := d.qty + f.qty;
    Desk(d.sig, d.equity - f.fee, newQty, AveragePrice(d.qty, d.avg, f), d.fills + [f], d.orders + [o],
      d.origins + [origin], if Abs(newQty) > 0.000000000001 then d.flat else |d.fills| + 1)
  }

  function OrderFor(s: Signal, next: Candle, cfg: Config): Order
    requires next.open != 0.0
  {
    Order(next.ts, s.side, s.strength * cfg.startingEquity / next.open)
  }

  /** Take up the next signal at bar i. */
  function Take(d: Desk, i: nat, candles: seq<Candle>, signals: seq<Signal>, cfg: Config): Desk
    requires d.sig < |signals| && Priced(candles)
  {
    var s := signals[d.sig];
    var next := d.(sig := d.sig + 1);
    if !Tradable(s, i, |candles|, cfg) then next
    else
      var nb := candles[i + cfg.lag];
      var o := OrderFor(s, nb, cfg);
      Book(next, o, SimulateFill(o, nb, cfg.feeBps, cfg.slippageBps), Origin(d.sig, i))
  }

  /** Take up every signal that is due at bar i. */
  function Drain(d: Desk, i: nat, candles: seq<Candle>, signals: seq<Signal>, cfg: Config): Desk
    requires d.sig <= |signals| && i < |candles| && Priced(candles)
    decreases |signals| - d.sig
  {
    if d.sig < |signals| && signals[d.sig].ts <= candles[i].ts
    then Drain(Take(d, i, candles, signals, cfg), i, candles, signals, cfg)
    else d
  }

  /** The desk after bars 0..n-1. */
  function After(n: nat, candles: seq<Candle>, signals: seq<Signal>, cfg: Config): (d: Desk)
    requires n <= |candles| && Priced(candles)
    ensures d.sig <= |signals|
  {
    if n == 0 then Opening(cfg)
    else
      DrainKeepsCount(After(n - 1, candles, signals, cfg), n - 1, candles, signals, cfg);
      Drain(After(n - 1, candles, signals, cfg), n - 1, candles, signals, cfg)
  }

  lemma {:induction false} DrainKeepsCount(d: Desk, i: nat, candles: seq<Candle>, signals: seq<Signal>, cfg: Config)
    requires d.sig <= |signals| && i < |candles| && Priced(candles)
    ensures d.sig <= Drain(d, i, candles, signals, cfg).sig <= |signals|
    decreases |signals| - d.sig
  {
    if d.sig < |signals| && signals[d.sig].ts <= candles[i].ts {
      DrainKeepsCount(Take(d, i, candles, signals, cfg), i, candles, signals, cfg);
    }
  }

  /** Marking to the close before the bar's own signals. */
  function Pnl(d: Desk, close: real): real {
    d.qty * (close - d.avg)
  }

  function BarEquity(i: nat, candles: seq<Candle>, signals: seq<Signal>, cfg: Config): real
    requires i < |candles| && Priced(candles)
  {
    var d := After(i, candles, signals, cfg);
    d.equity + Pnl(d, candles[i].close)
  }

  /** The running peak over the starting equity and bars 0..n-1. */
  function Peak(n: nat, candles: seq<Candle>, signals: seq<Signal>, cfg: Config): real
    requires n <= |candles| && Priced(candles)
  {
    if n == 0 then cfg.startingEquity
    else MaxReal(Peak(n - 1, candles, signals, cfg), BarEquity(n - 1, candles, signals, cfg))
  }

  function Drawdown(equity: real, peak: real): real {
    if peak > 0.0 then (equity - peak) / peak else 0.0
  }

  datatype Curve = Curve(ts: seq<int>, equity: seq<real>, pnl: seq<real>, dd: seq<real>)

  ghost predicate CurveOf(c: Curve, n: nat, candles: seq<Candle>, signals: seq<Signal>, cfg: Config)
    requires n <= |candles| && Priced(candles)
  {
    && |c.ts| == |c.equity| == |c.pnl| == |c.dd| == n
    && forall i :: 0 <= i < n ==>
         && c.ts[i] == candles[i].ts
         && c.equity[i] == BarEquity(i, candles, signals, cfg)
         && c.pnl[i] == Pnl(After(i, candles, signals, cfg), candles[i].close)
         && c.dd[i] == Drawdown(c.equity[i], Peak(i + 1, candles, signals, cfg))
  }

  /** The while loop over due signals. */
  method ProcessSignals(ghost d: Desk, i: nat, candles: seq<Candle>, signals: seq<Signal>, cfg: Config, sig0: nat,
                        equity0: real, qty0: real, avg0: real, fills0: seq<Fill>, orders0: seq<Order>)
    returns (sig: nat, equity: real, qty: real, avg: real, fills: seq<Fill>, orders: seq<Order>)
    requires d.sig <= |signals| && i < |candles| && Priced(candles)
    requires Shows(d, sig0, equity0, qty0, avg0, fills0, orders0)
    ensures Shows(Drain(d, i, candles, signals, cfg), sig, equity, qty, avg, fills, orders)
  {
    hide AveragePrice, SimulateFill, OrderFor;
    sig, equity, qty, avg, fills, orders := sig0, equity0, qty0, avg0, fills0, orders0;
    ghost var e := d;
    while sig < |signals| && signals[sig].ts <= candles[i].ts
      invariant sig <= |signals| && Shows(e, sig, equity, qty, avg, fills, orders)
      invariant Drain(e, i, candles, signals, cfg) == Drain(d, i, candles, signals, cfg)
      decreases |signals| - sig
    {
      var s := signals[sig];
      e := Take(e, i, candles, signals, cfg);
      sig := sig + 1;
      if s.side == 0 || !(0 <= i + cfg.lag < |candles|) {
        continue;
      }
      var nb := candles[i + cfg.lag];
      var o := OrderFor(s, nb, cfg);
      var f := SimulateFill(o, nb, cfg.feeBps, cfg.slippageBps);
      orders := orders + [o];
      fills := fills + [f];
      avg := AveragePrice(qty, avg, f);
      qty := qty + f.qty;
      equity := equity - f.fee;
    }
  }

  /** The desk as the source's variables show it. */
  ghost predicate Shows(d: Desk, sig: nat, equity: real, qty: real, avg: real, fills: seq<Fill>, orders: seq<Order>) {
    d.sig == sig && d.equity == equity && d.qty == qty && d.avg == avg && d.fills == fills && d.orders == orders
  }

  /** `run_backtest`. */
  method RunBacktest(candles: seq<Candle>, signals: seq<Signal>, cfg: Config)
    returns (c: Curve, fills: seq<Fill>, orders: seq<Order>)
    requires Priced(candles)
    ensures CurveOf(c, |candles|, candles, signals, cfg)
    ensures var d := After(|candles|, candles, signals, cfg); fills == d.fills && orders == d.orders
  {
    hide Drain, Pnl, Drawdown;
    var equity, peak := cfg.startingEquity, cfg.startingEquity;
    var qty, avg := 0.0, 0.0;
    var sig: nat := 0;
    fills, orders := [], [];
    c := Curve([], [], [], []);
    var i := 0;
    while i < |candles|
      invariant 0 <= i <= |candles| && sig <= |signals| && CurveOf(c, i, candles, signals, cfg)
      invariant Shows(After(i, candles, signals, cfg), sig, equity, qty, avg, fills, orders)
      invariant peak == Peak(i, candles, signals, cfg)
    {
      ghost var d := After(i, candles, signals, cfg);
      var bar := candles[i];
      var mtm := Pnl(Desk(sig, equity, qty, avg, [], [], [], 0), bar.close);
      PnlReads(d, Desk(sig, equity, qty, avg, [], [], [], 0), bar.close);
      var barEquity := equity + mtm;
      sig, equity, qty, avg, fills, orders :=
        ProcessSignals(d, i, candles, signals, cfg, sig, equity, qty, avg, fills, orders);
      DrainKeepsCount(d, i, candles, signals, cfg);
      peak := MaxReal(peak, barEquity);
      c := Curve(c.ts + [bar.ts], c.equity + [barEquity], c.pnl + [mtm], c.dd + [Drawdown(barEquity, peak)]);
      i := i + 1;
    }
  }

  lemma {:induction false} PnlReads(d: Desk, e: Desk, close: real)
    requires d.qty == e.qty && d.avg == e.avg
    ensures Pnl(d, close) == Pnl(e, close)
  {
  }

  // ---------------------------------------------------------------- order of events

  ghost predicate TimesIncrease(candles: seq<Candle>) {
    forall i, j :: 0 <= i < j < |candles| ==> candles[i].ts < candles[j].ts
  }

  /** Fill k was caused by signal origins[k].signal, taken up at bar origins[k].bar, and is
      priced lag bars later. */
  ghost predicate Caused(d: Desk, k: nat, candles: seq<Candle>, signals: seq<Signal>, cfg: Config)
    requires k < |d.fills| == |d.origins| && Priced(candles)
  {
    var from := d.origins[k];
    && from.signal < |signals| && from.bar < |candles| && 0 <= from.bar + cfg.lag < |candles|
    && signals[from.signal].ts <= candles[from.bar].ts && signals[from.signal].side != 0
    && var nb := candles[from.bar + cfg.lag];
       d.fills[k] == SimulateFill(OrderFor(signals[from.signal], nb, cfg), nb, cfg.feeBps, cfg.slippageBps)
  }

  ghost predicate InOrder(d: Desk, n: nat, candles: seq<Candle>, signals: seq<Signal>, cfg: Config)
    requires Priced(candles)
  {
    && |d.fills| == |d.origins| == |d.orders|
    && (forall k :: 0 <= k < |d.fills| ==>
          Caused(d, k, candles, signals, cfg) && d.origins[k].signal < d.sig && d.origins[k].bar < n)
    && (forall j, k :: 0 <= j < k < |d.fills| ==>
          d.origins[j].signal < d.origins[k].signal && d.origins[j].bar <= d.origins[k].bar)
  }

  lemma {:induction false} TakeInOrder(d: Desk, i: nat, candles: seq<Candle>, signals: seq<Signal>, cfg: Config)
    requires Priced(candles) && d.sig < |signals| && i < |candles| && signals[d.sig].ts <= candles[i].ts
    requires InOrder(d, i + 1, candles, signals, cfg)
    ensures InOrder(Take(d, i, candles, signals, cfg), i + 1, candles, signals, cfg)
  {
    hide SimulateFill, OrderFor, AveragePrice;
    var e := Take(d, i, candles, signals, cfg);
    forall k: nat | k < |e.fills|
      ensures Caused(e, k, candles, signals, cfg)
    {
      if k < |d.fills| {
        assert Caused(d, k, candles, signals, cfg);
      }
    }
  }

  lemma {:induction false} DrainInOrder(d: Desk, i: nat, candles: seq<Candle>, signals: seq<Signal>, cfg: Config)
    requires Priced(candles) && d.sig <= |signals| && i < |candles| && InOrder(d, i + 1, candles, signals, cfg)
    ensures var e := Drain(d, i, candles, signals, cfg);
      InOrder(e, i + 1, candles, signals, cfg) &&
      (e.sig == |signals| || (e.sig < |signals| && signals[e.sig].ts > candles[i].ts))
    decreases |signals| - d.sig
  {
    hide InOrder;
    if d.sig < |signals| && signals[d.sig].ts <= candles[i].ts {
      TakeInOrder(d, i, candles, signals, cfg);
      DrainInOrder(Take(d, i, candles, signals, cfg), i, candles, signals, cfg);
    }
  }

  /** Signals are taken up at most once and in order, by no bar earlier than they are due;
      after each bar no due signal is left. */
  lemma {:induction false} SignalsInOrder(n: nat, candles: seq<Candle>, signals: seq<Signal>, cfg: Config)
    requires Priced(candles) && n <= |candles|
    ensures var d := After(n, candles, signals, cfg);
      InOrder(d, n, candles, signals, cfg) &&
      (n > 0 ==> d.sig == |signals| || (d.sig < |signals| && signals[d.sig].ts > candles[n - 1].ts))
  {
    hide Drain;
    if n > 0 {
      SignalsInOrder(n - 1, candles, signals, cfg);
      DrainInOrder(After(n - 1, candles, signals, cfg), n - 1, candles, signals, cfg);
    }
  }

  /** Main result: with increasing bar times and a lag of one or more, every fill is dated
      strictly after the signal that caused it and after the bar that took it up. */
  lemma {:induction false} FillsAreLater(n: nat, candles: seq<Candle>, signals: seq<Signal>, cfg: Config, k: nat)
    requires Priced(candles) && n <= |candles| && TimesIncrease(candles) && cfg.lag >= 1
    requires k < |After(n, candles, signals, cfg).fills|
    ensures var d := After(n, candles, signals, cfg);
      |d.origins| == |d.fills| && d.origins[k].signal < |signals| && d.origins[k].bar < |candles| &&
      d.fills[k].ts > candles[d.origins[k].bar].ts >= signals[d.origins[k].signal].ts
  {
    hide After;
    SignalsInOrder(n, candles, signals, cfg);
    assert Caused(After(n, candles, signals, cfg), k, candles, signals, cfg);
  }

  // ---------------------------------------------------------------- the equity ledger

  function Fees(fills: seq<Fill>): real {
    if fills == [] then 0.0 else Fees(fills[..|fills| - 1]) + fills[|fills| - 1].fee
  }

  function Quantity(fills: seq<Fill>): real {
    if fills == [] then 0.0 else Quantity(fills[..|fills| - 1]) + fills[|fills| - 1].qty
  }

  /** Money paid for the fills, sales counted negative. */
  function Flow(fills: seq<Fill>): real {
    if fills == [] then 0.0 else Flow(fills[..|fills| - 1]) + fills[|fills| - 1].qty * fills[|fills| - 1].px
  }

  /** The profit of all fills at this price. */
  function Marked(fills: seq<Fill>, close: real): real {
    if fills == [] then 0.0
    else Marked(fills[..|fills| - 1], close) + fills[|fills| - 1].qty * (close - fills[|fills| - 1].px)
  }

  lemma {:induction false} MarkedSplits(fills: seq<Fill>, close: real)
    ensures Marked(fills, close) == Quantity(fills) * close - Flow(fills)
  {
    if fills != [] {
      var f := fills[|fills| - 1];
      MarkedSplits(fills[..|fills| - 1], close);
      Spread(Quantity(fills[..|fills| - 1]), f.qty, close, f.px);
    }
  }

  lemma {:induction false} Spread(q: real, r: real, close: real, px: real)
    ensures (q + r) * close == q * close + r * (close - px) + r * px
  {
  }

  lemma {:induction false} FlowSplits(fills: seq<Fill>, m: nat)
    requires m <= |fills|
    ensures Flow(fills) == Flow(fills[..m]) + Flow(fills[m..])
  {
    if m < |fills| {
      var n := |fills| - 1;
      FlowSplits(fills[..n], m);
      assert fills[..n][..m] == fills[..m];
      assert fills[m..][..n - m] == fills[..n][m..];
    } else {
      assert fills[..m] == fills && fills[m..] == [];
    }
  }

  /** The first flat fills end with the last one that left at most 1e-12. */
  ghost predicate LastFlat(fills: seq<Fill>, flat: nat) {
    && flat <= |fills|
    && (flat > 0 ==> Abs(Quantity(fills[..flat])) <= 0.000000000001)
    && forall m :: flat < m <= |fills| ==> Abs(Quantity(fills[..m])) > 0.000000000001
  }

  ghost predicate Ledger(d: Desk, cfg: Config) {
    && d.equity == cfg.startingEquity - Fees(d.fills)
    && d.qty == Quantity(d.fills)
    && LastFlat(d.fills, d.flat)
    && d.qty * d.avg == Flow(d.fills[d.flat..])
  }

  lemma {:induction false} AppendSums(fills: seq<Fill>, f: Fill)
    ensures Fees(fills + [f]) == Fees(fills) + f.fee
    ensures Quantity(fills + [f]) == Quantity(fills) + f.qty
    ensures Flow(fills + [f]) == Flow(fills) + f.qty * f.px
  {
    assert (fills + [f])[..|fills + [f]| - 1] == fills;
  }

  /** The cost basis: a fill adds what it cost, unless it flattens the position. */
  lemma {:induction false} BasisMoves(qty: real, avg: real, f: Fill)
    ensures var newQty := qty + f.qty;
      newQty * AveragePrice(qty, avg, f) == if Abs(newQty) > 0.000000000001 then qty * avg + f.qty * f.px else 0.0
  {
    var newQty := qty + f.qty;
    if Abs(newQty) > 0.000000000001 {
      DivideBack(qty * avg + f.qty * f.px, newQty);
    }
  }

  lemma {:induction false} FlatMoves(fills: seq<Fill>, f: Fill, flat: nat, qty: real)
    requires LastFlat(fills, flat) && qty == Quantity(fills + [f])
    ensures LastFlat(fills + [f], if Abs(qty) > 0.000000000001 then flat else |fills| + 1)
  {
    hide Abs, Quantity;
    var longer := fills + [f];
    assert longer[..|fills| + 1] == longer;
    forall m | 0 <= m <= |fills|
      ensures longer[..m] == fills[..m]
    {
    }
    BelowOrNot(qty);
  }

  lemma {:induction false} BelowOrNot(x: real)
    ensures Abs(x) > 0.000000000001 || Abs(x) <= 0.000000000001
  {
  }

  lemma {:induction false} BookKeepsLedger(d: Desk, o: Order, f: Fill, origin: Origin, cfg: Config)
    requires Ledger(d, cfg)
    ensures Ledger(Book(d, o, f, origin), cfg)
  {
    hide Fees, Quantity, Flow, AveragePrice, LastFlat, Abs;
    AppendSums(d.fills, f);
    BasisMoves(d.qty, d.avg, f);
    FlatMoves(d.fills, f, d.flat, d.qty + f.qty);
    FlatBound(d.fills, d.flat);
    var longer := d.fills + [f];
    assert longer[d.flat..] == d.fills[d.flat..] + [f];
    AppendSums(d.fills[d.flat..], f);
    assert longer[|d.fills| + 1..] == [];
    NoFlow();
  }

  lemma {:induction false} FlatBound(fills: seq<Fill>, flat: nat)
    requires LastFlat(fills, flat)
    ensures flat <= |fills|
  {
  }

  lemma {:induction false} NoFlow()
    ensures Flow([]) == 0.0
  {
  }

  lemma {:induction false} TakeKeepsLedger(d: Desk, i: nat, candles: seq<Candle>, signals: seq<Signal>, cfg: Config)
    requires d.sig < |signals| && Priced(candles) && Ledger(d, cfg)
    ensures Ledger(Take(d, i, candles, signals, cfg), cfg)
  {
    hide Fees, Quantity, Flow, LastFlat, Book, SimulateFill;
    var s := signals[d.sig];
    var next := d.(sig := d.sig + 1);
    if Tradable(s, i, |candles|, cfg) {
      var nb := candles[i + cfg.lag];
      var o := OrderFor(s, nb, cfg);
      BookKeepsLedger(next, o, SimulateFill(o, nb, cfg.feeBps, cfg.slippageBps), Origin(d.sig, i), cfg);
    }
  }

  lemma {:induction false} DrainKeepsLedger(d: Desk, i: nat, candles: seq<Candle>, signals: seq<Signal>, cfg: Config)
    requires d.sig <= |signals| && i < |candles| && Priced(candles) && Ledger(d, cfg)
    ensures Ledger(Drain(d, i, candles, signals, cfg), cfg)
    decreases |signals| - d.sig
  {
    hide Ledger;
    if d.sig < |signals| && signals[d.sig].ts <= candles[i].ts {
      TakeKeepsLedger(d, i, candles, signals, cfg);
      DrainKeepsLedger(Take(d, i, candles, signals, cfg), i, candles, signals, cfg);
    }
  }

  lemma {:induction false} OpeningLedger(cfg: Config)
    ensures Ledger(Opening(cfg), cfg)
  {
    assert Opening(cfg).fills[0..] == [];
  }

  lemma {:induction false} LedgerAlways(n: nat, candles: seq<Candle>, signals: seq<Signal>, cfg: Config)
    requires n <= |candles| && Priced(candles)
    ensures Ledger(After(n, candles, signals, cfg), cfg)
  {
    hide Ledger, Drain;
    if n == 0 {
      OpeningLedger(cfg);
    } else {
      LedgerAlways(n - 1, candles, signals, cfg);
      DrainKeepsLedger(After(n - 1, candles, signals, cfg), n - 1, candles, signals, cfg);
    }
  }

  /** Main result, the equity ledger: bar equity is starting equity less fees plus the marked
      profit of all earlier fills, plus the money that went through the fills up to the last
      flattening, which the reset cost basis forgets. */
  lemma {:induction false} EquityLedger(i: nat, candles: seq<Candle>, signals: seq<Signal>, cfg: Config)
    requires i < |candles| && Priced(candles)
    ensures var d := After(i, candles, signals, cfg);
      d.flat <= |d.fills| && LastFlat(d.fills, d.flat) &&
      BarEquity(i, candles, signals, cfg)
        == cfg.startingEquity - Fees(d.fills) + Marked(d.fills, candles[i].close) + Flow(d.fills[..d.flat])
  {
    hide After, Fees, Quantity, Flow, Marked, LastFlat;
    LedgerAlways(i, candles, signals, cfg);
    var d, close := After(i, candles, signals, cfg), candles[i].close;
    FlatBound(d.fills, d.flat);
    MarkedSplits(d.fills, close);
    FlowSplits(d.fills, d.flat);
    Distribute(d.qty, close, d.avg);
  }

  lemma {:induction false} Distribute(q: real, c: real, a: real)
    ensures q * (c - a) == q * c - q * a
  {
  }

  /** The textbook identity, equity = start - fees + sum of qty (close - price), holds at a
      bar exactly when the fills up to the last flattening balance to zero; so it holds on
      every run until a fill flattens the position. */
  lemma {:induction false} TextbookEquityExactly(i: nat, candles: seq<Candle>, signals: seq<Signal>, cfg: Config)
    requires i < |candles| && Priced(candles)
    ensures var d := After(i, candles, signals, cfg);
      d.flat <= |d.fills| &&
      (BarEquity(i, candles, signals, cfg)
         == cfg.startingEquity - Fees(d.fills) + Marked(d.fills, candles[i].close)
       <==> Flow(d.fills[..d.flat]) == 0.0) &&
      (d.flat == 0 ==> Flow(d.fills[..d.flat]) == 0.0)
  {
    hide After, Fees, Marked, LastFlat, BarEquity;
    EquityLedger(i, candles, signals, cfg);
  }

  /** Three valid bars, a purchase and a sale, without costs and at lag one. */
  function RallyBars(): seq<Candle> {
    [Candle(0, 10.0, 10.0, 10.0, 10.0, 0.0), Candle(1, 10.0, 20.0, 10.0, 20.0, 0.0),
     Candle(2, 20.0, 20.0, 20.0, 20.0, 0.0)]
  }

  function RoundTrip(): seq<Signal> {
    [Signal(0, 1, 0.5), Signal(1, -1, 1.0)]
  }

  function NoCosts(): Config {
    Config(100.0, 0.0, 0.0, 1)
  }

  /** The first bar takes up the purchase, at the second bar's open. */
  lemma {:induction false} BuyAtTen(bars: seq<Candle>, signals: seq<Signal>, cfg: Config)
    requires bars == RallyBars() && signals == RoundTrip() && cfg == NoCosts()
    ensures Priced(bars)
    ensures Take(Opening(cfg), 0, bars, signals, cfg)
         == Desk(1, 100.0, 5.0, 10.0, [Fill(1, 10.0, 5.0, 0.0)], [Order(1, 1, 5.0)], [Origin(0, 0)], 0)
  {
    hide Take, Book, OrderFor, SimulateFill;
    var d, o, f := Opening(cfg), Order(1, 1, 5.0), Fill(1, 10.0, 5.0, 0.0);
    assert Priced(bars);
    TakeBooks(d, 0, bars, signals, cfg);
    FirstFill(signals[0], bars[1], cfg);
    FirstAverage(f);
    BookFirst(d.(sig := 1), o, f, Origin(0, 0));
  }

  lemma {:induction false} TakeBooks(d: Desk, i: nat, candles: seq<Candle>, signals: seq<Signal>, cfg: Config)
    requires d.sig < |signals| && Priced(candles) && Tradable(signals[d.sig], i, |candles|, cfg)
    ensures var nb := candles[i + cfg.lag];
      var o := OrderFor(signals[d.sig], nb, cfg);
      Take(d, i, candles, signals, cfg)
        == Book(d.(sig := d.sig + 1), o, SimulateFill(o, nb, cfg.feeBps, cfg.slippageBps), Origin(d.sig, i))
  {
    hide Book, OrderFor, SimulateFill;
  }

  lemma {:induction false} FirstFill(s: Signal, next: Candle, cfg: Config)
    requires s == Signal(0, 1, 0.5) && next.open == 10.0 && next.ts == 1 && cfg == NoCosts()
    ensures OrderFor(s, next, cfg) == Order(1, 1, 5.0)
    ensures SimulateFill(Order(1, 1, 5.0), next, 0.0, 0.0) == Fill(1, 10.0, 5.0, 0.0)
  {
  }

  lemma {:induction false} BookFirst(d: Desk, o: Order, f: Fill, origin: Origin)
    requires d.qty == 0.0 && d.avg == 0.0 && f.qty == 5.0 && AveragePrice(0.0, 0.0, f) == 10.0
    ensures Book(d, o, f, origin)
         == Desk(d.sig, d.equity - f.fee, 5.0, 10.0, d.fills + [f], d.orders + [o], d.origins + [origin], d.flat)
  {
    hide AveragePrice;
  }

  lemma {:induction false} FirstAverage(f: Fill)
    requires f.px == 10.0 && f.qty == 5.0
    ensures AveragePrice(0.0, 0.0, f) == 10.0
  {
    assert 0.0 * 0.0 + f.qty * f.px == 50.0;
  }

  /** The second bar takes up the sale, at the third bar's open, and the position is flat. */
  lemma {:induction false} SellAtTwenty(d: Desk, bars: seq<Candle>, signals: seq<Signal>, cfg: Config)
    requires bars == RallyBars() && signals == RoundTrip() && cfg == NoCosts() && Priced(bars)
    requires d == Desk(1, 100.0, 5.0, 10.0, [Fill(1, 10.0, 5.0, 0.0)], [Order(1, 1, 5.0)], [Origin(0, 0)], 0)
    ensures var e := Take(d, 1, bars, signals, cfg);
      e.sig == 2 && e.equity == 100.0 && e.qty == 0.0 && e.fills == d.fills + [Fill(2, 20.0, -5.0, 0.0)]
  {
    hide AveragePrice;
    var o, f := Order(2, -1, 5.0), Fill(2, 20.0, -5.0, 0.0);
    assert OrderFor(signals[1], bars[2], cfg) == o;
    assert SimulateFill(o, bars[2], 0.0, 0.0) == f;
  }

  lemma {:induction false} DrainOnce(d: Desk, i: nat, candles: seq<Candle>, signals: seq<Signal>, cfg: Config)
    requires d.sig < |signals| && i < |candles| && Priced(candles) && signals[d.sig].ts <= candles[i].ts
    requires d.sig + 1 == |signals| || signals[d.sig + 1].ts > candles[i].ts
    ensures Drain(d, i, candles, signals, cfg) == Take(d, i, candles, signals, cfg)
  {
    hide Book, OrderFor, SimulateFill;
    var e := Take(d, i, candles, signals, cfg);
    TakesOne(d, i, candles, signals, cfg);
    assert Drain(e, i, candles, signals, cfg) == e;
  }

  lemma {:induction false} TakesOne(d: Desk, i: nat, candles: seq<Candle>, signals: seq<Signal>, cfg: Config)
    requires d.sig < |signals| && Priced(candles)
    ensures Take(d, i, candles, signals, cfg).sig == d.sig + 1
  {
    hide OrderFor, SimulateFill, AveragePrice;
  }

  lemma {:induction false} AfterRoundTrip(bars: seq<Candle>, signals: seq<Signal>, cfg: Config)
    requires bars == RallyBars() && signals == RoundTrip() && cfg == NoCosts()
    ensures Priced(bars)
    ensures var d := After(2, bars, signals, cfg);
      d.equity == 100.0 && d.qty == 0.0 && d.fills == [Fill(1, 10.0, 5.0, 0.0), Fill(2, 20.0, -5.0, 0.0)]
  {
    hide Take, Drain, After;
    BuyAtTen(bars, signals, cfg);
    var d0 := Opening(cfg);
    var d1 := Take(d0, 0, bars, signals, cfg);
    DrainOnce(d0, 0, bars, signals, cfg);
    AfterStep(0, bars, signals, cfg);
    SellAtTwenty(d1, bars, signals, cfg);
    DrainOnce(d1, 1, bars, signals, cfg);
    AfterStep(1, bars, signals, cfg);
  }

  lemma {:induction false} AfterStep(n: nat, candles: seq<Candle>, signals: seq<Signal>, cfg: Config)
    requires n < |candles| && Priced(candles)
    ensures After(0, candles, signals, cfg) == Opening(cfg)
    ensures After(n + 1, candles, signals, cfg) == Drain(After(n, candles, signals, cfg), n, candles, signals, cfg)
  {
    hide Drain;
  }

  lemma {:induction false} TwoFills(x: Fill, y: Fill, close: real)
    ensures Fees([x, y]) == x.fee + y.fee
    ensures Marked([x, y], close) == x.qty * (close - x.px) + y.qty * (close - y.px)
  {
    var both := [x, y];
    assert both[..1] == [x] && [x][..0] == [];
    assert Fees([x]) == Fees([]) + x.fee;
    assert Marked([x], close) == Marked([], close) + x.qty * (close - x.px);
  }

  /** The textbook identity fails at a run of the simulator: five bought at ten and sold at
      twenty gain fifty, but the bar after the sale still shows the starting hundred. */
  lemma {:induction false} FlatteningForgetsProfit(bars: seq<Candle>, signals: seq<Signal>, cfg: Config)
    requires bars == RallyBars() && signals == RoundTrip() && cfg == NoCosts()
    ensures ValidCandles(bars) && Priced(bars)
    ensures BarEquity(2, bars, signals, cfg) == 100.0
    ensures var fills := After(2, bars, signals, cfg).fills;
      cfg.startingEquity - Fees(fills) + Marked(fills, bars[2].close) == 150.0
  {
    hide After, Fees, Marked;
    AfterRoundTrip(bars, signals, cfg);
    TwoFills(Fill(1, 10.0, 5.0, 0.0), Fill(2, 20.0, -5.0, 0.0), 20.0);
    FlatPnl(After(2, bars, signals, cfg), bars[2].close);
  }

  lemma {:induction false} FlatPnl(d: Desk, close: real)
    requires d.qty == 0.0
    ensures Pnl(d, close) == 0.0
  {
  }

  // ---------------------------------------------------------------- drawdown

  lemma {:induction false} PeakIsPeak(n: nat, candles: seq<Candle>, signals: seq<Signal>, cfg: Config)
    requires n <= |candles| && Priced(candles)
    ensures Peak(n, candles, signals, cfg) >= cfg.startingEquity
    ensures forall i :: 0 <= i < n ==> BarEquity(i, candles, signals, cfg) <= Peak(n, candles, signals, cfg)
    ensures Peak(n, candles, signals, cfg) == cfg.startingEquity ||
      exists i :: 0 <= i < n && BarEquity(i, candles, signals, cfg) == Peak(n, candles, signals, cfg)
  {
    hide BarEquity;
    if n > 0 {
      PeakIsPeak(n - 1, candles, signals, cfg);
    }
  }

  /** Under a positive peak the drawdown is never positive, is zero exactly at the peak, and
      with the peak gives back the equity; under any other peak it is zero.  The peak is
      positive whenever the starting equity is. */
  lemma {:induction false} DrawdownMeaning(i: nat, candles: seq<Candle>, signals: seq<Signal>, cfg: Config)
    requires i < |candles| && Priced(candles)
    ensures var e, p := BarEquity(i, candles, signals, cfg), Peak(i + 1, candles, signals, cfg);
      && (cfg.startingEquity > 0.0 ==> p > 0.0) && (p <= 0.0 ==> Drawdown(e, p) == 0.0)
      && (p > 0.0 ==> Drawdown(e, p) <= 0.0 && (Drawdown(e, p) == 0.0 <==> e == p))
      && (p > 0.0 ==> p * (1.0 + Drawdown(e, p)) == e)
  {
    hide BarEquity, Peak;
    var e, p := BarEquity(i, candles, signals, cfg), Peak(i + 1, candles, signals, cfg);
    PeakIsPeak(i + 1, candles, signals, cfg);
    if p > 0.0 {
      RelativeDrop(e, p);
    }
  }

  lemma {:induction false} RelativeDrop(e: real, p: real)
    requires p > 0.0 && e <= p
    ensures var dd := (e - p) / p; dd <= 0.0 && (dd == 0.0 <==> e == p) && p * (1.0 + dd) == e
  {
    var dd := (e - p) / p;
    DivideBack(e - p, p);
    assert p * (1.0 + dd) == p + p * dd;
    if dd > 0.0 {
      ComplexField.ProductPositive(p, dd, p * dd);
    }
  }
}
