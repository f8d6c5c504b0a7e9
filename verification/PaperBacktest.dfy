/** The grid, DCA and slice backtests: solvency, conservation and drawdown along every run. */
module PaperBacktest {
  import opened Numbers
  import opened PaperTrading

  datatype Point = Point(wallet: Wallet, equity: real, drawdown: real)

  /** What a run carries from bar to bar. */
  datatype Run = Run(wallet: Wallet, trades: seq<Trade>, points: seq<Point>, peak: real)

  function Equity(w: Wallet, price: real): real {
    w.cash + Product(w.base, price)
  }

  function Start(w: Wallet, prices: seq<real>): Run
    requires prices != []
  {
    Run(w, [], [], Equity(w, prices[0]))
  }

  function DrawdownFrom(peak: real, equity: real): real {
    if peak <= 0.0 then 0.0 else Max(0.0, (peak - equity) / peak * 100.0)
  }

  function AddPoint(r: Run, price: real): Run {
    var equity := Equity(r.wallet, price);
    var peak := Max(r.peak, equity);
    r.(points := r.points + [Point(r.wallet, equity, DrawdownFrom(peak, equity))], peak := peak)
  }

  function AddTrade(r: Run, side: Side, price: real, quote: real, c: Costs): Run
    requires Accepted(c)
  {
    var t := ExecuteTrade(r.wallet, side, price, quote, c);
    if t.trade.Some? then r.(wallet := t.wallet, trades := r.trades + [t.trade.value]) else r
  }

  /** What a bar decides to trade. */
  datatype Order = Order(side: Side, price: real, quote: real)

  /** A bar that trades at most one order and then marks the equity. */
  function Bar(r: Run, order: Option<Order>, close: real, c: Costs): Run
    requires Accepted(c)
  {
    AddPoint(if order.Some? then AddTrade(r, order.value.side, order.value.price, order.value.quote, c) else r, close)
  }

  /** The price a signal is executed at, some bars later. */
  function ExecutionPrice(prices: seq<real>, step: nat, signal: real, latency: int): real
    requires step < |prices|
  {
    if latency <= 0 then signal else prices[if step + latency < |prices| then step + latency else |prices| - 1]
  }

  datatype Market = Market(prices: seq<real>, latency: int, costs: Costs)

  ghost predicate MarketOk(m: Market) {
    |m.prices| >= 2 && Accepted(m.costs) && forall i :: 0 <= i < |m.prices| ==> m.prices[i] > 0.0
  }

  // ---- grid ----

  datatype Grid = Grid(lower: real, upper: real, count: int, quotePerGrid: real)

  function LowestOf(prices: seq<real>): real
    requires prices != []
  {
    if |prices| == 1 then prices[0] else Min(LowestOf(prices[..|prices| - 1]), prices[|prices| - 1])
  }

  function HighestOf(prices: seq<real>): real
    requires prices != []
  {
    if |prices| == 1 then prices[0] else Max(HighestOf(prices[..|prices| - 1]), prices[|prices| - 1])
  }

  function GridCount(g: Grid): nat {
    if g.count > 1 then g.count else 1
  }

  function GridLevel(g: Grid, prices: seq<real>, index: nat): real
    requires prices != []
  {
    var lower := if g.lower != 0.0 then g.lower else LowestOf(prices);
    var highest := if g.upper != 0.0 then g.upper else HighestOf(prices);
    var upper := if highest <= lower then lower * 1.05 else highest;
    lower + Product((upper - lower) / GridCount(g) as real, index as real)
  }

  /** A level is bought when the price falls through it and sold when the price rises through it. */
  function Crossing(last: real, level: real, price: real): Option<Side> {
    if last > level >= price then Some(Buy) else if last < level <= price then Some(Sell) else None
  }

  /** The first `n` levels of the bar's scan. */
  function ScanGrid(r: Run, g: Grid, m: Market, step: nat, n: nat): Run
    requires step < |m.prices| && Accepted(m.costs)
  {
    if n == 0 then r
    else
      var before := ScanGrid(r, g, m, step, n - 1);
      var level := GridLevel(g, m.prices, n - 1);
      var last := if step == 0 then m.prices[0] else m.prices[step - 1];
      var side := Crossing(last, level, m.prices[step]);
      if side.None? then before
      else AddTrade(before, side.value, ExecutionPrice(m.prices, step, level, m.latency), g.quotePerGrid, m.costs)
  }

  function GridRun(w: Wallet, g: Grid, m: Market, n: nat): Run
    requires n <= |m.prices| && m.prices != [] && Accepted(m.costs)
  {
    if n == 0 then Start(w, m.prices)
    else AddPoint(ScanGrid(GridRun(w, g, m, n - 1), g, m, n - 1, GridCount(g) + 1), m.prices[n - 1])
  }

  // ---- what a grid bar means ----

  function LastPrice(prices: seq<real>, step: nat): real
    requires step < |prices|
  {
    if step == 0 then prices[0] else prices[step - 1]
  }

  /** The level lies on the way from one price to another: the far end included, the near one not. */
  predicate OnTheWay(from: real, level: real, to: real) {
    (to <= level && level < from) || (from < level && level <= to)
  }

  /** Trading at each of some grid levels in turn. */
  function TradeLevels(r: Run, g: Grid, m: Market, step: nat, side: Side, tried: seq<nat>): Run
    requires step < |m.prices| && Accepted(m.costs)
  {
    if tried == [] then r
    else
      var k := tried[|tried| - 1];
      AddTrade(TradeLevels(r, g, m, step, side, tried[..|tried| - 1]), side,
               ExecutionPrice(m.prices, step, GridLevel(g, m.prices, k), m.latency), g.quotePerGrid, m.costs)
  }

  /** Each of the first levels that lies on the bar's way is tried once, lower levels first. */
  ghost predicate TriesCrossed(tried: seq<nat>, g: Grid, prices: seq<real>, step: nat, levels: nat)
    requires step < |prices|
  {
    && (forall a, b :: 0 <= a < b < |tried| ==> tried[a] < tried[b])
    && forall k: nat :: k in tried <==> k < levels && OnTheWay(LastPrice(prices, step), GridLevel(g, prices, k), prices[step])
  }

  /** A bar that fell tries to buy, and a bar that rose to sell, at exactly the grid levels on its way. */
  ghost predicate GridBar(before: Run, after: Run, g: Grid, m: Market, step: nat)
    requires step < |m.prices| && Accepted(m.costs)
  {
    exists tried :: GridBarTries(before, after, g, m, step, tried)
  }

  ghost predicate GridBarTries(before: Run, after: Run, g: Grid, m: Market, step: nat, tried: seq<nat>)
    requires step < |m.prices| && Accepted(m.costs)
  {
    && TriesCrossed(tried, g, m.prices, step, GridCount(g) + 1)
    && after == AddPoint(TradeLevels(before, g, m, step, BarSide(m.prices, step), tried), m.prices[step])
  }

  /** A bar that fell buys, any other one sells. */
  function BarSide(prices: seq<real>, step: nat): Side
    requires step < |prices|
  {
    if prices[step] < LastPrice(prices, step) then Buy else Sell
  }

  lemma TryOneMore(tried: seq<nat>, g: Grid, prices: seq<real>, step: nat, n: nat)
    requires step < |prices| && TriesCrossed(tried, g, prices, step, n)
    ensures var crossed := OnTheWay(LastPrice(prices, step), GridLevel(g, prices, n), prices[step]);
            TriesCrossed(if crossed then tried + [n] else tried, g, prices, step, n + 1)
  {
    assert forall a :: 0 <= a < |tried| ==> tried[a] in tried;
  }

  lemma TradeOneMore(r: Run, g: Grid, m: Market, step: nat, side: Side, tried: seq<nat>, k: nat)
    requires step < |m.prices| && Accepted(m.costs)
    ensures TradeLevels(r, g, m, step, side, tried + [k])
         == AddTrade(TradeLevels(r, g, m, step, side, tried), side, ExecutionPrice(m.prices, step, GridLevel(g, m.prices, k), m.latency), g.quotePerGrid, m.costs)
  {
    assert (tried + [k])[..|tried|] == tried;
  }

  lemma ScanOneMore(r: Run, g: Grid, m: Market, step: nat, n: nat, side: Side)
    requires step < |m.prices| && Accepted(m.costs) && side == BarSide(m.prices, step)
    ensures ScanGrid(r, g, m, step, n + 1)
         == if OnTheWay(LastPrice(m.prices, step), GridLevel(g, m.prices, n), m.prices[step])
            then AddTrade(ScanGrid(r, g, m, step, n), side, ExecutionPrice(m.prices, step, GridLevel(g, m.prices, n), m.latency), g.quotePerGrid, m.costs)
            else ScanGrid(r, g, m, step, n)
  {
  }

  lemma ScanNext(r: Run, g: Grid, m: Market, step: nat, n: nat, side: Side, before: seq<nat>) returns (tried: seq<nat>)
    requires step < |m.prices| && Accepted(m.costs) && side == BarSide(m.prices, step)
    requires TriesCrossed(before, g, m.prices, step, n) && ScanGrid(r, g, m, step, n) == TradeLevels(r, g, m, step, side, before)
    ensures TriesCrossed(tried, g, m.prices, step, n + 1) && ScanGrid(r, g, m, step, n + 1) == TradeLevels(r, g, m, step, side, tried)
  {
    TryOneMore(before, g, m.prices, step, n);
    ScanOneMore(r, g, m, step, n, side);
    TradeOneMore(r, g, m, step, side, before, n);
    tried := if OnTheWay(LastPrice(m.prices, step), GridLevel(g, m.prices, n), m.prices[step]) then before + [n] else before;
  }

  lemma {:induction false} ScanTriesCrossed(r: Run, g: Grid, m: Market, step: nat, n: nat, side: Side) returns (tried: seq<nat>)
    requires step < |m.prices| && Accepted(m.costs) && side == BarSide(m.prices, step)
    ensures TriesCrossed(tried, g, m.prices, step, n)
    ensures ScanGrid(r, g, m, step, n) == TradeLevels(r, g, m, step, side, tried)
  {
    if n == 0 {
      tried := [];
    } else {
      tried := ScanTriesCrossed(r, g, m, step, n - 1, side);
      tried := ScanNext(r, g, m, step, n - 1, side, tried);
    }
  }

  lemma GridRunStep(w: Wallet, g: Grid, m: Market, step: nat)
    requires step < |m.prices| && Accepted(m.costs)
    ensures GridBar(GridRun(w, g, m, step), GridRun(w, g, m, step + 1), g, m, step)
  {
    var side := BarSide(m.prices, step);
    var tried := ScanTriesCrossed(GridRun(w, g, m, step), g, m, step, GridCount(g) + 1, side);
    assert GridBarTries(GridRun(w, g, m, step), GridRun(w, g, m, step + 1), g, m, step, tried);
  }

  /** The ledger only grows, and by trades of one side. */
  ghost predicate AddsOnly(before: Run, after: Run, side: Side) {
    before.trades <= after.trades && forall i :: |before.trades| <= i < |after.trades| ==> after.trades[i].side == side
  }

  lemma {:induction false} TradeLevelsAddsOnly(r: Run, g: Grid, m: Market, step: nat, side: Side, tried: seq<nat>)
    requires step < |m.prices| && Accepted(m.costs)
    ensures AddsOnly(r, TradeLevels(r, g, m, step, side, tried), side)
    ensures |TradeLevels(r, g, m, step, side, tried).trades| <= |r.trades| + |tried|
  {
    if tried != [] {
      var k := tried[|tried| - 1];
      var before := TradeLevels(r, g, m, step, side, tried[..|tried| - 1]);
      TradeLevelsAddsOnly(r, g, m, step, side, tried[..|tried| - 1]);
      TradeSettles(before.wallet, side, ExecutionPrice(m.prices, step, GridLevel(g, m.prices, k), m.latency), g.quotePerGrid, m.costs);
    }
  }

  /** So every trade a bar adds is a buy only if the price fell and a sale only if it rose, there is at most
      one for each grid level, and a bar whose price did not move adds none. */
  lemma GridBarFollowsPrice(before: Run, after: Run, g: Grid, m: Market, step: nat)
    requires step < |m.prices| && Accepted(m.costs) && GridBar(before, after, g, m, step)
    ensures AddsOnly(before, after, if m.prices[step] < LastPrice(m.prices, step) then Buy else Sell)
    ensures m.prices[step] == LastPrice(m.prices, step) ==> after.trades == before.trades
    ensures (forall k: nat :: k <= GridCount(g) ==> !OnTheWay(LastPrice(m.prices, step), GridLevel(g, m.prices, k), m.prices[step])) ==>
              after.trades == before.trades
  {
    var side := BarSide(m.prices, step);
    var tried :| GridBarTries(before, after, g, m, step, tried);
    TradeLevelsAddsOnly(before, g, m, step, side, tried);
    if tried != [] {
      assert tried[0] in tried;
    }
  }

  /** Grid levels run evenly from the lower to the upper price. */
  lemma GridLevelsSpanTheGrid(g: Grid, prices: seq<real>, k: nat)
    requires prices != [] && 0.0 < g.lower < g.upper
    ensures GridLevel(g, prices, 0) == g.lower && GridLevel(g, prices, GridCount(g)) == g.upper
    ensures GridLevel(g, prices, k + 1) - GridLevel(g, prices, k) == (g.upper - g.lower) / GridCount(g) as real > 0.0
  {
    var step := (g.upper - g.lower) / GridCount(g) as real;
    DivIsPositive(g.upper - g.lower, GridCount(g) as real);
    DivCancels(g.upper - g.lower, GridCount(g) as real);
    MulAdds(step, k as real, 1.0);
    assert (k + 1) as real == k as real + 1.0;
  }

  /** Every bar of the run, as the bars themselves show it. */
  ghost predicate GridBars(bars: seq<Run>, w: Wallet, g: Grid, m: Market)
    requires m.prices != [] && Accepted(m.costs)
  {
    && 0 < |bars| <= |m.prices| + 1 && bars[0] == Start(w, m.prices)
    && forall n :: 0 <= n < |bars| - 1 ==> GridBar(bars[n], bars[n + 1], g, m, n)
  }

  method RunGrid(w: Wallet, g: Grid, m: Market) returns (r: Run, ghost bars: seq<Run>)
    requires MarketOk(m)
    ensures r == GridRun(w, g, m, |m.prices|)
    ensures GridBars(bars, w, g, m) && |bars| == |m.prices| + 1 && r == bars[|m.prices|]
  {
    r := Start(w, m.prices);
    bars := [r];
    var last := m.prices[0];
    for step := 0 to |m.prices|
      invariant r == GridRun(w, g, m, step)
      invariant GridBars(bars, w, g, m) && |bars| == step + 1 && r == bars[step]
      invariant last == if step == 0 then m.prices[0] else m.prices[step - 1]
    {
      var price := m.prices[step];
      ghost var before := r;
      for k := 0 to GridCount(g) + 1
        invariant r == ScanGrid(before, g, m, step, k)
      {
        var level := GridLevel(g, m.prices, k);
        var side := Crossing(last, level, price);
        if side.Some? {
          r := AddTrade(r, side.value, ExecutionPrice(m.prices, step, level, m.latency), g.quotePerGrid, m.costs);
        }
      }
      r := AddPoint(r, price);
      GridRunStep(w, g, m, step);
      bars := bars + [r];
      last := price;
    }
  }

  // ---- DCA ----

  datatype Dca = Dca(side: Side, quotePerOrder: real, multiplier: real, maxOrders: int, trigger: real, intervalSeconds: real)

  datatype DcaRun = DcaRun(run: Run, orders: nat, nextDue: Option<real>)

  function Power(x: real, n: nat): real {
    if n == 0 then 1.0 else Product(Power(x, n - 1), x)
  }

  function MaxOrders(d: Dca): nat {
    if d.maxOrders > 1 then d.maxOrders else 1
  }

  predicate Triggered(d: Dca, price: real) {
    d.trigger <= 0.0 || (d.side == Buy && price <= d.trigger) || (d.side == Sell && price >= d.trigger)
  }

  function DcaOrder(s: DcaRun, d: Dca, m: Market, times: Option<seq<real>>, step: nat): Option<Order>
    requires step < |m.prices| && (times.Some? ==> |times.value| == |m.prices|)
  {
    var due := times.None? || s.nextDue.None? || times.value[step] >= s.nextDue.value;
    if Triggered(d, m.prices[step]) && due && s.orders < MaxOrders(d)
    then Some(Order(d.side, ExecutionPrice(m.prices, step, m.prices[step], m.latency), Product(d.quotePerOrder, Power(d.multiplier, s.orders))))
    else None
  }

  /** Only a trade that happened counts as an order and starts a new interval. */
  function DcaBar(s: DcaRun, d: Dca, m: Market, times: Option<seq<real>>, step: nat): DcaRun
    requires step < |m.prices| && Accepted(m.costs) && (times.Some? ==> |times.value| == |m.prices|)
  {
    var next := Bar(s.run, DcaOrder(s, d, m, times, step), m.prices[step], m.costs);
    if |next.trades| == |s.run.trades| then DcaRun(next, s.orders, s.nextDue)
    else DcaRun(next, s.orders + 1, if times.Some? then Some(times.value[step] + Max(1.0, d.intervalSeconds) * 1000.0) else s.nextDue)
  }

  function DcaRunTo(w: Wallet, d: Dca, m: Market, times: Option<seq<real>>, n: nat): DcaRun
    requires n <= |m.prices| && m.prices != [] && Accepted(m.costs) && (times.Some? ==> |times.value| == |m.prices|)
  {
    if n == 0 then DcaRun(Start(w, m.prices), 0, None) else DcaBar(DcaRunTo(w, d, m, times, n - 1), d, m, times, n - 1)
  }

  method RunDca(w: Wallet, d: Dca, m: Market, times: Option<seq<real>>) returns (r: Run)
    requires MarketOk(m) && (times.Some? ==> |times.value| == |m.prices|)
    ensures r == DcaRunTo(w, d, m, times, |m.prices|).run
  {
    r := Start(w, m.prices);
    var orders, nextDue := 0, None;
    for step := 0 to |m.prices|
      invariant DcaRun(r, orders, nextDue) == DcaRunTo(w, d, m, times, step)
    {
      var price := m.prices[step];
      var due := times.None? || nextDue.None? || times.value[step] >= nextDue.value;
      if Triggered(d, price) && due && orders < MaxOrders(d) {
        var before := |r.trades|;
        r := AddTrade(r, d.side, ExecutionPrice(m.prices, step, price, m.latency), Product(d.quotePerOrder, Power(d.multiplier, orders)), m.costs);
        if |r.trades| > before {
          orders := orders + 1;
          if times.Some? {
            nextDue := Some(times.value[step] + Max(1.0, d.intervalSeconds) * 1000.0);
          }
        }
      }
      r := AddPoint(r, price);
    }
  }

  // ---- execution algorithm slices ----

  datatype Slices = Slices(side: Side, count: int, totalQuote: real, totalBase: real)

  function SliceCount(s: Slices): nat {
    if s.count > 1 then s.count else 1
  }

  function Target(s: Slices, initialCash: real, prices: seq<real>): real
    requires prices != []
  {
    var asked := if s.totalQuote != 0.0 then s.totalQuote else Product(s.totalBase, prices[0]);
    if asked <= 0.0 then initialCash else asked
  }

  function Traded(trades: seq<Trade>): real {
    if trades == [] then 0.0 else Traded(trades[..|trades| - 1]) + trades[|trades| - 1].notional
  }

  function SliceQuote(r: Run, s: Slices, target: real): real {
    Min(Max(0.0, target - Traded(r.trades)), target / SliceCount(s) as real)
  }

  function SliceOrder(r: Run, s: Slices, target: real, m: Market, step: nat): Option<Order>
    requires step < |m.prices|
  {
    var interval := if |m.prices| / SliceCount(s) > 1 then |m.prices| / SliceCount(s) else 1;
    if step % interval == 0 && |r.trades| < SliceCount(s)
    then Some(Order(s.side, ExecutionPrice(m.prices, step, m.prices[step], m.latency), SliceQuote(r, s, target)))
    else None
  }

  function SliceRun(w: Wallet, s: Slices, m: Market, n: nat): Run
    requires n <= |m.prices| && m.prices != [] && Accepted(m.costs)
  {
    if n == 0 then Start(w, m.prices)
    else
      var r := SliceRun(w, s, m, n - 1);
      Bar(r, SliceOrder(r, s, Target(s, w.cash, m.prices), m, n - 1), m.prices[n - 1], m.costs)
  }

  method RunSlices(w: Wallet, s: Slices, m: Market) returns (r: Run)
    requires MarketOk(m)
    ensures r == SliceRun(w, s, m, |m.prices|)
  {
    r := Start(w, m.prices);
    var target := Target(s, w.cash, m.prices);
    var interval := if |m.prices| / SliceCount(s) > 1 then |m.prices| / SliceCount(s) else 1;
    for step := 0 to |m.prices|
      invariant r == SliceRun(w, s, m, step)
    {
      if step % interval == 0 && |r.trades| < SliceCount(s) {
        var remaining := Max(0.0, target - Traded(r.trades));
        var quote := Min(remaining, target / SliceCount(s) as real);
        r := AddTrade(r, s.side, ExecutionPrice(m.prices, step, m.prices[step], m.latency), quote, m.costs);
      }
      r := AddPoint(r, m.prices[step]);
    }
  }

  // ---- what every run keeps ----

  function SettleAll(w: Wallet, trades: seq<Trade>, c: Costs): Wallet {
    if trades == [] then w else Settle(SettleAll(w, trades[..|trades| - 1], c), trades[|trades| - 1], c)
  }

  /** The highest equity of the start and the points so far. */
  function PeakOf(initial: real, points: seq<Point>): real {
    if points == [] then initial else Max(PeakOf(initial, points[..|points| - 1]), points[|points| - 1].equity)
  }

  /** Equity points carry solvent wallets and the drawdown from the highest equity so far. */
  ghost predicate PointOk(initial: real, points: seq<Point>, i: nat)
    requires i < |points|
  {
    Solvent(points[i].wallet) && points[i].equity >= 0.0 && points[i].drawdown == DrawdownFrom(PeakOf(initial, points[..i + 1]), points[i].equity)
  }

  ghost predicate PointsOk(initial: real, points: seq<Point>) {
    forall i :: 0 <= i < |points| ==> PointOk(initial, points, i)
  }

  /** Solvent, equal to the settled ledger, and with an honest equity curve. */
  ghost predicate Sound(w: Wallet, initial: real, r: Run, c: Costs) {
    && Solvent(r.wallet) && r.wallet == SettleAll(w, r.trades, c)
    && r.peak == PeakOf(initial, r.points) && PointsOk(initial, r.points)
  }

  lemma AddTradeKeepsSound(w: Wallet, initial: real, r: Run, c: Costs, side: Side, price: real, quote: real)
    requires Sound(w, initial, r, c) && Accepted(c) && CostsWithinProceeds(c)
    ensures Sound(w, initial, AddTrade(r, side, price, quote, c), c)
  {
    TradeIsSolvent(r.wallet, side, price, quote, c);
    TradeSettles(r.wallet, side, price, quote, c);
    var t := ExecuteTrade(r.wallet, side, price, quote, c);
    if t.trade.Some? {
      assert (r.trades + [t.trade.value])[..|r.trades|] == r.trades;
    }
  }

  lemma AddPointKeepsSound(w: Wallet, initial: real, r: Run, c: Costs, price: real)
    requires Sound(w, initial, r, c) && price > 0.0
    ensures Sound(w, initial, AddPoint(r, price), c)
  {
    var next := AddPoint(r, price);
    MulIsNonnegative(r.wallet.base, price);
    assert next.points[..|r.points|] == r.points && next.points[..|r.points| + 1] == next.points;
    forall i | 0 <= i < |next.points|
      ensures PointOk(initial, next.points, i)
    {
      if i < |r.points| {
        assert PointOk(initial, r.points, i);
        assert next.points[..i + 1] == r.points[..i + 1];
      }
    }
  }

  lemma BarKeepsSound(w: Wallet, initial: real, r: Run, order: Option<Order>, close: real, c: Costs)
    requires Sound(w, initial, r, c) && Accepted(c) && CostsWithinProceeds(c) && close > 0.0
    ensures Sound(w, initial, Bar(r, order, close, c), c)
  {
    if order.Some? {
      AddTradeKeepsSound(w, initial, r, c, order.value.side, order.value.price, order.value.quote);
      AddPointKeepsSound(w, initial, AddTrade(r, order.value.side, order.value.price, order.value.quote, c), c, close);
    } else {
      AddPointKeepsSound(w, initial, r, c, close);
    }
  }

  lemma BarTradesAtMostOnce(r: Run, order: Option<Order>, close: real, c: Costs)
    requires Accepted(c)
    ensures var n := |Bar(r, order, close, c).trades|;
            n == |r.trades| || (order.Some? && n == |r.trades| + 1)
  {
  }

  lemma {:induction false} ScanKeepsSound(w: Wallet, initial: real, r: Run, g: Grid, m: Market, step: nat, n: nat)
    requires step < |m.prices| && Sound(w, initial, r, m.costs) && MarketOk(m) && CostsWithinProceeds(m.costs)
    ensures Sound(w, initial, ScanGrid(r, g, m, step, n), m.costs)
  {
    if n > 0 {
      ScanKeepsSound(w, initial, r, g, m, step, n - 1);
      var level := GridLevel(g, m.prices, n - 1);
      var side := Crossing(if step == 0 then m.prices[0] else m.prices[step - 1], level, m.prices[step]);
      if side.Some? {
        AddTradeKeepsSound(w, initial, ScanGrid(r, g, m, step, n - 1), m.costs, side.value, ExecutionPrice(m.prices, step, level, m.latency), g.quotePerGrid);
      }
    }
  }

  /** Every bar of every grid run is solvent, and cash and base are the initial ones plus the signed ledger. */
  lemma {:induction false} GridRunIsSound(w: Wallet, g: Grid, m: Market, n: nat)
    requires n <= |m.prices| && MarketOk(m) && Solvent(w) && CostsWithinProceeds(m.costs)
    ensures Sound(w, Equity(w, m.prices[0]), GridRun(w, g, m, n), m.costs)
  {
    if n > 0 {
      GridRunIsSound(w, g, m, n - 1);
      ScanKeepsSound(w, Equity(w, m.prices[0]), GridRun(w, g, m, n - 1), g, m, n - 1, GridCount(g) + 1);
      AddPointKeepsSound(w, Equity(w, m.prices[0]), ScanGrid(GridRun(w, g, m, n - 1), g, m, n - 1, GridCount(g) + 1), m.costs, m.prices[n - 1]);
    }
  }

  lemma DcaBarKeepsSound(w: Wallet, initial: real, s: DcaRun, d: Dca, m: Market, times: Option<seq<real>>, step: nat)
    requires step < |m.prices| && MarketOk(m) && CostsWithinProceeds(m.costs) && (times.Some? ==> |times.value| == |m.prices|)
    requires Sound(w, initial, s.run, m.costs) && s.orders == |s.run.trades| <= MaxOrders(d)
    ensures var next := DcaBar(s, d, m, times, step);
            Sound(w, initial, next.run, m.costs) && next.orders == |next.run.trades| <= MaxOrders(d)
  {
    var order := DcaOrder(s, d, m, times, step);
    BarKeepsSound(w, initial, s.run, order, m.prices[step], m.costs);
    BarTradesAtMostOnce(s.run, order, m.prices[step], m.costs);
  }

  /** Every DCA run is solvent and conserved, and places at most the maximum number of orders. */
  lemma {:induction false} DcaRunIsSound(w: Wallet, d: Dca, m: Market, times: Option<seq<real>>, n: nat)
    requires n <= |m.prices| && MarketOk(m) && Solvent(w) && CostsWithinProceeds(m.costs) && (times.Some? ==> |times.value| == |m.prices|)
    ensures var s := DcaRunTo(w, d, m, times, n);
            Sound(w, Equity(w, m.prices[0]), s.run, m.costs) && s.orders == |s.run.trades| <= MaxOrders(d)
  {
    if n > 0 {
      DcaRunIsSound(w, d, m, times, n - 1);
      DcaBarKeepsSound(w, Equity(w, m.prices[0]), DcaRunTo(w, d, m, times, n - 1), d, m, times, n - 1);
    }
  }

  /** No slice run trades more than the target or more slices than asked for. */
  ghost predicate WithinTarget(r: Run, s: Slices, target: real) {
    Traded(r.trades) <= Max(0.0, target) && |r.trades| <= SliceCount(s)
  }

  lemma SliceStaysWithinTarget(r: Run, s: Slices, target: real, c: Costs, price: real, close: real)
    requires Accepted(c) && CostsWithinProceeds(c) && Solvent(r.wallet) && WithinTarget(r, s, target) && |r.trades| < SliceCount(s)
    ensures WithinTarget(Bar(r, Some(Order(s.side, price, SliceQuote(r, s, target))), close, c), s, target)
  {
    var quote := SliceQuote(r, s, target);
    TradeIsSolvent(r.wallet, s.side, price, quote, c);
    var t := ExecuteTrade(r.wallet, s.side, price, quote, c);
    if t.trade.Some? {
      assert (r.trades + [t.trade.value])[..|r.trades|] == r.trades;
    }
  }

  lemma SliceBarStaysWithinTarget(r: Run, s: Slices, target: real, m: Market, step: nat)
    requires step < |m.prices| && Accepted(m.costs) && CostsWithinProceeds(m.costs) && Solvent(r.wallet) && WithinTarget(r, s, target)
    ensures WithinTarget(Bar(r, SliceOrder(r, s, target, m, step), m.prices[step], m.costs), s, target)
  {
    if |r.trades| < SliceCount(s) {
      SliceStaysWithinTarget(r, s, target, m.costs, ExecutionPrice(m.prices, step, m.prices[step], m.latency), m.prices[step]);
    }
  }

  /** Every slice run is solvent and conserved, and trades at most its target in at most its slices. */
  lemma {:induction false} SliceRunIsSound(w: Wallet, s: Slices, m: Market, n: nat)
    requires n <= |m.prices| && MarketOk(m) && Solvent(w) && CostsWithinProceeds(m.costs)
    ensures Sound(w, Equity(w, m.prices[0]), SliceRun(w, s, m, n), m.costs)
    ensures WithinTarget(SliceRun(w, s, m, n), s, Target(s, w.cash, m.prices))
  {
    if n > 0 {
      SliceRunIsSound(w, s, m, n - 1);
      var r, target := SliceRun(w, s, m, n - 1), Target(s, w.cash, m.prices);
      BarKeepsSound(w, Equity(w, m.prices[0]), r, SliceOrder(r, s, target, m, n - 1), m.prices[n - 1], m.costs);
      SliceBarStaysWithinTarget(r, s, target, m, n - 1);
    }
  }

  // ---- drawdown ----

  /** The equities a drawdown may be measured from: the start and every point up to one. */
  function EquityBefore(initial: real, points: seq<Point>, j: nat): real
    requires j <= |points|
  {
    if j == 0 then initial else points[j - 1].equity
  }

  function Drop(from: real, to: real): real
    requires from > 0.0
  {
    (from - to) / from * 100.0
  }

  lemma DropGrows(low: real, high: real, to: real)
    requires 0.0 < low <= high && to >= 0.0
    ensures Drop(low, to) <= Drop(high, to)
  {
    FractionShrinks(to, low, high);
    DropIsOneMinus(low, to);
    DropIsOneMinus(high, to);
  }

  lemma DropIsOneMinus(from: real, to: real)
    requires from > 0.0
    ensures Drop(from, to) == (1.0 - to / from) * 100.0
  {
    DivAdds(from, -to, from);
    MulDivCancels(1.0, from);
    DivAdds(to, -to, from);
  }

  lemma FractionShrinks(to: real, low: real, high: real)
    requires 0.0 < low <= high && to >= 0.0
    ensures to / high <= to / low
  {
    DivCancels(to, high);
    DivCancels(to, low);
    DivIsPositive(to, high);
    if to / high > to / low {
      MulOrdersStrictly(to / low, to / high, low);
      MulOrders(low, high, to / high);
    }
  }

  lemma {:induction false} PeakIsHighest(initial: real, points: seq<Point>) returns (at: nat)
    ensures at <= |points| && EquityBefore(initial, points, at) == PeakOf(initial, points)
    ensures forall j :: 0 <= j <= |points| ==> EquityBefore(initial, points, j) <= PeakOf(initial, points)
  {
    at := 0;
    if points != [] {
      var n := |points| - 1;
      at := PeakIsHighest(initial, points[..n]);
      assert forall j :: 0 <= j <= n ==> EquityBefore(initial, points, j) == EquityBefore(initial, points[..n], j);
      if points[n].equity > PeakOf(initial, points[..n]) {
        at := n + 1;
      }
    }
  }

  /** A value is the best drop to a point: it is zero or attained from an earlier equity, and no earlier
      equity gives a larger one. */
  ghost predicate BestDrop(d: real, initial: real, points: seq<Point>, i: nat)
    requires i < |points|
  {
    && d >= 0.0
    && (forall j :: 0 <= j <= i + 1 && EquityBefore(initial, points, j) > 0.0 ==> Drop(EquityBefore(initial, points, j), points[i].equity) <= d)
    && (d == 0.0 || exists j :: 0 <= j <= i + 1 && EquityBefore(initial, points, j) > 0.0 && Drop(EquityBefore(initial, points, j), points[i].equity) == d)
  }

  /** The single pass with a running peak computes the quadratic definition at every point: the best
      drop over all earlier equities, the starting one included. */
  lemma DrawdownIsBestDrop(w: Wallet, initial: real, r: Run, c: Costs, i: nat)
    requires Sound(w, initial, r, c) && i < |r.points|
    ensures BestDrop(r.points[i].drawdown, initial, r.points, i)
  {
    assert PointOk(initial, r.points, i);
    var prefix, e := r.points[..i + 1], r.points[i].equity;
    var peak := PeakOf(initial, prefix);
    var at := PeakIsHighest(initial, prefix);
    assert forall j :: 0 <= j <= i + 1 ==> EquityBefore(initial, r.points, j) == EquityBefore(initial, prefix, j);
    forall j | 0 <= j <= i + 1 && EquityBefore(initial, r.points, j) > 0.0
      ensures Drop(EquityBefore(initial, r.points, j), e) <= r.points[i].drawdown
    {
      DropGrows(EquityBefore(initial, r.points, j), peak, e);
    }
    if r.points[i].drawdown != 0.0 {
      assert EquityBefore(initial, r.points, at) == peak && Drop(peak, e) == r.points[i].drawdown;
    }
  }

  /** The reported maximum drawdown. */
  method MaxDrawdown(points: seq<Point>) returns (d: real)
    ensures forall i :: 0 <= i < |points| ==> points[i].drawdown <= d
    ensures if points == [] then d == 0.0 else exists i :: 0 <= i < |points| && points[i].drawdown == d
  {
    if points == [] {
      return 0.0;
    }
    d := points[0].drawdown;
    for i := 1 to |points|
      invariant forall k :: 0 <= k < i ==> points[k].drawdown <= d
      invariant exists k :: 0 <= k < i && points[k].drawdown == d
    {
      if points[i].drawdown > d {
        d := points[i].drawdown;
      }
    }
  }
}
