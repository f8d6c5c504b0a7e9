/** When the DCA and slice backtests trade: the side of the trigger, the interval and the schedule. */
module BacktestOrders {
  import opened Numbers
  import opened PaperTrading
  import opened PaperBacktest

  // ---- DCA ----

  /** The price is at or below the trigger for a buy and at or above it for a sale; no trigger always holds. */
  predicate PriceAllows(d: Dca, price: real) {
    d.trigger <= 0.0 || (if d.side == Buy then price <= d.trigger else price >= d.trigger)
  }

  /** A bar places an order: the price allows it, an order is left, and the interval has passed. */
  predicate Orders(s: DcaRun, d: Dca, m: Market, times: Option<seq<real>>, step: nat)
    requires step < |m.prices| && (times.Some? ==> |times.value| == |m.prices|)
  {
    PriceAllows(d, m.prices[step]) && (s.orders < 1 || s.orders < d.maxOrders)
    && (times.Some? && s.nextDue.Some? ==> s.nextDue.value <= times.value[step])
  }

  /** Exactly then it asks for one trade of the configured side, larger by the multiplier for every order
      already placed; a bar that does not order trades nothing. */
  lemma DcaBarOrdersExactlyWhen(s: DcaRun, d: Dca, m: Market, times: Option<seq<real>>, step: nat)
    requires step < |m.prices| && Accepted(m.costs) && (times.Some? ==> |times.value| == |m.prices|)
    ensures var price := m.prices[step];
            var at := if m.latency <= 0 then price else m.prices[if step + m.latency < |m.prices| then step + m.latency else |m.prices| - 1];
            DcaBar(s, d, m, times, step).run
            == AddPoint(if Orders(s, d, m, times, step) then AddTrade(s.run, d.side, at, Product(d.quotePerOrder, Power(d.multiplier, s.orders)), m.costs)
                        else s.run, price)
  {
  }

  ghost predicate Ordered(w: Wallet, d: Dca, m: Market, times: Option<seq<real>>, n: nat)
    requires n < |m.prices| && Accepted(m.costs) && (times.Some? ==> |times.value| == |m.prices|)
  {
    |DcaRunTo(w, d, m, times, n + 1).run.trades| > |DcaRunTo(w, d, m, times, n).run.trades|
  }

  lemma OrderedBar(w: Wallet, d: Dca, m: Market, times: Option<seq<real>>, n: nat)
    requires n < |m.prices| && Accepted(m.costs) && (times.Some? ==> |times.value| == |m.prices|) && Ordered(w, d, m, times, n)
    ensures var before, after := DcaRunTo(w, d, m, times, n), DcaRunTo(w, d, m, times, n + 1);
            && Orders(before, d, m, times, n)
            && (times.Some? ==> after.nextDue == Some(times.value[n] + Max(1.0, d.intervalSeconds) * 1000.0))
  {
    DcaBarOrdersExactlyWhen(DcaRunTo(w, d, m, times, n), d, m, times, n);
  }

  lemma {:induction false} NotDueBefore(w: Wallet, d: Dca, m: Market, times: Option<seq<real>>, i: nat, n: nat)
    requires i < n <= |m.prices| && Accepted(m.costs) && times.Some? && |times.value| == |m.prices| && Ordered(w, d, m, times, i)
    ensures var s := DcaRunTo(w, d, m, times, n);
            s.nextDue.Some? && s.nextDue.value >= times.value[i] + Max(1.0, d.intervalSeconds) * 1000.0
  {
    if n == i + 1 {
      OrderedBar(w, d, m, times, i);
    } else {
      NotDueBefore(w, d, m, times, i, n - 1);
      if Ordered(w, d, m, times, n - 1) {
        OrderedBar(w, d, m, times, n - 1);
      } else {
        DcaBarOrdersExactlyWhen(DcaRunTo(w, d, m, times, n - 1), d, m, times, n - 1);
      }
    }
  }

  /** In any run, every order is placed on the allowed side of the trigger, and two orders are at least the
      interval apart. */
  lemma DcaOrdersAreSpaced(w: Wallet, d: Dca, m: Market, times: Option<seq<real>>, i: nat, j: nat)
    requires i < j < |m.prices| && Accepted(m.costs) && (times.Some? ==> |times.value| == |m.prices|)
    requires Ordered(w, d, m, times, i) && Ordered(w, d, m, times, j)
    ensures PriceAllows(d, m.prices[i]) && PriceAllows(d, m.prices[j])
    ensures times.Some? ==> times.value[j] - times.value[i] >= Max(1.0, d.intervalSeconds) * 1000.0
  {
    OrderedBar(w, d, m, times, i);
    OrderedBar(w, d, m, times, j);
    if times.Some? {
      NotDueBefore(w, d, m, times, i, j);
    }
  }

  // ---- slices ----

  /** A slice run trades only at every so many bars, at most one slice's share of the target, on its side. */
  lemma SlicesFollowSchedule(w: Wallet, s: Slices, m: Market, n: nat)
    requires n < |m.prices| && MarketOk(m) && Solvent(w) && CostsWithinProceeds(m.costs)
    requires |SliceRun(w, s, m, n + 1).trades| > |SliceRun(w, s, m, n).trades|
    ensures var count := if s.count > 1 then s.count else 1;
            var interval := if |m.prices| / count > 1 then |m.prices| / count else 1;
            var before, after := SliceRun(w, s, m, n).trades, SliceRun(w, s, m, n + 1).trades;
            && n % interval == 0 && |before| < count && after[..|before|] == before && |after| == |before| + 1
            && after[|before|].side == s.side && after[|before|].notional <= Target(s, w.cash, m.prices) / count as real
  {
    var r, target := SliceRun(w, s, m, n), Target(s, w.cash, m.prices);
    var quote, at := SliceQuote(r, s, target), ExecutionPrice(m.prices, n, m.prices[n], m.latency);
    SliceRunIsSound(w, s, m, n);
    TradeIsSolvent(r.wallet, s.side, at, quote, m.costs);
    TradeSettles(r.wallet, s.side, at, quote, m.costs);
  }
  lemma {:induction false} PowersMultiply(x: real, a: nat, b: nat)
    ensures Power(x, 1) == x && Power(x, a + b) == Product(Power(x, a), Power(x, b))
  {
    if b > 0 {
      PowersMultiply(x, a, b - 1);
      MulReorders(Power(x, a), Power(x, b - 1), x);
    }
  }

  /** A slice run aims at the configured quote, else at the configured base at the first price, and without
      either at the whole initial cash. */
  lemma TargetPrefersQuote(s: Slices, cash: real, prices: seq<real>)
    requires prices != [] && prices[0] > 0.0
    ensures s.totalQuote > 0.0 ==> Target(s, cash, prices) == s.totalQuote
    ensures s.totalQuote == 0.0 && s.totalBase > 0.0 ==> Target(s, cash, prices) == Product(s.totalBase, prices[0])
    ensures s.totalQuote < 0.0 || (s.totalQuote == 0.0 && s.totalBase <= 0.0) ==> Target(s, cash, prices) == cash
  {
    if s.totalBase > 0.0 {
      MulIsPositive(s.totalBase, prices[0]);
    } else {
      MulIsNonnegative(-s.totalBase, prices[0]);
      assert Product(s.totalBase, prices[0]) <= 0.0;
    }
  }

  // ---- the grid's default bounds ----

  lemma {:induction false} LowestAndHighestBound(prices: seq<real>)
    requires prices != []
    ensures forall p :: p in prices ==> LowestOf(prices) <= p <= HighestOf(prices)
    ensures LowestOf(prices) in prices && HighestOf(prices) in prices
  {
    var n := |prices| - 1;
    if n > 0 {
      LowestAndHighestBound(prices[..n]);
      assert prices == prices[..n] + [prices[n]];
    }
  }

  lemma WholeSteps(low: real, high: real, count: real)
    requires count > 0.0
    ensures low + Product((high - low) / count, 0.0) == low && low + Product((high - low) / count, count) == high
  {
    DivCancels(high - low, count);
  }

  lemma DefaultGridEnds(g: Grid, prices: seq<real>)
    requires prices != [] && g.lower == 0.0 && g.upper == 0.0 && LowestOf(prices) < HighestOf(prices)
    ensures GridLevel(g, prices, 0) == LowestOf(prices) && GridLevel(g, prices, GridCount(g)) == HighestOf(prices)
  {
    WholeSteps(LowestOf(prices), HighestOf(prices), GridCount(g) as real);
  }

  /** A grid without bounds runs from the lowest to the highest price of the series. */
  lemma DefaultGridSpansPrices(g: Grid, prices: seq<real>)
    requires prices != [] && g.lower == 0.0 && g.upper == 0.0 && LowestOf(prices) < HighestOf(prices)
    ensures forall p :: p in prices ==> GridLevel(g, prices, 0) <= p <= GridLevel(g, prices, GridCount(g))
    ensures GridLevel(g, prices, 0) in prices && GridLevel(g, prices, GridCount(g)) in prices
  {
    LowestAndHighestBound(prices);
    DefaultGridEnds(g, prices);
  }
  // ---- the equity curve ----

  /** Every point marks the wallet at its bar's closing price. */
  ghost predicate Marked(r: Run, prices: seq<real>) {
    |r.points| <= |prices| && forall i :: 0 <= i < |r.points| ==> MarkedPoint(r.points[i], prices[i])
  }

  ghost predicate MarkedPoint(p: Point, price: real) {
    p.equity == p.wallet.cash + Product(p.wallet.base, price)
  }

  ghost predicate MarkedUpTo(r: Run, prices: seq<real>, n: nat) {
    Marked(r, prices) && |r.points| == n
  }

  lemma AddTradeKeepsPoints(r: Run, side: Side, price: real, quote: real, c: Costs)
    requires Accepted(c)
    ensures AddTrade(r, side, price, quote, c).points == r.points
  {
  }

  lemma {:induction false} ScanKeepsPoints(r: Run, g: Grid, m: Market, step: nat, n: nat)
    requires step < |m.prices| && Accepted(m.costs)
    ensures ScanGrid(r, g, m, step, n).points == r.points
  {
    if n > 0 {
      ScanKeepsPoints(r, g, m, step, n - 1);
    }
  }

  lemma PointIsMarked(r: Run, prices: seq<real>)
    requires Marked(r, prices) && |r.points| < |prices|
    ensures Marked(AddPoint(r, prices[|r.points|]), prices) && |AddPoint(r, prices[|r.points|]).points| == |r.points| + 1
  {
  }

  lemma GridIsMarkedNext(w: Wallet, g: Grid, m: Market, n: nat)
    requires n < |m.prices| && Accepted(m.costs)
    requires MarkedUpTo(GridRun(w, g, m, n), m.prices, n)
    ensures MarkedUpTo(GridRun(w, g, m, n + 1), m.prices, n + 1)
  {
    ScanKeepsPoints(GridRun(w, g, m, n), g, m, n, GridCount(g) + 1);
    PointIsMarked(ScanGrid(GridRun(w, g, m, n), g, m, n, GridCount(g) + 1), m.prices);
  }

  lemma BarIsMarked(r: Run, order: Option<Order>, prices: seq<real>, c: Costs)
    requires Accepted(c) && Marked(r, prices) && |r.points| < |prices|
    ensures Marked(Bar(r, order, prices[|r.points|], c), prices) && |Bar(r, order, prices[|r.points|], c).points| == |r.points| + 1
  {
    if order.Some? {
      AddTradeKeepsPoints(r, order.value.side, order.value.price, order.value.quote, c);
      PointIsMarked(AddTrade(r, order.value.side, order.value.price, order.value.quote, c), prices);
    } else {
      PointIsMarked(r, prices);
    }
  }

  lemma DcaIsMarkedNext(w: Wallet, d: Dca, m: Market, times: Option<seq<real>>, n: nat)
    requires n < |m.prices| && Accepted(m.costs) && (times.Some? ==> |times.value| == |m.prices|)
    requires MarkedUpTo(DcaRunTo(w, d, m, times, n).run, m.prices, n)
    ensures MarkedUpTo(DcaRunTo(w, d, m, times, n + 1).run, m.prices, n + 1)
  {
    var s := DcaRunTo(w, d, m, times, n);
    BarIsMarked(s.run, DcaOrder(s, d, m, times, n), m.prices, m.costs);
  }

  lemma SliceIsMarkedNext(w: Wallet, s: Slices, m: Market, n: nat)
    requires n < |m.prices| && Accepted(m.costs) && MarkedUpTo(SliceRun(w, s, m, n), m.prices, n)
    ensures MarkedUpTo(SliceRun(w, s, m, n + 1), m.prices, n + 1)
  {
    var r := SliceRun(w, s, m, n);
    BarIsMarked(r, SliceOrder(r, s, Target(s, w.cash, m.prices), m, n), m.prices, m.costs);
  }

  lemma {:induction false} GridCurveIsMarked(w: Wallet, g: Grid, m: Market, n: nat)
    requires n <= |m.prices| && m.prices != [] && Accepted(m.costs)
    ensures MarkedUpTo(GridRun(w, g, m, n), m.prices, n)
  {
    if n > 0 {
      var k: nat := n - 1;
      GridCurveIsMarked(w, g, m, k);
      GridIsMarkedNext(w, g, m, k);
    }
  }

  lemma {:induction false} DcaCurveIsMarked(w: Wallet, d: Dca, m: Market, times: Option<seq<real>>, n: nat)
    requires n <= |m.prices| && m.prices != [] && Accepted(m.costs) && (times.Some? ==> |times.value| == |m.prices|)
    ensures MarkedUpTo(DcaRunTo(w, d, m, times, n).run, m.prices, n)
  {
    if n > 0 {
      DcaCurveIsMarked(w, d, m, times, n - 1);
      DcaIsMarkedNext(w, d, m, times, n - 1);
    }
  }

  lemma {:induction false} SliceCurveIsMarked(w: Wallet, s: Slices, m: Market, n: nat)
    requires n <= |m.prices| && m.prices != [] && Accepted(m.costs)
    ensures MarkedUpTo(SliceRun(w, s, m, n), m.prices, n)
  {
    if n > 0 {
      SliceCurveIsMarked(w, s, m, n - 1);
      SliceIsMarkedNext(w, s, m, n - 1);
    }
  }

  /** The equity curves of all three backtests are marked at the closing prices, one point for each bar. */
  lemma CurvesAreMarked(w: Wallet, g: Grid, d: Dca, s: Slices, m: Market, times: Option<seq<real>>)
    requires m.prices != [] && Accepted(m.costs) && (times.Some? ==> |times.value| == |m.prices|)
    ensures MarkedUpTo(GridRun(w, g, m, |m.prices|), m.prices, |m.prices|)
    ensures MarkedUpTo(DcaRunTo(w, d, m, times, |m.prices|).run, m.prices, |m.prices|)
    ensures MarkedUpTo(SliceRun(w, s, m, |m.prices|), m.prices, |m.prices|)
  {
    GridCurveIsMarked(w, g, m, |m.prices|);
    DcaCurveIsMarked(w, d, m, times, |m.prices|);
    SliceCurveIsMarked(w, s, m, |m.prices|);
  }
}
