/** The Auto Buy/Sell task as the service updates it: fields changed in place, and the accumulating
    loops of the activity refresh. Every method is tied to the step function of `TaskMachine`. */
module AutoBuySellTask {
  import opened Numbers
  import opened FillAccounting
  import opened TaskMachine

  /** Amount and cost accumulated for one order. */
  datatype Fill = Fill(amount: real, cost: real)

  const NO_FILL := Fill(0.0, 0.0)

  function Lookup(fills: map<string, Fill>, id: string): Fill {
    if id in fills then fills[id] else NO_FILL
  }

  ghost predicate HoldsTradeFills(fills: map<string, Fill>, trades: seq<Trade>, tracked: set<string>) {
    forall id :: id in tracked ==> Lookup(fills, id) == Fill(TradeFill(trades, id, Base), TradeFill(trades, id, Quote))
  }

  ghost predicate HoldsOrderFills(fills: map<string, Fill>, rows: seq<OrderRow>, tracked: set<string>) {
    forall id :: id in tracked ==> Lookup(fills, id) == Fill(OrderFill(rows, id, Base), OrderFill(rows, id, Quote))
  }

  lemma TradeStep(fills: map<string, Fill>, trades: seq<Trade>, i: nat, tracked: set<string>)
    requires i < |trades| && HoldsTradeFills(fills, trades[..i], tracked)
    ensures var t := trades[i];
            var row := Lookup(fills, t.order);
            HoldsTradeFills(if t.order in tracked then fills[t.order := Fill(row.amount + t.base, row.cost + t.quote)] else fills, trades[..i + 1], tracked)
  {
    assert trades[..i + 1][..i] == trades[..i];
  }

  lemma NewTradeStep(trades: seq<Trade>, i: nat, tracked: set<string>, known: set<string>, m: Measure)
    requires i < |trades|
    ensures Total(NewTrades(trades[..i + 1], tracked, known), m) == Total(NewTrades(trades[..i], tracked, known), m)
            + (if trades[i].order in tracked && trades[i].id != "" && trades[i].id !in known then trades[i].Amount(m) else 0.0)
  {
    assert trades[..i + 1][..i] == trades[..i];
    var before := NewTrades(trades[..i], tracked, known);
    if trades[i].order in tracked && trades[i].id != "" && trades[i].id !in known {
      assert (before + [trades[i]])[..|before|] == before;
    } else {
      assert before + [] == before;
    }
  }

  lemma TradeIdStep(trades: seq<Trade>, i: nat, tracked: set<string>)
    requires i < |trades|
    ensures TrackedTradeIds(trades[..i + 1], tracked)
         == TrackedTradeIds(trades[..i], tracked) + (if trades[i].order in tracked && trades[i].id != "" then {trades[i].id} else {})
  {
  }

  /** What the trade loop has accumulated after some trades. */
  ghost predicate TradesSummed(trades: seq<Trade>, tracked: set<string>, known: set<string>,
                               fills: map<string, Fill>, newBase: real, newQuote: real, ids: set<string>) {
    && HoldsTradeFills(fills, trades, tracked)
    && newBase == Total(NewTrades(trades, tracked, known), Base) && newQuote == Total(NewTrades(trades, tracked, known), Quote)
    && ids == known + TrackedTradeIds(trades, tracked)
  }

  lemma SkipTrade(trades: seq<Trade>, i: nat, tracked: set<string>, known: set<string>,
                  fills: map<string, Fill>, newBase: real, newQuote: real, ids: set<string>)
    requires i < |trades| && TradesSummed(trades[..i], tracked, known, fills, newBase, newQuote, ids)
    requires trades[i].order !in tracked
    ensures TradesSummed(trades[..i + 1], tracked, known, fills, newBase, newQuote, ids)
  {
    TradeStep(fills, trades, i, tracked);
    NewTradeStep(trades, i, tracked, known, Base);
    NewTradeStep(trades, i, tracked, known, Quote);
    TradeIdStep(trades, i, tracked);
  }

  lemma CountTrade(trades: seq<Trade>, i: nat, tracked: set<string>, known: set<string>,
                   fills: map<string, Fill>, newBase: real, newQuote: real, ids: set<string>)
    requires i < |trades| && TradesSummed(trades[..i], tracked, known, fills, newBase, newQuote, ids)
    requires trades[i].order in tracked
    ensures var t := trades[i];
            var row := Lookup(fills, t.order);
            var isNew := t.id != "" && t.id !in known;
            TradesSummed(trades[..i + 1], tracked, known, fills[t.order := Fill(row.amount + t.base, row.cost + t.quote)],
                         if isNew then newBase + t.base else newBase, if isNew then newQuote + t.quote else newQuote,
                         if t.id != "" then ids + {t.id} else ids)
  {
    TradeStep(fills, trades, i, tracked);
    NewTradeStep(trades, i, tracked, known, Base);
    NewTradeStep(trades, i, tracked, known, Quote);
    TradeIdStep(trades, i, tracked);
  }

  /** The loop over the trades of one window. */
  method SumTrades(trades: seq<Trade>, tracked: set<string>, known: set<string>)
    returns (fills: map<string, Fill>, newBase: real, newQuote: real, ids: set<string>)
    ensures TradesSummed(trades, tracked, known, fills, newBase, newQuote, ids)
  {
    fills, newBase, newQuote, ids := map[], 0.0, 0.0, known;
    for i := 0 to |trades|
      invariant TradesSummed(trades[..i], tracked, known, fills, newBase, newQuote, ids)
    {
      var t := trades[i];
      if t.order in tracked {
        CountTrade(trades, i, tracked, known, fills, newBase, newQuote, ids);
        var row := Lookup(fills, t.order);
        fills := fills[t.order := Fill(row.amount + t.base, row.cost + t.quote)];
        if t.id != "" {
          if t.id !in known {
            newBase, newQuote := newBase + t.base, newQuote + t.quote;
          }
          ids := ids + {t.id};
        }
      } else {
        SkipTrade(trades, i, tracked, known, fills, newBase, newQuote, ids);
      }
    }
    assert trades[..|trades|] == trades;
  }

  lemma OrderStep(fills: map<string, Fill>, rows: seq<OrderRow>, i: nat, tracked: set<string>)
    requires i < |rows| && HoldsOrderFills(fills, rows[..i], tracked)
    ensures var r := rows[i];
            var row := Lookup(fills, r.id);
            HoldsOrderFills(if r.id in tracked then fills[r.id := Fill(Max(row.amount, r.base), Max(row.cost, r.quote))] else fills, rows[..i + 1], tracked)
  {
    assert rows[..i + 1][..i] == rows[..i];
  }

  lemma ExcessStep(rows: seq<OrderRow>, i: nat, trades: seq<Trade>, tracked: set<string>, known: set<string>, m: Measure)
    requires i < |rows|
    ensures Excess(rows[..i + 1], trades, tracked, known, m) == Excess(rows[..i], trades, tracked, known, m)
            + (if NewlyFinal(rows[i], tracked, known) then Max(0.0, rows[i].Amount(m) - TradeFill(trades, rows[i].id, m)) else 0.0)
  {
    assert rows[..i + 1][..i] == rows[..i];
  }

  lemma FinalIdStep(rows: seq<OrderRow>, i: nat, tracked: set<string>)
    requires i < |rows|
    ensures FinalIds(rows[..i + 1], tracked)
         == FinalIds(rows[..i], tracked) + (if rows[i].id in tracked && rows[i].FinalFill() then {rows[i].id} else {})
  {
  }

  /** The loop over the open and closed orders of one window. */
  method SumOrders(rows: seq<OrderRow>, trades: seq<Trade>, tradeFills: map<string, Fill>, tracked: set<string>, known: set<string>, bootstrap: bool)
    returns (fills: map<string, Fill>, excessBase: real, excessQuote: real, ids: set<string>)
    requires HoldsTradeFills(tradeFills, trades, tracked)
    ensures HoldsOrderFills(fills, rows, tracked)
    ensures excessBase == if bootstrap then 0.0 else Excess(rows, trades, tracked, known, Base)
    ensures excessQuote == if bootstrap then 0.0 else Excess(rows, trades, tracked, known, Quote)
    ensures ids == known + FinalIds(rows, tracked)
  {
    fills, excessBase, excessQuote, ids := map[], 0.0, 0.0, known;
    for i := 0 to |rows|
      invariant HoldsOrderFills(fills, rows[..i], tracked)
      invariant excessBase == if bootstrap then 0.0 else Excess(rows[..i], trades, tracked, known, Base)
      invariant excessQuote == if bootstrap then 0.0 else Excess(rows[..i], trades, tracked, known, Quote)
      invariant ids == known + FinalIds(rows[..i], tracked)
    {
      var r := rows[i];
      OrderStep(fills, rows, i, tracked);
      ExcessStep(rows, i, trades, tracked, known, Base);
      ExcessStep(rows, i, trades, tracked, known, Quote);
      FinalIdStep(rows, i, tracked);
      if r.id in tracked {
        var row := Lookup(fills, r.id);
        fills := fills[r.id := Fill(Max(row.amount, r.base), Max(row.cost, r.quote))];
        if r.FinalFill() && r.id !in known {
          if !bootstrap {
            var traded := Lookup(tradeFills, r.id);
            excessBase := excessBase + Max(0.0, r.base - traded.amount);
            excessQuote := excessQuote + Max(0.0, r.quote - traded.cost);
          }
        }
        if r.FinalFill() {
          ids := ids + {r.id};
        }
      }
    }
    assert rows[..|rows|] == rows;
  }

  /** The final sum over the orders of the task. */
  method SumPlaced(placed: seq<string>, w: Window, tradeFills: map<string, Fill>, orderFills: map<string, Fill>) returns (base: real, quote: real)
    requires HoldsTradeFills(tradeFills, w.trades, Tracked(placed)) && HoldsOrderFills(orderFills, w.orders, Tracked(placed))
    ensures base == WindowSum(placed, w, Base) && quote == WindowSum(placed, w, Quote)
  {
    base, quote := 0.0, 0.0;
    for i := 0 to |placed|
      invariant base == WindowSum(placed[..i], w, Base) && quote == WindowSum(placed[..i], w, Quote)
    {
      assert placed[..i + 1][..i] == placed[..i];
      assert placed[i] in Tracked(placed);
      var traded, ordered := Lookup(tradeFills, placed[i]), Lookup(orderFills, placed[i]);
      base := base + Max(traded.amount, ordered.amount);
      quote := quote + Max(traded.cost, ordered.cost);
    }
    assert placed[..|placed|] == placed;
  }

  /** The accounting half of one activity refresh. */
  method RefreshAccount(a: Account, w: Window, t: Targets) returns (r: Account)
    requires a.placed != []
    ensures r == Refreshed(a, w, t)
  {
    var tracked := Tracked(a.placed);
    var bootstrap := a.knownFinal == {} && (a.base > 0.0 || a.quote > 0.0);
    var tradeFills, newBase, newQuote, tradeIds := SumTrades(w.trades, tracked, a.knownTrades);
    var orderFills, excessBase, excessQuote, finalIds := SumOrders(w.orders, w.trades, tradeFills, tracked, a.knownFinal, bootstrap);
    var base, quote := SumPlaced(a.placed, w, tradeFills, orderFills);
    var nextBase := Max(a.base + newBase + excessBase, base);
    var nextQuote := Max(a.quote + newQuote + excessQuote, quote);
    var filledBase := if t.base > 0.0 then Min(t.base, nextBase) else nextBase;
    var filledQuote := if t.quote > 0.0 then Min(t.quote, nextQuote) else nextQuote;
    assert filledBase == NextFilled(a, w, t, Base);
    assert filledQuote == NextFilled(a, w, t, Quote);
    r := Account(filledBase, filledQuote, a.placed, tradeIds, finalIds);
  }

  class AutoBuySellTask {
    const cfg: TaskConfig
    var status: Status
    var openOrderIds: set<string>
    var placedOrderIds: seq<string>
    var knownTradeIds: set<string>
    var knownFilledOrderIds: set<string>
    var filledBase: real
    var filledQuote: real
    var stopTarget: StopTarget
    var startPriceTriggered: bool
    var stopPriceSeen: bool

    constructor (cfg: TaskConfig)
      ensures this.cfg == cfg && View() == TaskState(Running, {}, NEW_ACCOUNT, ToStopped, false, false)
    {
      this.cfg := cfg;
      status, stopTarget, startPriceTriggered, stopPriceSeen := Running, ToStopped, false, false;
      openOrderIds, placedOrderIds, knownTradeIds, knownFilledOrderIds := {}, [], {}, {};
      filledBase, filledQuote := 0.0, 0.0;
    }

    ghost function View(): TaskState
      reads this
    {
      TaskState(status, openOrderIds, Account(filledBase, filledQuote, placedOrderIds, knownTradeIds, knownFilledOrderIds),
                stopTarget, startPriceTriggered, stopPriceSeen)
    }

    method RefreshTaskActivity(s: Snapshot)
      modifies this
      ensures View() == RefreshState(old(View()), s, cfg) && placedOrderIds == old(placedOrderIds)
      // the fills stay within the configured targets
      ensures (cfg.targets.base > 0.0 ==> filledBase <= cfg.targets.base) && (cfg.targets.quote > 0.0 ==> filledQuote <= cfg.targets.quote)
      // the tracked orders are exactly the task's own among the open orders of this read
      ensures forall id :: id in openOrderIds <==> id != "" && id in placedOrderIds && exists r :: r in s.openOrders && r.id == id
    {
      if placedOrderIds == [] {
        filledBase, filledQuote, openOrderIds := 0.0, 0.0, {};
        return;
      }
      var account := RefreshAccount(Account(filledBase, filledQuote, placedOrderIds, knownTradeIds, knownFilledOrderIds), s.Win(), cfg.targets);
      filledBase, filledQuote := account.base, account.quote;
      knownTradeIds, knownFilledOrderIds := account.knownTrades, account.knownFinal;
      openOrderIds := set r | r in s.openOrders && r.id in placedOrderIds && r.id != "" :: r.id;
    }

    /** Request the cancellation of the tracked orders, then read which of them are still open. */
    method CancelAndConfirm(c: Confirmation) returns (raised: bool, remaining: set<string>)
      ensures raised <==> c.CancelRaised?
      ensures !raised ==> remaining == Remaining(openOrderIds, c)
    {
      raised, remaining := c.CancelRaised?, openOrderIds;
      if c.ReadOpen? {
        remaining := openOrderIds * c.ids;
      }
    }

    method StopTask(cancelOpenOrders: bool, c: Confirmation, logged: bool) returns (raised: bool)
      modifies this
      ensures View() == Apply(old(View()), TaskEvent.StopTask(cancelOpenOrders, c, logged), cfg)
    {
      raised := false;
      if Terminal(status) {
        return;
      }
      if cancelOpenOrders && openOrderIds != {} {
        var failed, remaining := CancelAndConfirm(c);
        if failed || !logged {
          return true;
        }
        openOrderIds, stopTarget := remaining, ToStopped;
      }
      status := if openOrderIds != {} && cancelOpenOrders then StopCancelPending else Stopped;
    }

    method SetPaused(paused: bool) returns (raised: bool)
      modifies this
      ensures View() == Apply(old(View()), TaskEvent.SetPaused(paused), cfg)
      ensures raised <==> old(status) == StopCancelPending || (!paused && Terminal(old(status)))
    {
      raised := false;
      if status == StopCancelPending {
        return true;
      }
      if paused {
        status := Paused;
      } else if Terminal(status) {
        return true;
      } else {
        status := Running;
      }
    }

    method RearmAfterStopPrice()
      modifies this
      ensures View() == Rearm(old(View()))
    {
      status, startPriceTriggered := WaitingForStartPrice, false;
    }

    /** What the cycle's exception handler makes of the task. */
    ghost function Ended(raised: bool): TaskState
      reads this
    {
      if raised then Raised(View()) else View()
    }

    method RetryPendingStop(e: CycleEnv) returns (raised: bool)
      modifies this
      ensures Ended(raised) == TaskMachine.RetryPendingStop(old(View()), e)
    {
      var remaining: set<string> := {};
      if openOrderIds != {} {
        var failed, left := CancelAndConfirm(e.confirmation);
        if failed {
          return true;
        }
        remaining := left;
      }
      openOrderIds := remaining;
      if remaining == {} {
        if stopTarget == ToStartPrice {
          RearmAfterStopPrice();
        } else {
          status := Stopped;
        }
      }
      raised := !e.logged;
    }

    method StopAtPriceLimit(e: CycleEnv) returns (raised: bool)
      modifies this
      ensures Ended(raised) == PriceStop(old(View()), e, cfg)
    {
      if !startPriceTriggered && (cfg.hasStartPrice || stopPriceSeen) {
        status := WaitingForStartPrice;
        return false;
      }
      stopPriceSeen := true;
      if openOrderIds == {} {
        stopTarget := ToStartPrice;
        RearmAfterStopPrice();
        return !e.logged;
      }
      var failed, remaining := CancelAndConfirm(e.confirmation);
      if failed {
        return true;
      }
      openOrderIds, stopTarget := remaining, ToStartPrice;
      if !e.logged {
        return true;
      }
      if openOrderIds != {} {
        status := StopCancelPending;
      } else {
        RearmAfterStopPrice();
      }
      raised := false;
    }

    method HandleOpenOrders(e: CycleEnv) returns (raised: bool)
      modifies this
      ensures Ended(raised) == TaskMachine.HandleOpenOrders(old(View()), e, cfg)
    {
      raised := false;
      if !cfg.hasOrderTtl || openOrderIds * e.expired == {} {
        status := WaitingForFill;
        return;
      }
      if e.confirmation.CancelRaised? {
        return true;
      }
      openOrderIds, status := openOrderIds - e.expired, Running;
      if !e.logged || e.secondRefresh.None? {
        return true;
      }
      RefreshTaskActivity(e.secondRefresh.value);
    }

    /** Append the newly placed order ids that the task does not know yet. */
    method TrackPlaced(ids: seq<string>)
      modifies this
      ensures View() == Track(old(View()), ids)
    {
      ghost var before := View();
      for i := 0 to |ids|
        invariant View() == Track(before, ids[..i])
      {
        assert ids[..i + 1][..i] == ids[..i];
        if ids[i] != "" && ids[i] !in placedOrderIds {
          placedOrderIds := placedOrderIds + [ids[i]];
          openOrderIds := openOrderIds + {ids[i]};
        }
      }
      assert ids[..|ids|] == ids;
    }

    method RunSlice(e: CycleEnv) returns (raised: bool)
      modifies this
      ensures Ended(raised) == TaskMachine.RunSlice(old(View()), e, cfg)
    {
      if e.slice.SliceFailed? {
        return true;
      }
      status := StatusOf(e.slice.outcome);
      if cfg.hasStartPrice && !e.slice.outcome.SliceWaitsForStart? {
        startPriceTriggered := true;
      }
      TrackPlaced(e.slice.newIds);
      raised := !e.logged;
    }

    method ActOnActivity(e: CycleEnv) returns (raised: bool)
      modifies this
      ensures Ended(raised) == ActOnRead(old(View()), e, cfg)
    {
      raised := false;
      if (cfg.targets.base > 0.0 && filledBase >= cfg.targets.base) || (cfg.targets.quote > 0.0 && filledQuote >= cfg.targets.quote) {
        status := Complete;
      } else if cfg.hasStopPrice && e.priceStop.None? {
        raised := true;
      } else if cfg.hasStopPrice && e.priceStop.value {
        raised := StopAtPriceLimit(e);
      } else if openOrderIds != {} {
        raised := HandleOpenOrders(e);
      } else if e.mustWait {
        status := WaitingForInterval;
      } else {
        raised := RunSlice(e);
      }
    }

    method CycleBody(e: CycleEnv) returns (raised: bool)
      modifies this
      ensures Ended(raised) == RunCycle(old(View()), e, cfg)
    {
      raised := false;
      if status == StopCancelPending {
        raised := RetryPendingStop(e);
      } else if e.unresolved.None? {
        raised := true;
      } else if e.unresolved.value {
        status := Recovering;
      } else if e.refresh.None? {
        raised := true;
      } else {
        RefreshTaskActivity(e.refresh.value);
        raised := ActOnActivity(e);
      }
    }

    /** One task cycle: the body under its exception handler. */
    method RunTaskCycle(e: CycleEnv)
      modifies this
      ensures View() == RunCycle(old(View()), e, cfg)
    {
      var raised := CycleBody(e);
      if raised && status != StopCancelPending {
        status := Failing;
      }
    }

    /** The part of the service loop that decides whether the task runs a cycle. */
    method RunDue(due: bool, runtimeAvailable: bool, e: CycleEnv)
      modifies this
      ensures View() == Apply(old(View()), TaskEvent.RunDue(due, runtimeAvailable, e), cfg)
    {
      if Terminal(status) || status == Paused || !due {
        return;
      }
      if !runtimeAvailable {
        status := Failing;
        return;
      }
      RunTaskCycle(e);
    }
  }
}
