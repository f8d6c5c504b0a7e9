/** What a simulated trade costs: it never does better than the price it was asked at, pays its fee on its
    notional, and moves cash and base in opposite directions. */
module TradePrices {
  import opened Numbers
  import opened OrderBook
  import opened PaperTrading

  lemma BuyLevelIsAbove(price: real, stepBps: real, index: nat)
    requires price > 0.0
    ensures LevelPrice(price, Buy, stepBps, index) >= price
  {
    var step := Max(0.0, stepBps) / 10000.0;
    MulIsNonnegative(step, index as real);
    MulOrders(1.0, 1.0 + step * index as real, price);
  }

  lemma {:induction false} BuyLevelsAreAbove(price: real, d: Depth, n: nat)
    requires price > 0.0 && d.quotePerLevel > 0.0
    ensures forall i :: 0 <= i < |SyntheticLevels(price, Buy, d, n)| ==> SyntheticLevels(price, Buy, d, n)[i].price >= price
  {
    if n > 0 {
      BuyLevelsAreAbove(price, d, n - 1);
      BuyLevelIsAbove(price, d.stepBps, n);
    }
  }

  lemma TakenAbovePrice(take: real, level: real, price: real)
    requires take >= 0.0 && level >= price > 0.0
    ensures take / level >= 0.0 && Product(take / level, price) <= take
  {
    DivIsPositive(take, level);
    MulOrders(price, level, take / level);
    DivCancels(take, level);
  }

  lemma AmountsAdd(a: real, b: real, price: real, grossA: real, grossB: real)
    requires Product(a, price) <= grossA && Product(b, price) <= grossB
    ensures Product(a + b, price) <= grossA + grossB
  {
    MulAdds(price, a, b);
  }

  lemma {:induction false} SpendAbovePrice(levels: seq<BookLevel>, quote: real, price: real)
    requires Normalized(levels) && quote >= 0.0 && price > 0.0 && forall i :: 0 <= i < |levels| ==> levels[i].price >= price
    ensures Product(Spend(levels, quote).amount, price) <= Spend(levels, quote).gross
  {
    if levels != [] {
      MulIsPositive(levels[0].price, levels[0].amount);
      var take := Min(quote, Product(levels[0].price, levels[0].amount));
      TakenAbovePrice(take, levels[0].price, price);
      if quote - take > 0.000000000001 {
        SpendAbovePrice(levels[1..], quote - take, price);
        var rest := Spend(levels[1..], quote - take);
        AmountsAdd(take / levels[0].price, rest.amount, price, take, rest.gross);
      }
    }
  }

  lemma AverageIsAbove(gross: real, amount: real, price: real)
    requires amount > 0.0 && Product(amount, price) <= gross
    ensures gross / amount >= price
  {
    DivOrders(amount * price, gross, amount);
    MulDivCancels(price, amount);
  }

  lemma AverageIsBelow(gross: real, amount: real, price: real)
    requires amount > 0.0 && gross <= Product(amount, price)
    ensures gross / amount <= price
  {
    DivOrders(gross, amount * price, amount);
    MulDivCancels(price, amount);
  }

  lemma DepthBuyIsAdverse(w: Wallet, price: real, quote: real, c: Costs, d: Depth)
    requires Accepted(c) && price > 0.0 && quote > 0.0 && d.quotePerLevel > 0.0 && d.levels > 0
    ensures var r := DepthBuy(w, price, quote, c, d);
            r.trade.Some? ==> r.trade.value.price >= price && r.trade.value.amount > 0.0
  {
    var target := Min(quote, Max(0.0, w.cash / (1.0 + c.Fee())));
    var levels := SyntheticLevels(price, Buy, d, d.levels);
    if target > 0.0 && Spend(levels, target).amount > 0.0 {
      BuyLevelsAreAbove(price, d, d.levels);
      SpendAbovePrice(levels, target, price);
      AverageIsAbove(Spend(levels, target).gross, Spend(levels, target).amount, price);
    }
  }

  lemma DepthSellIsAdverse(w: Wallet, price: real, quote: real, c: Costs, d: Depth)
    requires Accepted(c) && price > 0.0 && quote > 0.0 && d.quotePerLevel > 0.0 && d.levels > 0
    ensures var r := DepthSell(w, price, quote, c, d);
            r.trade.Some? ==> r.trade.value.price <= price && r.trade.value.amount > 0.0
  {
    var amount := Min(w.base, quote / price);
    if amount > 0.0 {
      var levels := SyntheticLevels(price, Sell, d, d.levels);
      SellLevelsAreBelow(price, d, d.levels);
      WalkBelowPrice(levels, amount, price);
      AverageIsBelow(Walk(levels, amount).gross, amount, price);
    }
  }

  lemma PlainTradeIsAdverse(w: Wallet, price: real, quote: real, c: Costs)
    requires Accepted(c) && price > 0.0
    ensures PlainBuy(w, price, quote, c).trade.Some? ==>
              PlainBuy(w, price, quote, c).trade.value.price == price + Product(price, c.Slip()) >= price
              && PlainBuy(w, price, quote, c).trade.value.amount > 0.0
    ensures PlainSell(w, price, quote, c).trade.Some? ==>
              PlainSell(w, price, quote, c).trade.value.price == price - Product(price, c.Slip()) <= price
              && PlainSell(w, price, quote, c).trade.value.amount > 0.0
  {
    var slip := c.Slip();
    MulIsNonnegative(price, slip);
    MulAdds(price, 1.0, slip);
    MulAdds(price, 1.0, -slip);
    MulIsPositive(price, 1.0 + slip);
    var r := PlainBuy(w, price, quote, c);
    if r.trade.Some? {
      DivIsPositive(r.trade.value.notional, r.trade.value.price);
    }
  }

  /** A buy is never executed below the price it was asked at and a sale never above it; without depth the
      difference is exactly the slippage of that price. */
  lemma TradePricesAreAdverse(w: Wallet, side: Side, price: real, quote: real, c: Costs)
    requires Accepted(c) && ExecuteTrade(w, side, price, quote, c).trade.Some?
    ensures var t := ExecuteTrade(w, side, price, quote, c).trade.value;
            && t.side == side && t.amount > 0.0
            && (side == Buy ==> t.price >= price) && (side == Sell ==> t.price <= price)
            && (c.depth.None? ==> Abs(t.price - price) == Product(price, c.slippageBps / 10000.0))
  {
    if c.Book().Some? {
      DepthBuyIsAdverse(w, price, quote, c, c.Book().value);
      DepthSellIsAdverse(w, price, quote, c, c.Book().value);
    } else {
      PlainTradeIsAdverse(w, price, quote, c);
      MulIsNonnegative(price, c.Slip());
    }
  }

  /** A buy gains its amount of base, a sale gives it up; the fee is the rate times the notional, and cash
      moves by the notional and the costs. Depth already contains the slippage. */
  lemma TradeMovesWallet(w: Wallet, side: Side, price: real, quote: real, c: Costs)
    requires Accepted(c) && ExecuteTrade(w, side, price, quote, c).trade.Some?
    ensures var r := ExecuteTrade(w, side, price, quote, c);
            var t := r.trade.value;
            && t.fee == Product(t.notional, c.feeBps / 10000.0)
            && r.wallet.base - w.base == (if side == Buy then t.amount else -t.amount)
            && r.wallet.cash - w.cash == (if side == Buy then -t.notional else t.notional) - t.fee
                                         - (if c.depth.None? then Product(t.notional, c.slippageBps / 10000.0) else if c.Book().None? then t.slippage else 0.0)
  {
  }
  /** Synthetic depth moves away from the reference by the same step at every level, upwards for a buy and
      downwards for a sale. */
  lemma DepthIsEvenlySpaced(reference: real, stepBps: real, index: nat)
    requires stepBps >= 0.0
    ensures LevelPrice(reference, Buy, stepBps, index) - reference == Product(Product(reference, stepBps / 10000.0), index as real)
    ensures reference - LevelPrice(reference, Sell, stepBps, index) == Product(Product(reference, stepBps / 10000.0), index as real)
  {
    var step, n := stepBps / 10000.0, index as real;
    MulAdds(reference, 1.0, step * n);
    MulAdds(reference, 1.0, -(step * n));
    MulReorders(reference, step, n);
  }
  // ---- how much is traded ----

  lemma WholeCashIsSpent(w: Wallet, c: Costs)
    requires Accepted(c) && w.cash > 0.0
    ensures w.cash / (1.0 + c.Fee() + c.Slip()) > 0.0 && CostOf(w.cash / (1.0 + c.Fee() + c.Slip()), c) == w.cash
  {
    DivIsPositive(w.cash, 1.0 + c.Fee() + c.Slip());
    ScaledCost(w.cash, c.Fee(), c.Slip());
  }

  /** Without depth a buy spends what was asked when the cash covers it with its costs, and otherwise all the
      cash; it fails only without cash. */
  lemma PlainBuySpendsAllItCan(w: Wallet, price: real, quote: real, c: Costs)
    requires Accepted(c) && price > 0.0 && quote > 0.0 && c.depth.None?
    ensures var r := ExecuteTrade(w, Buy, price, quote, c);
            && (r.trade.Some? <==> w.cash > 0.0)
            && (w.cash > 0.0 && CostOf(quote, c) <= w.cash ==> r.trade.value.notional == quote)
            && (w.cash > 0.0 && CostOf(quote, c) > w.cash ==> r.wallet.cash == 0.0)
  {
    MulIsNonnegative(quote, c.Fee());
    MulIsNonnegative(quote, c.Slip());
    if w.cash > 0.0 {
      WholeCashIsSpent(w, c);
    } else if w.cash < 0.0 {
      DivIsPositive(w.cash, 1.0 + c.Fee() + c.Slip());
    }
  }

  /** A trade against depth is filled whole, up to a negligible rest: a buy spends what was asked or what the
      cash allows after its fee, a sale gives what was asked or all the base. */
  lemma DepthTradesAreFilled(w: Wallet, side: Side, price: real, quote: real, c: Costs)
    requires Accepted(c) && c.Book().Some? && price > 0.0 && quote > 0.0 && ExecuteTrade(w, side, price, quote, c).trade.Some?
    ensures var t := ExecuteTrade(w, side, price, quote, c).trade.value;
            && (side == Buy ==> t.notional >= Min(quote, w.cash / (1.0 + c.feeBps / 10000.0)) - 0.000000001)
            && (side == Sell ==> t.amount == Min(w.base, quote / price))
  {
    var target := Min(quote, Max(0.0, w.cash / (1.0 + c.Fee())));
    if side == Buy && target > 0.0 {
      SpendingIsBounded(SyntheticLevels(price, Buy, c.Book().value, c.Book().value.levels), target);
    }
  }
}
