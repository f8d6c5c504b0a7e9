/** One simulated trade: fees and slippage charged directly, or a walk through synthetic depth. */
module PaperTrading {
  import opened Numbers
  import opened OrderBook

  datatype Side = Buy | Sell

  datatype Depth = Depth(quotePerLevel: real, stepBps: real, levels: int)

  datatype Costs = Costs(feeBps: real, slippageBps: real, depth: Option<Depth>) {
    function Fee(): real {
      feeBps / 10000.0
    }

    function Slip(): real {
      slippageBps / 10000.0
    }

    /** Depth simulation needs a positive level size and at least one level. */
    function Book(): Option<Depth> {
      if depth.Some? && depth.value.quotePerLevel > 0.0 && depth.value.levels > 0 then depth else None
    }
  }

  datatype Wallet = Wallet(cash: real, base: real)

  datatype Trade = Trade(side: Side, price: real, amount: real, notional: real, fee: real, slippage: real)

  datatype Result = Result(wallet: Wallet, trade: Option<Trade>)

  // ---- synthetic depth ----

  function LevelPrice(reference: real, side: Side, stepBps: real, index: nat): real {
    var step := Max(0.0, stepBps) / 10000.0;
    Product(reference, if side == Buy then 1.0 + step * index as real else 1.0 - step * index as real)
  }

  /** The first `n` levels away from the reference price; levels at nonpositive prices are left out. */
  function SyntheticLevels(reference: real, side: Side, d: Depth, n: nat): (levels: seq<BookLevel>)
    requires d.quotePerLevel > 0.0
    ensures Normalized(levels)
  {
    if n == 0 then []
    else
      var price := LevelPrice(reference, side, d.stepBps, n);
      SyntheticLevels(reference, side, d, n - 1) + (if price <= 0.0 then [] else [BookLevel(price, LevelAmount(d.quotePerLevel, price))])
  }

  function LevelAmount(quote: real, price: real): (amount: real)
    requires quote > 0.0 && price > 0.0
    ensures amount > 0.0
  {
    DivIsPositive(quote, price);
    quote / price
  }

  datatype QuoteFill = QuoteFill(gross: real, amount: real, unspent: real)

  /** Spend a quote amount level by level until the rest is negligible. */
  function Spend(levels: seq<BookLevel>, quote: real): QuoteFill
    requires Normalized(levels)
  {
    if levels == [] then QuoteFill(0.0, 0.0, quote)
    else
      var take := Min(quote, Product(levels[0].price, levels[0].amount));
      var left := quote - take;
      if left <= 0.000000000001 then QuoteFill(take, take / levels[0].price, left)
      else
        var rest := Spend(levels[1..], left);
        QuoteFill(take + rest.gross, take / levels[0].price + rest.amount, rest.unspent)
  }

  method SpendQuote(levels: seq<BookLevel>, quote: real) returns (f: QuoteFill)
    requires Normalized(levels)
    ensures f == Spend(levels, quote)
  {
    var remaining, gross, amount, i, more := quote, 0.0, 0.0, 0, true;
    while i < |levels| && more
      invariant i <= |levels|
      invariant more ==> var rest := Spend(levels[i..], remaining);
                         Spend(levels, quote) == QuoteFill(gross + rest.gross, amount + rest.amount, rest.unspent)
      invariant !more ==> Spend(levels, quote) == QuoteFill(gross, amount, remaining)
    {
      assert levels[i..][1..] == levels[i + 1..];
      var take := Min(remaining, Product(levels[i].price, levels[i].amount));
      gross := gross + take;
      amount := amount + take / levels[i].price;
      remaining := remaining - take;
      more := remaining > 0.000000000001;
      i := i + 1;
    }
    f := QuoteFill(gross, amount, remaining);
  }

  lemma {:induction false} SpendingIsBounded(levels: seq<BookLevel>, quote: real)
    requires Normalized(levels) && quote >= 0.0
    ensures var f := Spend(levels, quote);
            f.gross + f.unspent == quote && f.gross >= 0.0 && f.amount >= 0.0 && f.unspent >= 0.0
  {
    if levels != [] {
      MulIsPositive(levels[0].price, levels[0].amount);
      var take := Min(quote, Product(levels[0].price, levels[0].amount));
      DivIsPositive(take, levels[0].price);
      if quote - take > 0.000000000001 {
        SpendingIsBounded(levels[1..], quote - take);
      }
    }
  }

  // ---- the trade ----

  function DepthBuy(w: Wallet, price: real, quote: real, c: Costs, d: Depth): Result
    requires c.feeBps >= 0.0 && d.quotePerLevel > 0.0 && d.levels > 0
  {
    var target := Min(quote, Max(0.0, w.cash / (1.0 + c.Fee())));
    var f := Spend(SyntheticLevels(price, Buy, d, d.levels), target);
    if target <= 0.0 || f.unspent > 0.000000001 || f.amount <= 0.0 then Result(w, None)
    else
      var average := f.gross / f.amount;
      var fee := Product(f.gross, c.Fee());
      Result(Wallet(w.cash - f.gross - fee, w.base + f.amount),
             Some(Trade(Buy, average, f.amount, f.gross, fee, Product(Max(0.0, average - price), f.amount))))
  }

  function DepthSell(w: Wallet, price: real, quote: real, c: Costs, d: Depth): Result
    requires price > 0.0 && d.quotePerLevel > 0.0 && d.levels > 0
  {
    var amount := Min(w.base, quote / price);
    var f := Walk(SyntheticLevels(price, Sell, d, d.levels), amount);
    if amount <= 0.0 || f.unfilled > 0.000000001 || f.gross <= 0.0 then Result(w, None)
    else
      var average := f.gross / amount;
      var fee := Product(f.gross, c.Fee());
      Result(Wallet(w.cash + f.gross - fee, w.base - amount),
             Some(Trade(Sell, average, amount, f.gross, fee, Product(Max(0.0, price - average), amount))))
  }

  function CostOf(quote: real, c: Costs): real {
    quote + Product(quote, c.Fee()) + Product(quote, c.Slip())
  }

  function PlainBuy(w: Wallet, price: real, quote: real, c: Costs): Result
    requires c.feeBps >= 0.0 && c.slippageBps >= 0.0 && price > 0.0
  {
    var spent := if CostOf(quote, c) > w.cash then Max(0.0, w.cash / (1.0 + c.Fee() + c.Slip())) else quote;
    MulIsPositive(price, 1.0 + c.Slip());
    var execution := Product(price, 1.0 + c.Slip());
    if spent <= 0.0 then Result(w, None)
    else
      Result(Wallet(w.cash - CostOf(spent, c), w.base + spent / execution),
             Some(Trade(Buy, execution, spent / execution, spent, Product(spent, c.Fee()), Product(spent, c.Slip()))))
  }

  function PlainSell(w: Wallet, price: real, quote: real, c: Costs): Result
    requires price > 0.0
  {
    var execution := Product(price, 1.0 - c.Slip());
    var amount := Min(w.base, quote / Max(execution, 0.000000000001));
    var proceeds := Product(amount, execution);
    if amount <= 0.0 || proceeds <= 0.0 then Result(w, None)
    else
      var fee, slippage := Product(proceeds, c.Fee()), Product(proceeds, c.Slip());
      Result(Wallet(w.cash + proceeds - fee - slippage, w.base - amount), Some(Trade(Sell, execution, amount, proceeds, fee, slippage)))
  }

  ghost predicate Accepted(c: Costs) {
    c.feeBps >= 0.0 && c.slippageBps >= 0.0
  }

  function ExecuteTrade(w: Wallet, side: Side, price: real, quote: real, c: Costs): Result
    requires c.feeBps >= 0.0 && c.slippageBps >= 0.0
  {
    if quote <= 0.0 || price <= 0.0 then Result(w, None)
    else if c.Book().Some? then
      (if side == Buy then DepthBuy(w, price, quote, c, c.Book().value) else DepthSell(w, price, quote, c, c.Book().value))
    else if side == Buy then PlainBuy(w, price, quote, c)
    else PlainSell(w, price, quote, c)
  }

  // ---- solvency ----

  predicate Solvent(w: Wallet) {
    w.cash >= 0.0 && w.base >= 0.0
  }

  /** Fee and slippage together take at most what a sale brings in. */
  predicate CostsWithinProceeds(c: Costs) {
    c.feeBps + c.slippageBps <= 10000.0
  }

  lemma ScaledCost(cash: real, fee: real, slip: real)
    requires cash >= 0.0 && fee >= 0.0 && slip >= 0.0
    ensures var q := cash / (1.0 + fee + slip);
            q >= 0.0 && q + Product(q, fee) + Product(q, slip) == cash
  {
    var q := cash / (1.0 + fee + slip);
    DivCancels(cash, 1.0 + fee + slip);
    DivIsPositive(cash, 1.0 + fee + slip);
    MulAdds(q, 1.0 + fee, slip);
    MulAdds(q, 1.0, fee);
  }

  lemma SmallerCostsLess(a: real, b: real, c: Costs)
    requires Accepted(c) && a <= b
    ensures CostOf(a, c) <= CostOf(b, c)
  {
    MulOrders(a, b, c.Fee());
    MulOrders(a, b, c.Slip());
  }

  lemma PlainBuyIsSolvent(w: Wallet, price: real, quote: real, c: Costs)
    requires Solvent(w) && Accepted(c) && price > 0.0 && quote > 0.0
    ensures Solvent(PlainBuy(w, price, quote, c).wallet)
    ensures PlainBuy(w, price, quote, c).trade.Some? ==> 0.0 < PlainBuy(w, price, quote, c).trade.value.notional <= quote
  {
    ScaledCost(w.cash, c.Fee(), c.Slip());
    var scaled := w.cash / (1.0 + c.Fee() + c.Slip());
    if CostOf(quote, c) > w.cash && scaled > quote {
      SmallerCostsLess(quote, scaled, c);
    }
    var spent := if CostOf(quote, c) > w.cash then Max(0.0, scaled) else quote;
    MulIsPositive(price, 1.0 + c.Slip());
    DivIsPositive(spent, Product(price, 1.0 + c.Slip()));
  }

  lemma NetProceeds(proceeds: real, c: Costs)
    requires proceeds >= 0.0 && Accepted(c)
    ensures CostsWithinProceeds(c) ==> proceeds - Product(proceeds, c.Fee()) - Product(proceeds, c.Slip()) >= 0.0
    ensures proceeds > 0.0 && !CostsWithinProceeds(c) ==> proceeds - Product(proceeds, c.Fee()) - Product(proceeds, c.Slip()) < 0.0
    ensures Product(proceeds, c.Slip()) >= 0.0
  {
    MulAdds(proceeds, c.Fee(), c.Slip());
    if CostsWithinProceeds(c) {
      MulOrders(c.Fee() + c.Slip(), 1.0, proceeds);
    } else if proceeds > 0.0 {
      MulOrdersStrictly(1.0, c.Fee() + c.Slip(), proceeds);
    }
    MulIsNonnegative(proceeds, c.Slip());
  }

  lemma SoldNotional(amount: real, execution: real, quote: real)
    requires quote > 0.0 && amount > 0.0 && execution > 0.0 && amount <= quote / Max(execution, 0.000000000001)
    ensures Product(amount, execution) <= quote
  {
    var m := Max(execution, 0.000000000001);
    AmountFits(amount, quote, m);
    MulOrders(execution, m, amount);
    assert Product(amount, execution) <= Product(amount, m);
  }

  lemma SignOfProceeds(amount: real, execution: real)
    requires amount > 0.0 && Product(amount, execution) > 0.0
    ensures execution > 0.0
  {
    MulKeepsSign(execution, amount);
  }

  lemma PlainSellIsSolvent(w: Wallet, price: real, quote: real, c: Costs)
    requires Solvent(w) && Accepted(c) && CostsWithinProceeds(c) && price > 0.0 && quote > 0.0
    ensures Solvent(PlainSell(w, price, quote, c).wallet)
    ensures PlainSell(w, price, quote, c).trade.Some? ==> 0.0 < PlainSell(w, price, quote, c).trade.value.notional <= quote
  {
    var execution := Product(price, 1.0 - c.Slip());
    var amount := Min(w.base, quote / Max(execution, 0.000000000001));
    if amount > 0.0 && Product(amount, execution) > 0.0 {
      SignOfProceeds(amount, execution);
      SoldNotional(amount, execution, quote);
      NetProceeds(Product(amount, execution), c);
    }
  }

  lemma GrossFits(cash: real, gross: real, fee: real)
    requires cash >= 0.0 && fee >= 0.0 && gross <= cash / (1.0 + fee)
    ensures cash - gross - Product(gross, fee) >= 0.0
  {
    var whole := cash / (1.0 + fee);
    DivCancels(cash, 1.0 + fee);
    MulAdds(whole, 1.0, fee);
    MulOrders(gross, whole, fee);
  }

  lemma DepthBuyIsSolvent(w: Wallet, price: real, quote: real, c: Costs, d: Depth)
    requires Solvent(w) && Accepted(c) && price > 0.0 && quote > 0.0 && d.quotePerLevel > 0.0 && d.levels > 0
    ensures Solvent(DepthBuy(w, price, quote, c, d).wallet)
    ensures DepthBuy(w, price, quote, c, d).trade.Some? ==> 0.0 <= DepthBuy(w, price, quote, c, d).trade.value.notional <= quote
  {
    DivIsPositive(w.cash, 1.0 + c.Fee());
    var levels := SyntheticLevels(price, Buy, d, d.levels);
    var target := Min(quote, Max(0.0, w.cash / (1.0 + c.Fee())));
    SpendingIsBounded(levels, target);
    GrossFits(w.cash, Spend(levels, target).gross, c.Fee());
  }

  lemma {:induction false} SellLevelsAreBelow(price: real, d: Depth, n: nat)
    requires price > 0.0 && d.quotePerLevel > 0.0
    ensures forall i :: 0 <= i < |SyntheticLevels(price, Sell, d, n)| ==> SyntheticLevels(price, Sell, d, n)[i].price <= price
  {
    if n > 0 {
      SellLevelsAreBelow(price, d, n - 1);
      MulIsNonnegative(Max(0.0, d.stepBps) / 10000.0, n as real);
      MulOrders(1.0 - Max(0.0, d.stepBps) / 10000.0 * n as real, 1.0, price);
    }
  }

  lemma {:induction false} WalkBelowPrice(levels: seq<BookLevel>, quantity: real, price: real)
    requires Normalized(levels) && quantity >= 0.0 && price > 0.0 && forall i :: 0 <= i < |levels| ==> levels[i].price <= price
    ensures Walk(levels, quantity).gross <= Product(quantity, price)
  {
    MulIsNonnegative(quantity, price);
    if levels != [] {
      var take := Min(quantity, levels[0].amount);
      MulOrders(levels[0].price, price, take);
      MulAdds(price, take, quantity - take);
      MulIsNonnegative(quantity - take, price);
      if quantity - take > 0.000000000001 {
        WalkBelowPrice(levels[1..], quantity - take, price);
      }
    }
  }

  lemma FeeFits(gross: real, fee: real)
    requires gross >= 0.0 && fee <= 1.0
    ensures gross - Product(gross, fee) >= 0.0
  {
    MulOrders(fee, 1.0, gross);
  }

  lemma AmountFits(amount: real, quote: real, price: real)
    requires price > 0.0 && amount <= quote / price
    ensures Product(amount, price) <= quote
  {
    MulOrders(amount, quote / price, price);
    DivCancels(quote, price);
  }

  lemma DepthSellIsSolvent(w: Wallet, price: real, quote: real, c: Costs, d: Depth)
    requires Solvent(w) && Accepted(c) && c.feeBps <= 10000.0 && price > 0.0 && quote > 0.0 && d.quotePerLevel > 0.0 && d.levels > 0
    ensures Solvent(DepthSell(w, price, quote, c, d).wallet)
    ensures DepthSell(w, price, quote, c, d).trade.Some? ==> 0.0 < DepthSell(w, price, quote, c, d).trade.value.notional <= quote
  {
    var amount := Min(w.base, quote / price);
    if amount > 0.0 {
      var levels := SyntheticLevels(price, Sell, d, d.levels);
      SellLevelsAreBelow(price, d, d.levels);
      WalkBelowPrice(levels, amount, price);
      WalkIsNonnegative(levels, amount);
      AmountFits(amount, quote, price);
      FeeFits(Walk(levels, amount).gross, c.Fee());
    }
  }

  /** With fee plus slippage up to 10000 bps no trade overdraws the wallet, and it trades at most the
      quote it was asked for. */
  lemma TradeIsSolvent(w: Wallet, side: Side, price: real, quote: real, c: Costs)
    requires Solvent(w) && Accepted(c) && CostsWithinProceeds(c)
    ensures Solvent(ExecuteTrade(w, side, price, quote, c).wallet)
    ensures ExecuteTrade(w, side, price, quote, c).trade.Some? ==> 0.0 <= ExecuteTrade(w, side, price, quote, c).trade.value.notional <= quote
  {
    if quote > 0.0 && price > 0.0 {
      if c.Book().Some? {
        if side == Buy {
          DepthBuyIsSolvent(w, price, quote, c, c.Book().value);
        } else {
          DepthSellIsSolvent(w, price, quote, c, c.Book().value);
        }
      } else if side == Buy {
        PlainBuyIsSolvent(w, price, quote, c);
      } else {
        PlainSellIsSolvent(w, price, quote, c);
      }
    }
  }

  lemma PositiveSale(base: real, execution: real, quote: real)
    requires base > 0.0 && execution > 0.0 && quote > 0.0
    ensures var amount := Min(base, quote / Max(execution, 0.000000000001));
            amount > 0.0 && Product(amount, execution) > 0.0
  {
    DivIsPositive(quote, Max(execution, 0.000000000001));
    MulIsPositive(Min(base, quote / Max(execution, 0.000000000001)), execution);
  }

  lemma SalePriceIsPositive(price: real, slip: real)
    requires price > 0.0 && slip < 1.0
    ensures Product(price, 1.0 - slip) > 0.0
  {
    MulIsPositive(price, 1.0 - slip);
  }

  lemma SaleHappens(base: real, price: real, quote: real, c: Costs)
    requires Accepted(c) && base > 0.0 && price > 0.0 && quote > 0.0 && c.slippageBps < 10000.0
    ensures PlainSell(Wallet(0.0, base), price, quote, c).trade.Some?
  {
    SalePriceIsPositive(price, c.Slip());
    PositiveSale(base, Product(price, 1.0 - c.Slip()), quote);
  }

  /** The bound is exact: with slippage below 10000 bps, a sale from a wallet without cash overdraws it if
      and only if fee and slippage together exceed 10000 bps. */
  lemma SaleOverdrawsExactlyWhen(base: real, price: real, quote: real, c: Costs)
    requires Accepted(c) && base > 0.0 && price > 0.0 && quote > 0.0 && c.Book().None? && c.slippageBps < 10000.0
    ensures ExecuteTrade(Wallet(0.0, base), Sell, price, quote, c).wallet.cash < 0.0 <==> !CostsWithinProceeds(c)
  {
    SaleHappens(base, price, quote, c);
    NetProceeds(PlainSell(Wallet(0.0, base), price, quote, c).trade.value.notional, c);
  }

  // ---- conservation ----

  /** What a trade of the ledger moves. Slippage is charged separately only without depth, where the
      execution price already contains it as well. */
  function Settle(w: Wallet, t: Trade, c: Costs): Wallet {
    var charged := if c.Book().Some? then t.fee else t.fee + t.slippage;
    if t.side == Buy then Wallet(w.cash - t.notional - charged, w.base + t.amount)
    else Wallet(w.cash + t.notional - charged, w.base - t.amount)
  }

  /** The wallet moves exactly by the ledger entry, with the requested side, in both modes. */
  lemma TradeSettles(w: Wallet, side: Side, price: real, quote: real, c: Costs)
    requires Accepted(c)
    ensures var r := ExecuteTrade(w, side, price, quote, c);
            r.wallet == (if r.trade.Some? then Settle(w, r.trade.value, c) else w) && (r.trade.Some? ==> r.trade.value.side == side)
  {
  }

  lemma QuotientTimes(a: real, b: real)
    requires b != 0.0
    ensures Product(b, a / b) == a && Product(a / b, b) == a
  {
    DivCancels(a, b);
  }

  lemma DepthTradeIsPriced(w: Wallet, side: Side, price: real, quote: real, c: Costs, d: Depth)
    requires Accepted(c) && price > 0.0 && d.quotePerLevel > 0.0 && d.levels > 0
    ensures var r := if side == Buy then DepthBuy(w, price, quote, c, d) else DepthSell(w, price, quote, c, d);
            r.trade.Some? ==> Product(r.trade.value.amount, r.trade.value.price) == r.trade.value.notional
  {
    var r := if side == Buy then DepthBuy(w, price, quote, c, d) else DepthSell(w, price, quote, c, d);
    if r.trade.Some? {
      QuotientTimes(r.trade.value.notional, r.trade.value.amount);
    }
  }

  lemma PlainBuyIsPriced(w: Wallet, price: real, quote: real, c: Costs)
    requires Accepted(c) && price > 0.0
    ensures var r := PlainBuy(w, price, quote, c);
            r.trade.Some? ==> Product(r.trade.value.amount, r.trade.value.price) == r.trade.value.notional
  {
    MulIsPositive(price, 1.0 + c.Slip());
    var r := PlainBuy(w, price, quote, c);
    if r.trade.Some? {
      QuotientTimes(r.trade.value.notional, r.trade.value.price);
    }
  }

  /** Every trade is priced consistently, in both modes: its notional is its amount at its price. */
  lemma NotionalIsAmountAtPrice(w: Wallet, side: Side, price: real, quote: real, c: Costs)
    requires Accepted(c) && ExecuteTrade(w, side, price, quote, c).trade.Some?
    ensures var t := ExecuteTrade(w, side, price, quote, c).trade.value;
            Product(t.amount, t.price) == t.notional
  {
    if c.Book().Some? {
      DepthTradeIsPriced(w, side, price, quote, c, c.Book().value);
    } else if side == Buy {
      PlainBuyIsPriced(w, price, quote, c);
    }
  }
}
