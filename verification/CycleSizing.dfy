/** Sizing one rebalance cycle: a quantity within the quote budget of both books. */
module CycleSizing {
  import opened Numbers
  import opened OrderBook

  datatype Route = Route(asks: seq<BookLevel>, bids: seq<BookLevel>, buyRate: real, sellRate: real, buyFeeBps: real, sellFeeBps: real)

  ghost predicate RouteOk(r: Route) {
    Normalized(r.asks) && Normalized(r.bids) && r.buyRate > 0.0 && r.sellRate > 0.0
  }

  /** The fee factor the budget is divided by; negative fees are ignored here. */
  function BuyFactor(r: Route): real {
    1.0 + Max(0.0, r.buyFeeBps) / 10000.0
  }

  function SellFactor(r: Route): real {
    1.0 - Max(0.0, r.sellFeeBps) / 10000.0
  }

  datatype PlanError = TargetMissing | TargetComplete | CycleMissing | FeeTooHigh | NoDepth

  datatype Sizing = Refused(error: PlanError) | Sized(quantity: real, cycle: real, remaining: real)

  function BuyBudget(r: Route, cycle: real): real
    requires RouteOk(r)
  {
    cycle / r.buyRate / BuyFactor(r)
  }

  function Quantity(r: Route, cycle: real): real
    requires RouteOk(r) && SellFactor(r) > 0.0
  {
    Min(Min(MaxBase(r.asks, BuyBudget(r, cycle)), MaxBase(r.bids, cycle / r.sellRate / SellFactor(r))), AvailableBase(r.bids))
  }

  function SizeCycle(r: Route, total: real, done: real, perCycle: real): Sizing
    requires RouteOk(r)
  {
    var target := Max(0.0, total);
    var remaining := Max(0.0, target - Max(0.0, done));
    var cycle := Min(remaining, Max(0.0, perCycle));
    if target <= 0.0 then Refused(TargetMissing)
    else if remaining <= Max(Product(target, 0.000000000001), 0.000000001) then Refused(TargetComplete)
    else if cycle <= 0.0 then Refused(CycleMissing)
    else if SellFactor(r) <= 0.0 then Refused(FeeTooHigh)
    else if Quantity(r, cycle) <= 0.0 then Refused(NoDepth)
    else Sized(Quantity(r, cycle), cycle, remaining)
  }

  /** What buying a quantity costs in the common currency, fee included. */
  function BuyCost(r: Route, gross: real): real {
    Product(gross + Product(gross, r.buyFeeBps) / 10000.0, r.buyRate)
  }

  lemma WithFee(gross: real, feeBps: real)
    requires gross >= 0.0
    ensures gross + Product(gross, feeBps) / 10000.0 <= Product(gross, 1.0 + Max(0.0, feeBps) / 10000.0)
  {
    MulOrders(feeBps, Max(0.0, feeBps), gross);
    DivOrders(Product(gross, feeBps), Product(gross, Max(0.0, feeBps)), 10000.0);
    MulAdds(gross, 1.0, Max(0.0, feeBps) / 10000.0);
  }

  lemma CostWithinBudget(gross: real, feeBps: real, rate: real, cycle: real, factor: real)
    requires gross >= 0.0 && rate > 0.0 && factor == 1.0 + Max(0.0, feeBps) / 10000.0 && gross <= cycle / rate / factor
    ensures Product(gross + Product(gross, feeBps) / 10000.0, rate) <= cycle
  {
    WithFee(gross, feeBps);
    MulOrders(gross, cycle / rate / factor, factor);
    DivCancels(cycle / rate, factor);
    assert gross + Product(gross, feeBps) / 10000.0 <= cycle / rate;
    MulOrders(gross + Product(gross, feeBps) / 10000.0, cycle / rate, rate);
    DivCancels(cycle, rate);
  }

  /** Whatever quantity up to the sized one is finally bought, fee included it costs no more than the
      cycle budget, which never exceeds what remains of the target; and both books can fill it. */
  lemma CycleStaysInBudget(r: Route, total: real, done: real, perCycle: real, quantity: real)
    requires RouteOk(r)
    requires SizeCycle(r, total, done, perCycle).Sized? && 0.0 < quantity <= SizeCycle(r, total, done, perCycle).quantity
    ensures var s := SizeCycle(r, total, done, perCycle);
            && EstimateFill(r.asks, quantity).Some? && EstimateFill(r.bids, quantity).Some?
            && BuyCost(r, EstimateFill(r.asks, quantity).value) <= s.cycle <= Min(s.remaining, perCycle)
  {
    var s := SizeCycle(r, total, done, perCycle);
    var budget := BuyBudget(r, s.cycle);
    DivIsPositive(s.cycle, r.buyRate);
    DivIsPositive(s.cycle / r.buyRate, BuyFactor(r));
    MaxBaseIsNonnegative(r.asks, budget);
    DepthIsFilled(r.asks, quantity);
    DepthIsFilled(r.bids, quantity);
    BudgetIsNotExceeded(r.asks, budget, quantity);
    WalkIsNonnegative(r.asks, quantity);
    CostWithinBudget(Walk(r.asks, quantity).gross, r.buyFeeBps, r.buyRate, s.cycle, BuyFactor(r));
  }

  lemma ProceedsWithinBudget(gross: real, rate: real, cycle: real, factor: real)
    requires gross >= 0.0 && rate > 0.0 && factor > 0.0 && gross <= cycle / rate / factor
    ensures Product(Product(gross, factor), rate) <= cycle
  {
    MulOrders(gross, cycle / rate / factor, factor);
    DivCancels(cycle / rate, factor);
    MulOrders(Product(gross, factor), cycle / rate, rate);
    DivCancels(cycle, rate);
  }

  /** Selling it brings in, after the fee, no more than the cycle budget either. */
  lemma SaleStaysInBudget(r: Route, total: real, done: real, perCycle: real, quantity: real)
    requires RouteOk(r)
    requires SizeCycle(r, total, done, perCycle).Sized? && 0.0 < quantity <= SizeCycle(r, total, done, perCycle).quantity
    ensures Product(Product(Walk(r.bids, quantity).gross, 1.0 - Max(0.0, r.sellFeeBps) / 10000.0), r.sellRate) <= SizeCycle(r, total, done, perCycle).cycle
  {
    var s := SizeCycle(r, total, done, perCycle);
    var budget := s.cycle / r.sellRate / SellFactor(r);
    DivIsPositive(s.cycle, r.sellRate);
    DivIsPositive(s.cycle / r.sellRate, SellFactor(r));
    BudgetIsNotExceeded(r.bids, budget, quantity);
    WalkIsNonnegative(r.bids, quantity);
    ProceedsWithinBudget(Walk(r.bids, quantity).gross, r.sellRate, s.cycle, SellFactor(r));
  }

  /** The sized quantity is the largest within both budgets and both books: it costs the whole buy budget,
      sells for the whole sell budget, or takes all that one of the books offers. */
  lemma SizedQuantityIsLargest(r: Route, total: real, done: real, perCycle: real)
    requires RouteOk(r) && SizeCycle(r, total, done, perCycle).Sized?
    ensures var s := SizeCycle(r, total, done, perCycle);
            var buyBudget := s.cycle / r.buyRate / (1.0 + Max(0.0, r.buyFeeBps) / 10000.0);
            var sellBudget := s.cycle / r.sellRate / (1.0 - Max(0.0, r.sellFeeBps) / 10000.0);
            || Cost(r.asks, s.quantity) == buyBudget || Cost(r.bids, s.quantity) == sellBudget
            || Cost(r.asks, s.quantity) == AvailableQuote(r.asks) || s.quantity == AvailableBase(r.bids)
            || Cost(r.bids, s.quantity) == AvailableQuote(r.bids)
  {
    var s := SizeCycle(r, total, done, perCycle);
    DivIsPositive(s.cycle, r.buyRate);
    DivIsPositive(s.cycle / r.buyRate, BuyFactor(r));
    DivIsPositive(s.cycle, r.sellRate);
    DivIsPositive(s.cycle / r.sellRate, SellFactor(r));
    MaxBaseInvertsCost(r.asks, BuyBudget(r, s.cycle));
    MaxBaseInvertsCost(r.bids, s.cycle / r.sellRate / SellFactor(r));
  }

  /** A plan is refused exactly when there is no target, nothing is left of it, no quote is allowed per cycle,
      the sale's fee takes everything, or nothing can be traded. */
  lemma SizedExactlyWhen(r: Route, total: real, done: real, perCycle: real)
    requires RouteOk(r)
    ensures var left := Max(0.0, total) - Max(0.0, done);
            SizeCycle(r, total, done, perCycle).Sized? <==>
            && total > 0.0 && left > 0.000000001 && left > Product(total, 0.000000000001) && perCycle > 0.0 && r.sellFeeBps < 10000.0
            && Quantity(r, Min(left, perCycle)) > 0.0
  {
  }
}
