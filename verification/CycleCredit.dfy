/** What an executed cycle is credited with: sized for one quantity, executed for the aligned one. */
module CycleCredit {
  import opened Numbers
  import opened OrderBook
  import opened RebalanceLedger
  import opened Alignment
  import opened LotSteps
  import CycleSizing

  /** A cycle that sizes, aligns and executes: the books and rates it sees, the aligned quantity and its fills. */
  datatype SizedCycle = SizedCycle(
    route: CycleSizing.Route, perCycle: real, aligned: real, fill: FillStatus, reported: CycleStatus, manual: bool, haltOnError: bool)

  ghost function SizingOf(cfg: Config, r: Runtime, c: SizedCycle): CycleSizing.Sizing
    requires CycleSizing.RouteOk(c.route)
  {
    CycleSizing.SizeCycle(c.route, cfg.total, r.quote, c.perCycle)
  }

  /** The plan was built and alignment kept a positive part of its quantity. */
  ghost predicate Executes(cfg: Config, r: Runtime, c: SizedCycle)
    requires CycleSizing.RouteOk(c.route)
  {
    SizingOf(cfg, r, c).Sized? && 0.0 < c.aligned <= SizingOf(cfg, r, c).quantity
  }

  /** What buying a quantity costs in the common currency at the cycle's book, fee included. */
  function CostAt(c: SizedCycle, quantity: real): real {
    CycleSizing.BuyCost(c.route, Walk(c.route.asks, quantity).gross)
  }

  /** The executed plan is that of the aligned quantity, except that it still expects the progress of the
      quantity that was sized. */
  ghost function EnvFor(cfg: Config, r: Runtime, c: SizedCycle): CycleEnv
    requires CycleSizing.RouteOk(c.route)
  {
    if !Executes(cfg, r, c) then NotExecuted(Blocked, true)
    else
      var gross, proceeds := Walk(c.route.asks, c.aligned).gross, Walk(c.route.bids, c.aligned).gross;
      Executed(CostAt(c, SizingOf(cfg, r, c).quantity), c.aligned, gross + Product(gross, c.route.buyFeeBps) / 10000.0,
               proceeds / c.aligned, c.route.sellRate, c.fill, c.reported, c.manual, c.haltOnError)
  }

  function RatioOf(c: SizedCycle): real {
    if c.aligned > 0.0 then Min(1.0, Matched(c.fill) / c.aligned) else 0.0
  }

  // ---- the credit of one cycle ----

  lemma ClampIsIdle(cost: real, ratio: real, remaining: real)
    requires cost <= remaining && 0.0 <= ratio <= 1.0 && remaining >= 0.0
    ensures Min(remaining, Product(Min(remaining, cost), ratio)) == Product(cost, ratio)
  {
    MulOrders(cost, remaining, ratio);
    MulOrders(ratio, 1.0, remaining);
  }

  lemma SizedCostFits(cfg: Config, r: Runtime, c: SizedCycle)
    requires CycleSizing.RouteOk(c.route) && Executes(cfg, r, c)
    ensures var s := SizingOf(cfg, r, c);
            && CostAt(c, s.quantity) <= s.remaining && CostAt(c, c.aligned) <= s.remaining
            && s.remaining == Max(0.0, Max(0.0, cfg.total) - Max(0.0, r.quote))
  {
    CycleSizing.CycleStaysInBudget(c.route, cfg.total, r.quote, c.perCycle, SizingOf(cfg, r, c).quantity);
    CycleSizing.CycleStaysInBudget(c.route, cfg.total, r.quote, c.perCycle, c.aligned);
  }

  /** A balanced cycle is credited with the filled fraction of the sized quantity's cost. */
  lemma CreditIsSizedCost(cfg: Config, r: Runtime, c: SizedCycle)
    requires CycleSizing.RouteOk(c.route) && Executes(cfg, r, c) && !r.halted && !c.fill.hedgeRequired
    ensures Credit(cfg, r, Cycle(EnvFor(cfg, r, c))).quote == Product(CostAt(c, SizingOf(cfg, r, c).quantity), RatioOf(c))
    ensures 0.0 <= RatioOf(c) <= 1.0
  {
    SizedCostFits(cfg, r, c);
    RatioIsFraction(PlanFor(cfg, r, EnvFor(cfg, r, c)), c.fill);
    ClampIsIdle(CostAt(c, SizingOf(cfg, r, c).quantity), RatioOf(c), SizingOf(cfg, r, c).remaining);
  }

  lemma RatioCancels(a: real, b: real, ratio: real)
    ensures Product(a, ratio) == Product(b, ratio) <==> a == b || ratio == 0.0
    ensures a <= b && ratio >= 0.0 ==> Product(a, ratio) <= Product(b, ratio)
  {
    MulAdds(ratio, a - b, b);
    if ratio != 0.0 && a != b {
      MulDivCancels(a - b, ratio);
    }
    if a <= b && ratio >= 0.0 {
      MulOrders(a, b, ratio);
    }
  }

  /** What the aligned quantity's fill cost: the amount the progress counter should grow by. */
  function Spent(c: SizedCycle): real {
    Product(CostAt(c, c.aligned), RatioOf(c))
  }

  lemma BuyCostFactors(c: SizedCycle, gross: real)
    ensures CycleSizing.BuyCost(c.route, gross) == Product(gross, Product(1.0 + c.route.buyFeeBps / 10000.0, c.route.buyRate))
  {
    var fee := c.route.buyFeeBps / 10000.0;
    assert Product(gross, c.route.buyFeeBps) / 10000.0 == Product(gross, fee);
    MulAdds(gross, 1.0, fee);
    MulReorders(gross, 1.0 + fee, c.route.buyRate);
  }

  /** A fee above -100% leaves every purchase with a positive price. */
  predicate FeeLeavesCost(c: SizedCycle) {
    c.route.buyFeeBps > -10000.0
  }

  lemma CostsCompare(c: SizedCycle, x: real, y: real)
    requires CycleSizing.RouteOk(c.route) && FeeLeavesCost(c) && 0.0 <= x <= y <= AvailableBase(c.route.asks)
    ensures CostAt(c, x) <= CostAt(c, y)
    ensures CostAt(c, x) == CostAt(c, y) <==> Filled(c.route.asks, x) == Filled(c.route.asks, y)
  {
    var a, b := Walk(c.route.asks, x).gross, Walk(c.route.asks, y).gross;
    var unit := Product(1.0 + c.route.buyFeeBps / 10000.0, c.route.buyRate);
    CostsAgreeExactlyWhen(c.route.asks, x, y);
    BuyCostFactors(c, a);
    BuyCostFactors(c, b);
    MulIsPositive(1.0 + c.route.buyFeeBps / 10000.0, c.route.buyRate);
    RatioCancels(a, b, unit);
  }

  lemma SizedIsWithinDepth(cfg: Config, r: Runtime, c: SizedCycle)
    requires CycleSizing.RouteOk(c.route) && Executes(cfg, r, c)
    ensures SizingOf(cfg, r, c).quantity <= AvailableBase(c.route.asks)
  {
    var budget := CycleSizing.BuyBudget(c.route, SizingOf(cfg, r, c).cycle);
    DivIsPositive(SizingOf(cfg, r, c).cycle, c.route.buyRate);
    DivIsPositive(SizingOf(cfg, r, c).cycle / c.route.buyRate, CycleSizing.BuyFactor(c.route));
    MaxBaseIsNonnegative(c.route.asks, budget);
  }

  /** The exact condition: a balanced cycle is credited with what its fill cost if and only if nothing was
      filled, or the sized quantity costs no more than the aligned one. It is never credited with less. */
  lemma CreditIsSpentExactlyWhen(cfg: Config, r: Runtime, c: SizedCycle)
    requires CycleSizing.RouteOk(c.route) && Executes(cfg, r, c) && !r.halted && !c.fill.hedgeRequired
    ensures var credit := Credit(cfg, r, Cycle(EnvFor(cfg, r, c))).quote;
            && (credit == Spent(c) <==> RatioOf(c) == 0.0 || CostAt(c, c.aligned) == CostAt(c, SizingOf(cfg, r, c).quantity))
            && (FeeLeavesCost(c) ==> credit >= Spent(c))
  {
    CreditIsSizedCost(cfg, r, c);
    RatioCancels(CostAt(c, c.aligned), CostAt(c, SizingOf(cfg, r, c).quantity), RatioOf(c));
    SizedIsWithinDepth(cfg, r, c);
    if FeeLeavesCost(c) {
      CostsCompare(c, c.aligned, SizingOf(cfg, r, c).quantity);
    }
  }

  /** So every fill after a reduction by more than the book walk's negligible rest is credited with more
      than it cost. */
  lemma ReductionIsOvercredited(cfg: Config, r: Runtime, c: SizedCycle)
    requires CycleSizing.RouteOk(c.route) && Executes(cfg, r, c) && !r.halted && !c.fill.hedgeRequired && FeeLeavesCost(c)
    requires RatioOf(c) > 0.0 && c.aligned + 0.000000000001 < SizingOf(cfg, r, c).quantity
    ensures Credit(cfg, r, Cycle(EnvFor(cfg, r, c))).quote > Spent(c)
  {
    var sized := SizingOf(cfg, r, c).quantity;
    SizedIsWithinDepth(cfg, r, c);
    WalkCostsWhatItFills(c.route.asks, c.aligned);
    WalkCostsWhatItFills(c.route.asks, sized);
    CostsCompare(c, c.aligned, sized);
    CreditIsSpentExactlyWhen(cfg, r, c);
  }

  // ---- whole runs ----

  ghost predicate RoutesOk(cycles: seq<SizedCycle>) {
    forall c :: c in cycles ==> CycleSizing.RouteOk(c.route) && FeeLeavesCost(c)
  }

  lemma RoutesOkSplits(cycles: seq<SizedCycle>)
    requires RoutesOk(cycles) && cycles != []
    ensures RoutesOk(cycles[..|cycles| - 1])
    ensures CycleSizing.RouteOk(cycles[|cycles| - 1].route) && FeeLeavesCost(cycles[|cycles| - 1])
  {
    assert cycles[|cycles| - 1] in cycles;
  }

  /** The runtime after a run of cycles, each sized from the progress so far. */
  ghost function RunCycles(cfg: Config, cycles: seq<SizedCycle>): Runtime
    requires RoutesOk(cycles)
  {
    if cycles == [] then NewRuntime(cfg)
    else
      RoutesOkSplits(cycles);
      var before := RunCycles(cfg, cycles[..|cycles| - 1]);
      Step(cfg, before, Cycle(EnvFor(cfg, before, cycles[|cycles| - 1])))
  }

  ghost predicate Counts(cfg: Config, r: Runtime, c: SizedCycle)
    requires CycleSizing.RouteOk(c.route)
  {
    !r.halted && Executes(cfg, r, c) && !c.fill.hedgeRequired
  }

  /** What the balanced cycles of a run spent at the planned book. Cycles that need a hedge are not in it. */
  ghost function SpentByBalancedCycles(cfg: Config, cycles: seq<SizedCycle>): real
    requires RoutesOk(cycles)
  {
    if cycles == [] then 0.0
    else
      RoutesOkSplits(cycles);
      var before, last := cycles[..|cycles| - 1], cycles[|cycles| - 1];
      SpentByBalancedCycles(cfg, before) + (if Counts(cfg, RunCycles(cfg, before), last) then Spent(last) else 0.0)
  }

  /** No counted cycle filled anything of a quantity that alignment made cheaper. */
  ghost predicate NothingReduced(cfg: Config, cycles: seq<SizedCycle>)
    requires RoutesOk(cycles)
    decreases |cycles|
  {
    cycles == [] ||
    (RoutesOkSplits(cycles);
     var before, last := cycles[..|cycles| - 1], cycles[|cycles| - 1];
     var r := RunCycles(cfg, before);
     NothingReduced(cfg, before)
     && (Counts(cfg, r, last) ==> RatioOf(last) == 0.0 || Filled(last.route.asks, last.aligned) == Filled(last.route.asks, SizingOf(cfg, r, last).quantity)))
  }

  lemma CostIsNonnegative(c: SizedCycle, quantity: real)
    requires CycleSizing.RouteOk(c.route) && FeeLeavesCost(c) && quantity >= 0.0
    ensures CostAt(c, quantity) >= 0.0
  {
    var unit := Product(1.0 + c.route.buyFeeBps / 10000.0, c.route.buyRate);
    WalkIsNonnegative(c.route.asks, quantity);
    BuyCostFactors(c, Walk(c.route.asks, quantity).gross);
    MulIsPositive(1.0 + c.route.buyFeeBps / 10000.0, c.route.buyRate);
    MulIsNonnegative(Walk(c.route.asks, quantity).gross, unit);
  }

  lemma AverageIsNonnegative(levels: seq<BookLevel>, quantity: real)
    requires Normalized(levels) && quantity > 0.0
    ensures Walk(levels, quantity).gross / quantity >= 0.0
  {
    WalkIsNonnegative(levels, quantity);
    DivIsPositive(Walk(levels, quantity).gross, quantity);
  }

  lemma CycleIsSane(cfg: Config, r: Runtime, c: SizedCycle)
    requires CycleSizing.RouteOk(c.route) && FeeLeavesCost(c)
    ensures Sane(Cycle(EnvFor(cfg, r, c)))
  {
    if Executes(cfg, r, c) {
      CostIsNonnegative(c, SizingOf(cfg, r, c).quantity);
      AverageIsNonnegative(c.route.bids, c.aligned);
    }
  }

  lemma CountedStep(cfg: Config, r: Runtime, c: SizedCycle)
    requires CycleSizing.RouteOk(c.route) && FeeLeavesCost(c) && InRange(cfg, r)
    ensures var next, spent := Step(cfg, r, Cycle(EnvFor(cfg, r, c))), if Counts(cfg, r, c) then Spent(c) else 0.0;
            && InRange(cfg, next) && next.quote >= r.quote + spent
            && (next.quote == r.quote + spent <==>
                (Counts(cfg, r, c) ==> RatioOf(c) == 0.0 || Filled(c.route.asks, c.aligned) == Filled(c.route.asks, SizingOf(cfg, r, c).quantity)))
  {
    CycleIsSane(cfg, r, c);
    StepAddsCredit(cfg, r, Cycle(EnvFor(cfg, r, c)));
    if Counts(cfg, r, c) {
      CreditIsSpentExactlyWhen(cfg, r, c);
      SizedIsWithinDepth(cfg, r, c);
      CostsCompare(c, c.aligned, SizingOf(cfg, r, c).quantity);
    }
  }

  /** Over any run the completed total is at least what its balanced cycles spent at the planned book, and
      equal to it if and only if none of them filled a reduced quantity. */
  lemma {:induction false} CompletedIsBalancedSpendExactlyWhen(cfg: Config, cycles: seq<SizedCycle>)
    requires RoutesOk(cycles)
    ensures InRange(cfg, RunCycles(cfg, cycles)) && RunCycles(cfg, cycles).quote >= SpentByBalancedCycles(cfg, cycles)
    ensures RunCycles(cfg, cycles).quote == SpentByBalancedCycles(cfg, cycles) <==> NothingReduced(cfg, cycles)
  {
    if cycles != [] {
      RoutesOkSplits(cycles);
      var n := |cycles| - 1;
      CompletedIsBalancedSpendExactlyWhen(cfg, cycles[..n]);
      CountedStep(cfg, RunCycles(cfg, cycles[..n]), cycles[n]);
    }
  }

  // ---- what all cycles bought ----

  const NEGLIGIBLE_BASE := 0.000000000001

  /** Fills are nonnegative and within the ordered quantity, and a hedge is required exactly when they
      differ by more than a negligible amount. */
  predicate Measured(c: SizedCycle) {
    && 0.0 <= c.fill.buyFilled <= c.aligned && 0.0 <= c.fill.sellFilled
    && (c.fill.hedgeRequired <==> Abs(c.fill.buyFilled - c.fill.sellFilled) > NEGLIGIBLE_BASE)
  }

  function BuyRatio(c: SizedCycle): real {
    if c.aligned > 0.0 then c.fill.buyFilled / c.aligned else 0.0
  }

  /** What the buy leg cost at the planned book, whether or not the sell leg followed. */
  function Purchased(c: SizedCycle): real {
    Product(CostAt(c, c.aligned), BuyRatio(c))
  }

  /** What a negligible amount of base costs at the cycle's average price. */
  function SlackOf(c: SizedCycle): real {
    if c.aligned > 0.0 then Product(CostAt(c, c.aligned), NEGLIGIBLE_BASE / c.aligned) else 0.0
  }

  ghost predicate Trades(cfg: Config, r: Runtime, c: SizedCycle)
    requires CycleSizing.RouteOk(c.route)
  {
    !r.halted && Executes(cfg, r, c)
  }

  /** The purchases of every executed cycle of a run, balanced or not. */
  ghost function Purchases(cfg: Config, cycles: seq<SizedCycle>): real
    requires RoutesOk(cycles)
  {
    if cycles == [] then 0.0
    else
      RoutesOkSplits(cycles);
      var before, last := cycles[..|cycles| - 1], cycles[|cycles| - 1];
      Purchases(cfg, before) + (if Trades(cfg, RunCycles(cfg, before), last) then Purchased(last) else 0.0)
  }

  ghost function Slack(cfg: Config, cycles: seq<SizedCycle>): real
    requires RoutesOk(cycles)
  {
    if cycles == [] then 0.0
    else
      RoutesOkSplits(cycles);
      var before, last := cycles[..|cycles| - 1], cycles[|cycles| - 1];
      Slack(cfg, before) + (if Trades(cfg, RunCycles(cfg, before), last) then SlackOf(last) else 0.0)
  }

  /** No executed cycle of the run requires a hedge. */
  ghost predicate NoHedge(cfg: Config, cycles: seq<SizedCycle>)
    requires RoutesOk(cycles)
    decreases |cycles|
  {
    cycles == [] ||
    (RoutesOkSplits(cycles);
     var before, last := cycles[..|cycles| - 1], cycles[|cycles| - 1];
     NoHedge(cfg, before) && (Trades(cfg, RunCycles(cfg, before), last) ==> !last.fill.hedgeRequired))
  }

  /** No cycle buys more than it sells. */
  predicate SellsWhatItBuys(c: SizedCycle) {
    c.fill.buyFilled <= c.fill.sellFilled
  }

  lemma QuotientsDiffer(x: real, y: real, d: real)
    requires d > 0.0 && x <= y
    ensures x / d <= y / d && y / d - x / d == (y - x) / d
  {
    DivOrders(x, y, d);
    DivAdds(y, -x, d);
  }

  lemma BuyRatioIsFraction(c: SizedCycle)
    requires Measured(c) && c.aligned > 0.0
    ensures 0.0 <= BuyRatio(c) <= 1.0 && RatioOf(c) == Matched(c.fill) / c.aligned
    ensures RatioOf(c) <= BuyRatio(c)
    ensures !c.fill.hedgeRequired ==> BuyRatio(c) <= RatioOf(c) + NEGLIGIBLE_BASE / c.aligned
    ensures SellsWhatItBuys(c) ==> BuyRatio(c) == RatioOf(c)
  {
    MulDivCancels(1.0, c.aligned);
    QuotientsDiffer(Matched(c.fill), c.fill.buyFilled, c.aligned);
    QuotientsDiffer(c.fill.buyFilled, c.aligned, c.aligned);
    DivIsPositive(c.fill.buyFilled, c.aligned);
    if !c.fill.hedgeRequired {
      DivOrders(c.fill.buyFilled - Matched(c.fill), NEGLIGIBLE_BASE, c.aligned);
    }
  }

  lemma SharesOfCost(cost: real, bought: real, ratio: real, slack: real)
    requires cost >= 0.0 && 0.0 <= ratio <= bought <= 1.0 && slack >= 0.0
    ensures Product(cost, bought) <= cost && 0.0 <= Product(cost, ratio) && 0.0 <= Product(cost, slack)
    ensures bought <= ratio + slack ==> Product(cost, bought) <= Product(cost, ratio) + Product(cost, slack)
  {
    MulOrders(bought, 1.0, cost);
    MulIsNonnegative(cost, ratio);
    MulIsNonnegative(cost, slack);
    MulAdds(cost, ratio, slack);
    if bought <= ratio + slack {
      MulOrders(bought, ratio + slack, cost);
    }
  }

  lemma PurchaseIsSpend(c: SizedCycle)
    requires CycleSizing.RouteOk(c.route) && FeeLeavesCost(c) && Measured(c) && c.aligned > 0.0
    ensures Purchased(c) <= CostAt(c, c.aligned) && 0.0 <= Spent(c) && 0.0 <= SlackOf(c)
    ensures !c.fill.hedgeRequired ==> Purchased(c) <= Spent(c) + SlackOf(c)
    ensures SellsWhatItBuys(c) ==> Purchased(c) == Spent(c)
  {
    CostIsNonnegative(c, c.aligned);
    BuyRatioIsFraction(c);
    DivIsPositive(NEGLIGIBLE_BASE, c.aligned);
    DivIsPositive(Matched(c.fill), c.aligned);
    SharesOfCost(CostAt(c, c.aligned), BuyRatio(c), RatioOf(c), NEGLIGIBLE_BASE / c.aligned);
  }

  ghost predicate MeasuredRun(cycles: seq<SizedCycle>, cap: real) {
    cap >= 0.0 && forall c :: c in cycles ==> Measured(c) && c.perCycle <= cap
  }

  lemma MeasuredRunSplits(cycles: seq<SizedCycle>, cap: real)
    requires MeasuredRun(cycles, cap) && cycles != []
    ensures MeasuredRun(cycles[..|cycles| - 1], cap) && Measured(cycles[|cycles| - 1]) && cycles[|cycles| - 1].perCycle <= cap
  {
    assert cycles[|cycles| - 1] in cycles;
  }

  lemma PurchaseFitsCycle(cfg: Config, r: Runtime, c: SizedCycle)
    requires CycleSizing.RouteOk(c.route) && FeeLeavesCost(c) && Measured(c) && Trades(cfg, r, c)
    ensures Purchased(c) <= c.perCycle
  {
    CycleSizing.CycleStaysInBudget(c.route, cfg.total, r.quote, c.perCycle, c.aligned);
    PurchaseIsSpend(c);
  }

  lemma UnbalancedTradeHalts(cfg: Config, r: Runtime, c: SizedCycle)
    requires CycleSizing.RouteOk(c.route) && InRange(cfg, r) && Trades(cfg, r, c) && c.fill.hedgeRequired
    ensures Step(cfg, r, Cycle(EnvFor(cfg, r, c))).halted && Step(cfg, r, Cycle(EnvFor(cfg, r, c))).quote == r.quote
  {
    UnbalancedCycleHalts(cfg, r, EnvFor(cfg, r, c));
  }

  /** In any run, unbalanced cycles included, all purchases exceed the completed total by at most one
      cycle's budget, and by nothing while the run is not halted, up to the negligible amounts that
      count as balanced. */
  lemma {:induction false} PurchasesExceedByAtMostOneCycle(cfg: Config, cycles: seq<SizedCycle>, cap: real)
    requires RoutesOk(cycles) && MeasuredRun(cycles, cap)
    ensures InRange(cfg, RunCycles(cfg, cycles)) && Slack(cfg, cycles) >= 0.0
    ensures var r := RunCycles(cfg, cycles);
            Purchases(cfg, cycles) <= r.quote + Slack(cfg, cycles) + (if r.halted then cap else 0.0)
  {
    if cycles != [] {
      RoutesOkSplits(cycles);
      MeasuredRunSplits(cycles, cap);
      var n := |cycles| - 1;
      var r, c := RunCycles(cfg, cycles[..n]), cycles[n];
      PurchasesExceedByAtMostOneCycle(cfg, cycles[..n], cap);
      CountedStep(cfg, r, c);
      if Trades(cfg, r, c) {
        PurchaseIsSpend(c);
        PurchaseFitsCycle(cfg, r, c);
        if c.fill.hedgeRequired {
          UnbalancedTradeHalts(cfg, r, c);
        }
      }
    }
  }

  /** When no executed cycle requires a hedge, the completed total covers all purchases, up to the
      negligible amounts. */
  lemma {:induction false} CompletedCoversPurchases(cfg: Config, cycles: seq<SizedCycle>, cap: real)
    requires RoutesOk(cycles) && MeasuredRun(cycles, cap) && NoHedge(cfg, cycles)
    ensures Purchases(cfg, cycles) <= SpentByBalancedCycles(cfg, cycles) + Slack(cfg, cycles)
    ensures Purchases(cfg, cycles) <= RunCycles(cfg, cycles).quote + Slack(cfg, cycles)
  {
    CompletedIsBalancedSpendExactlyWhen(cfg, cycles);
    if cycles != [] {
      RoutesOkSplits(cycles);
      MeasuredRunSplits(cycles, cap);
      var n := |cycles| - 1;
      CompletedCoversPurchases(cfg, cycles[..n], cap);
      if Trades(cfg, RunCycles(cfg, cycles[..n]), cycles[n]) {
        PurchaseIsSpend(cycles[n]);
      }
    }
  }

  lemma {:induction false} SoldPurchasesAreSpend(cfg: Config, cycles: seq<SizedCycle>, cap: real)
    requires RoutesOk(cycles) && MeasuredRun(cycles, cap) && NoHedge(cfg, cycles) && forall c :: c in cycles ==> SellsWhatItBuys(c)
    ensures Purchases(cfg, cycles) == SpentByBalancedCycles(cfg, cycles)
  {
    if cycles != [] {
      RoutesOkSplits(cycles);
      MeasuredRunSplits(cycles, cap);
      var n := |cycles| - 1;
      assert cycles[n] in cycles;
      SoldPurchasesAreSpend(cfg, cycles[..n], cap);
      if Trades(cfg, RunCycles(cfg, cycles[..n]), cycles[n]) {
        PurchaseIsSpend(cycles[n]);
      }
    }
  }

  /** When moreover no cycle buys more than it sells, the completed total is at least all purchases, and
      equal to them if and only if no executed cycle filled a reduced quantity. */
  lemma CompletedIsPurchasedExactlyWhen(cfg: Config, cycles: seq<SizedCycle>, cap: real)
    requires RoutesOk(cycles) && MeasuredRun(cycles, cap) && NoHedge(cfg, cycles) && forall c :: c in cycles ==> SellsWhatItBuys(c)
    ensures RunCycles(cfg, cycles).quote >= Purchases(cfg, cycles)
    ensures RunCycles(cfg, cycles).quote == Purchases(cfg, cycles) <==> NothingReduced(cfg, cycles)
  {
    SoldPurchasesAreSpend(cfg, cycles, cap);
    CompletedIsBalancedSpendExactlyWhen(cfg, cycles);
  }

  // ---- a target reported complete with a third of it not bought ----

  const FLAT_ROUTE := CycleSizing.Route([BookLevel(1.0, 100.0)], [BookLevel(1.0, 100.0)], 1.0, 1.0, 0.0, 0.0)

  /** 15 of quote per cycle at price 1, on venues with lots of 10. */
  const LOT_CYCLE := SizedCycle(FLAT_ROUTE, 15.0, 10.0, FillStatus(10.0, 10.0, [], false, None, 0.0), NoFill, false, false)

  /** The same cycle whose buy leg fills and whose sell leg does not. */
  const UNSOLD_CYCLE := LOT_CYCLE.(fill := FillStatus(10.0, 0.0, [], true, Some(Sell), 10.0))

  lemma FlatBook(levels: seq<BookLevel>, x: real)
    requires levels == [BookLevel(1.0, 100.0)] && 0.0 <= x < 100.0
    ensures Normalized(levels) && AvailableBase(levels) == 100.0
    ensures MaxBase(levels, x) == x && Walk(levels, x) == Fill(x, 0.0)
  {
    assert levels[1..] == [];
  }

  lemma UnitBudget(route: CycleSizing.Route, cycle: real)
    requires CycleSizing.RouteOk(route) && route.buyRate == 1.0 && route.sellRate == 1.0 && route.buyFeeBps == 0.0 && route.sellFeeBps == 0.0
    ensures CycleSizing.BuyFactor(route) == 1.0 && CycleSizing.SellFactor(route) == 1.0
    ensures CycleSizing.BuyBudget(route, cycle) == cycle && cycle / route.sellRate / CycleSizing.SellFactor(route) == cycle
  {
  }

  lemma FlatQuantity(route: CycleSizing.Route, cycle: real)
    requires CycleSizing.RouteOk(route) && CycleSizing.SellFactor(route) > 0.0
    requires CycleSizing.BuyBudget(route, cycle) == cycle && cycle / route.sellRate / CycleSizing.SellFactor(route) == cycle
    requires MaxBase(route.asks, cycle) == cycle && MaxBase(route.bids, cycle) == cycle && AvailableBase(route.bids) >= cycle
    ensures CycleSizing.Quantity(route, cycle) == cycle
  {
  }

  lemma FlatSizing(route: CycleSizing.Route, done: real)
    requires CycleSizing.RouteOk(route) && CycleSizing.SellFactor(route) > 0.0 && CycleSizing.Quantity(route, 15.0) == 15.0
    requires done == 0.0 || done == 15.0
    ensures CycleSizing.SizeCycle(route, 30.0, done, 15.0) == CycleSizing.Sized(15.0, 15.0, 30.0 - done)
  {
  }

  /** Venues with lots of 10 align 15 to 10. */
  lemma LotsOfTenAlign(lots: Venues)
    requires lots == Steps(10.0, 10.0, AnyAmount(), AnyAmount())
    ensures AlignFrom(lots, 15.0, 1) == Aligned(10.0, 2)
  {
    assert RoundDown(lots, 15.0) == 10.0 && RoundDown(lots, 10.0) == 10.0;
    assert AlignFrom(lots, 10.0, 2) == Aligned(10.0, 2);
  }

  lemma LotCycleCosts(c: SizedCycle, quantity: real)
    requires c.route == FLAT_ROUTE && 0.0 <= quantity < 100.0
    ensures CostAt(c, quantity) == quantity && FeeLeavesCost(c) && CycleSizing.RouteOk(c.route)
  {
    FlatBook(c.route.asks, quantity);
  }

  /** The cycle is sized at 15 and aligned to 10, and its book charges 1 per unit. */
  ghost predicate BuysTenOfFifteen(c: SizedCycle) {
    && CycleSizing.RouteOk(c.route) && FeeLeavesCost(c) && c.perCycle == 15.0 && c.aligned == 10.0 && !c.manual && !c.haltOnError
    && CostAt(c, 15.0) == 15.0 && CostAt(c, 10.0) == 10.0
    && CycleSizing.SizeCycle(c.route, 30.0, 0.0, 15.0) == CycleSizing.Sized(15.0, 15.0, 30.0)
    && CycleSizing.SizeCycle(c.route, 30.0, 15.0, 15.0) == CycleSizing.Sized(15.0, 15.0, 15.0)
  }

  /** Unit rates, no fees, and books that sell and buy 15 at price 1. */
  ghost predicate FlatRoute(route: CycleSizing.Route) {
    && CycleSizing.RouteOk(route) && route.buyRate == 1.0 && route.sellRate == 1.0 && route.buyFeeBps == 0.0 && route.sellFeeBps == 0.0
    && MaxBase(route.asks, 15.0) == 15.0 && MaxBase(route.bids, 15.0) == 15.0 && AvailableBase(route.bids) >= 15.0
  }

  lemma FlatRouteSizes(route: CycleSizing.Route)
    requires FlatRoute(route)
    ensures CycleSizing.SizeCycle(route, 30.0, 0.0, 15.0) == CycleSizing.Sized(15.0, 15.0, 30.0)
    ensures CycleSizing.SizeCycle(route, 30.0, 15.0, 15.0) == CycleSizing.Sized(15.0, 15.0, 15.0)
  {
    UnitBudget(route, 15.0);
    FlatQuantity(route, 15.0);
    FlatSizing(route, 0.0);
    FlatSizing(route, 15.0);
  }

  lemma BooksAreFlat(route: CycleSizing.Route)
    requires route == FLAT_ROUTE
    ensures FlatRoute(route)
  {
    FlatBook(route.asks, 15.0);
    FlatBook(route.bids, 15.0);
  }

  lemma LotCycleBuysTen(c: SizedCycle)
    requires c.route == FLAT_ROUTE && c.perCycle == 15.0 && c.aligned == 10.0 && !c.manual && !c.haltOnError
    ensures BuysTenOfFifteen(c)
  {
    LotCycleCosts(c, 15.0);
    LotCycleCosts(c, 10.0);
    BooksAreFlat(c.route);
    FlatRouteSizes(c.route);
  }

  /** Both legs fill whole. */
  predicate FillsWhole(c: SizedCycle) {
    !c.fill.hedgeRequired && RatioOf(c) == 1.0 && BuyRatio(c) == 1.0
  }

  lemma WholeRatios(c: SizedCycle)
    requires c.aligned == 10.0
    ensures c.fill.buyFilled == 10.0 ==> BuyRatio(c) == 1.0
    ensures c.fill.buyFilled == 10.0 && c.fill.sellFilled == 10.0 ==> RatioOf(c) == 1.0
  {
  }

  lemma LotCycleIsFilled(c: SizedCycle)
    requires c == LOT_CYCLE
    ensures c.route == FLAT_ROUTE && c.perCycle == 15.0 && c.aligned == 10.0 && !c.manual && !c.haltOnError
    ensures FillsWhole(c)
  {
    WholeRatios(c);
  }

  lemma CreditsFifteen(cfg: Config, r: Runtime, c: SizedCycle)
    requires BuysTenOfFifteen(c) && FillsWhole(c) && cfg.total == 30.0 && (r.quote == 0.0 || r.quote == 15.0) && InRange(cfg, r) && !r.halted
    ensures Counts(cfg, r, c) && Spent(c) == 10.0 && Trades(cfg, r, c) && Purchased(c) == 10.0
    ensures var next := Step(cfg, r, Cycle(EnvFor(cfg, r, c)));
            next.quote == r.quote + 15.0 && InRange(cfg, next)
  {
    CycleIsSane(cfg, r, c);
    CreditIsSizedCost(cfg, r, c);
    StepAddsCredit(cfg, r, Cycle(EnvFor(cfg, r, c)));
  }

  lemma FilledTargetIsComplete(cfg: Config, r: Runtime, c: SizedCycle)
    requires BuysTenOfFifteen(c) && !c.fill.hedgeRequired && !r.halted && cfg.total == 30.0
    ensures var next := Step(cfg, r, Cycle(EnvFor(cfg, r, c)));
            !next.halted && (next.quote == 30.0 ==> next.status == Complete)
  {
  }

  lemma OneMoreCycle(cfg: Config, cycles: seq<SizedCycle>, c: SizedCycle)
    requires RoutesOk(cycles) && CycleSizing.RouteOk(c.route) && FeeLeavesCost(c)
    ensures RoutesOk(cycles + [c])
    ensures RunCycles(cfg, cycles + [c]) == Step(cfg, RunCycles(cfg, cycles), Cycle(EnvFor(cfg, RunCycles(cfg, cycles), c)))
    ensures SpentByBalancedCycles(cfg, cycles + [c]) == SpentByBalancedCycles(cfg, cycles) + (if Counts(cfg, RunCycles(cfg, cycles), c) then Spent(c) else 0.0)
    ensures Purchases(cfg, cycles + [c]) == Purchases(cfg, cycles) + (if Trades(cfg, RunCycles(cfg, cycles), c) then Purchased(c) else 0.0)
  {
    assert (cycles + [c])[..|cycles|] == cycles;
  }

  lemma TwoCyclesComplete(cfg: Config, c: SizedCycle)
    requires BuysTenOfFifteen(c) && FillsWhole(c) && cfg.total == 30.0
    ensures RoutesOk([] + [c] + [c])
    ensures RunCycles(cfg, [] + [c] + [c]).quote == 30.0 && RunCycles(cfg, [] + [c] + [c]).status == Complete
    ensures SpentByBalancedCycles(cfg, [] + [c] + [c]) == 20.0 && Purchases(cfg, [] + [c] + [c]) == 20.0
  {
    var one := [] + [c];
    CreditsFifteen(cfg, NewRuntime(cfg), c);
    FilledTargetIsComplete(cfg, NewRuntime(cfg), c);
    OneMoreCycle(cfg, [], c);
    CreditsFifteen(cfg, RunCycles(cfg, one), c);
    FilledTargetIsComplete(cfg, RunCycles(cfg, one), c);
    OneMoreCycle(cfg, one, c);
  }

  /** A target of 30 is reported complete after two such cycles that bought 20. */
  lemma TargetCompletesWithLessBought(cfg: Config, c: SizedCycle)
    requires c == LOT_CYCLE && cfg.total == 30.0
    ensures RoutesOk([] + [c] + [c])
    ensures RunCycles(cfg, [] + [c] + [c]).quote == 30.0 && RunCycles(cfg, [] + [c] + [c]).status == Complete
    ensures SpentByBalancedCycles(cfg, [] + [c] + [c]) == 20.0 && Purchases(cfg, [] + [c] + [c]) == 20.0
    ensures AlignFrom(Steps(10.0, 10.0, AnyAmount(), AnyAmount()), 15.0, 1) == Aligned(c.aligned, 2)
  {
    LotsOfTenAlign(Steps(10.0, 10.0, AnyAmount(), AnyAmount()));
    LotCycleIsFilled(c);
    LotCycleBuysTen(c);
    TwoCyclesComplete(cfg, c);
  }

  /** The buy leg fills whole and the sell leg not at all. */
  predicate BuysWithoutSelling(c: SizedCycle) {
    Measured(c) && c.fill.hedgeRequired && BuyRatio(c) == 1.0 && c.perCycle == 15.0
  }

  lemma UnsoldCycleBuys(c: SizedCycle)
    requires c == UNSOLD_CYCLE
    ensures c.route == FLAT_ROUTE && c.aligned == 10.0 && !c.manual && !c.haltOnError && BuysWithoutSelling(c)
  {
    WholeRatios(c);
  }

  lemma OnePurchase(cfg: Config, c: SizedCycle)
    requires CycleSizing.RouteOk(c.route) && FeeLeavesCost(c)
    ensures RoutesOk([c]) && RunCycles(cfg, [c]) == Step(cfg, NewRuntime(cfg), Cycle(EnvFor(cfg, NewRuntime(cfg), c)))
    ensures Purchases(cfg, [c]) == if Trades(cfg, NewRuntime(cfg), c) then Purchased(c) else 0.0
  {
    assert [c][..0] == [];
  }

  lemma BuysTen(cfg: Config, r: Runtime, c: SizedCycle)
    requires BuysTenOfFifteen(c) && BuysWithoutSelling(c) && cfg.total == 30.0 && r == NewRuntime(cfg)
    ensures Trades(cfg, r, c) && InRange(cfg, r) && Purchased(c) == 10.0
  {
  }

  lemma UnsoldRunBuysTen(cfg: Config, c: SizedCycle)
    requires BuysTenOfFifteen(c) && BuysWithoutSelling(c) && cfg.total == 30.0
    ensures RoutesOk([c]) && MeasuredRun([c], 15.0)
    ensures RunCycles(cfg, [c]).quote == 0.0 && RunCycles(cfg, [c]).halted && Purchases(cfg, [c]) == 10.0
  {
    BuysTen(cfg, NewRuntime(cfg), c);
    OnePurchase(cfg, c);
    UnbalancedTradeHalts(cfg, NewRuntime(cfg), c);
  }

  /** Without the condition on hedges the completed total may be below what was bought: a first cycle that
      buys 10 and sells nothing halts the run with nothing completed. */
  lemma UnsoldPurchaseIsNotCompleted(cfg: Config, c: SizedCycle)
    requires c == UNSOLD_CYCLE && cfg.total == 30.0
    ensures RoutesOk([c]) && MeasuredRun([c], 15.0)
    ensures RunCycles(cfg, [c]).quote == 0.0 && RunCycles(cfg, [c]).halted && Purchases(cfg, [c]) == 10.0
  {
    UnsoldCycleBuys(c);
    LotCycleBuysTen(c);
    UnsoldRunBuysTen(cfg, c);
  }
}
