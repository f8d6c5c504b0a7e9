/** Building the symmetric ladder: level distances, budget by level, inventory skew. */
module MarketMaking {
  import opened Numbers
  import opened LadderMatching
  import opened MarketMaker
  import opened MarketMakerRun

  datatype DepthShape = Flat | Linear | OtherShape

  datatype LadderConfig = LadderConfig(
    levels: int, priceBandPct: real, quotePerLevel: real, minOrderQuote: real, minDistanceBps: real, depthShape: DepthShape,
    inventoryControl: bool, inventoryTarget: real, inventoryBand: real, inventoryMaxDeviation: real)

  datatype BuildError = BadConfig | UnusableBook | ZeroPrice

  datatype BuildResult = Built(mid: real, orders: seq<Row>) | Failed(error: BuildError)

  /** The distance of one level from the next, as a fraction of mid. */
  function StepPct(cfg: LadderConfig): real
    requires cfg.levels > 0
  {
    cfg.priceBandPct / (cfg.levels as real) / 100.0
  }

  function ActiveLevels(count: nat, step: real, minDistanceBps: real): seq<Level> {
    if count == 0 then []
    else ActiveLevels(count - 1, step, minDistanceBps)
         + (if Product(step, count as real) * BPS >= minDistanceBps then [count as Level] else [])
  }

  // ---- budget by level ----

  /** The linear weights 1, 2, ..., n of n active levels. */
  function Weights(n: nat): seq<real> {
    if n == 0 then [] else Weights(n - 1) + [n as real]
  }

  /** Each level gets the base plus its weight's share of the extra budget. */
  function Sized(ws: seq<real>, base: real, extra: real, total: real): seq<real>
    requires total != 0.0
  {
    if ws == [] then [] else Sized(ws[..|ws| - 1], base, extra, total) + [base + Share(extra, ws[|ws| - 1], total)]
  }

  function QuoteByLevel(n: nat, cfg: LadderConfig): seq<real> {
    if n == 0 then []
    else
      var ws, total, floor := Weights(n), Product(cfg.quotePerLevel, n as real), Product(cfg.minOrderQuote, n as real);
      WeightsArePositive(n);
      if cfg.depthShape == Flat then Sized(ws, cfg.quotePerLevel, 0.0, Sum(ws))
      else if cfg.minOrderQuote > 0.0 && total >= floor then Sized(ws, cfg.minOrderQuote, total - floor, Sum(ws))
      else Sized(ws, 0.0, total, Sum(ws))
  }

  lemma {:induction false} WeightsArePositive(n: nat)
    ensures |Weights(n)| == n && (forall i :: 0 <= i < n ==> Weights(n)[i] == (i + 1) as real)
    ensures n > 0 ==> Sum(Weights(n)) > 0.0
    ensures Sum(Weights(n)) >= 0.0
  {
    if n > 0 {
      WeightsArePositive(n - 1);
      SumAppend(Weights(n - 1), n as real);
    }
  }

  lemma {:induction false} SizedIs(ws: seq<real>, base: real, extra: real, total: real)
    requires total != 0.0
    ensures |Sized(ws, base, extra, total)| == |ws|
    ensures forall i :: 0 <= i < |ws| ==> Sized(ws, base, extra, total)[i] == base + Share(extra, ws[i], total)
  {
    if ws != [] {
      SizedIs(ws[..|ws| - 1], base, extra, total);
    }
  }

  lemma SizedStep(base: real, n: real, extra: real, s: real, w: real, total: real)
    requires total != 0.0
    ensures Product(base, n + 1.0) + Share(extra, s + w, total)
         == Product(base, n) + Share(extra, s, total) + (base + Share(extra, w, total))
  {
    MulAdds(extra, s, w);
    DivAdds(extra * s, extra * w, total);
  }

  lemma {:induction false} SizedSum(ws: seq<real>, base: real, extra: real, total: real, count: real)
    requires total != 0.0 && count == |ws| as real
    ensures Sum(Sized(ws, base, extra, total)) == Product(base, count) + Share(extra, Sum(ws), total)
  {
    if ws != [] {
      var n := |ws| - 1;
      SizedSum(ws[..n], base, extra, total, count - 1.0);
      SumAppend(Sized(ws[..n], base, extra, total), base + Share(extra, ws[n], total));
      SizedStep(base, count - 1.0, extra, Sum(ws[..n]), ws[n], total);
    }
  }

  lemma WholeShare(extra: real, total: real)
    requires total != 0.0
    ensures Share(extra, total, total) == extra
    ensures Share(0.0, total, total) == 0.0
  {
  }

  lemma SizedSpends(ws: seq<real>, base: real, extra: real, count: real)
    requires Sum(ws) != 0.0 && count == |ws| as real
    ensures |Sized(ws, base, extra, Sum(ws))| == |ws|
    ensures Sum(Sized(ws, base, extra, Sum(ws))) == Product(base, count) + extra
  {
    SizedIs(ws, base, extra, Sum(ws));
    SizedSum(ws, base, extra, Sum(ws), count);
    WholeShare(extra, Sum(ws));
  }

  /** Sizing spends exactly the configured budget, in either depth shape. */
  lemma SizingConservesBudget(n: nat, cfg: LadderConfig)
    requires cfg.depthShape != OtherShape
    ensures |QuoteByLevel(n, cfg)| == n
    ensures Sum(QuoteByLevel(n, cfg)) == Product(cfg.quotePerLevel, n as real)
  {
    if n > 0 {
      var ws, count := Weights(n), n as real;
      WeightsArePositive(n);
      var total, floor := Product(cfg.quotePerLevel, count), Product(cfg.minOrderQuote, count);
      SizedSpends(ws, cfg.quotePerLevel, 0.0, count);
      SizedSpends(ws, cfg.minOrderQuote, total - floor, count);
      SizedSpends(ws, 0.0, total, count);
    }
  }

  lemma ShareOrders(extra: real, a: real, b: real, total: real)
    requires extra >= 0.0 && 0.0 <= a <= b && total > 0.0
    ensures 0.0 <= Share(extra, a, total) <= Share(extra, b, total)
  {
    MulIsNonnegative(extra, a);
    MulOrders(a, b, extra);
    DivIsPositive(extra * a, total);
    DivOrders(extra * a, extra * b, total);
  }

  lemma SizedIsMonotone(ws: seq<real>, base: real, extra: real)
    requires extra >= 0.0 && Sum(ws) > 0.0
    requires forall i, j :: 0 <= i <= j < |ws| ==> 0.0 <= ws[i] <= ws[j]
    ensures var s := Sized(ws, base, extra, Sum(ws));
            |s| == |ws| && (forall i, j :: 0 <= i <= j < |s| ==> s[i] <= s[j]) && (forall i :: 0 <= i < |s| ==> s[i] >= base)
  {
    var s := Sized(ws, base, extra, Sum(ws));
    SizedIs(ws, base, extra, Sum(ws));
    forall i, j | 0 <= i <= j < |s|
      ensures base <= s[i] <= s[j]
    {
      ShareOrders(extra, ws[i], ws[j], Sum(ws));
    }
  }

  lemma ProductOrders(a: real, b: real, count: real)
    requires count >= 0.0
    ensures a <= b ==> Product(a, count) <= Product(b, count)
    ensures a >= 0.0 ==> Product(a, count) >= 0.0
  {
    if a <= b {
      MulOrders(a, b, count);
    }
    if a >= 0.0 {
      MulIsNonnegative(a, count);
    }
  }

  /** Levels further from mid never get less, and no level falls under the minimum order when the
      budget covers it. */
  lemma SizingIsMonotoneAndCoversMinimum(n: nat, cfg: LadderConfig)
    requires cfg.depthShape != OtherShape && cfg.quotePerLevel >= 0.0
    ensures |QuoteByLevel(n, cfg)| == n
    ensures forall i, j :: 0 <= i <= j < n ==> QuoteByLevel(n, cfg)[i] <= QuoteByLevel(n, cfg)[j]
    ensures cfg.minOrderQuote > 0.0 && cfg.quotePerLevel >= cfg.minOrderQuote ==>
              forall i :: 0 <= i < n ==> QuoteByLevel(n, cfg)[i] >= cfg.minOrderQuote
  {
    if n > 0 {
      var ws, count := Weights(n), n as real;
      var total, floor := Product(cfg.quotePerLevel, count), Product(cfg.minOrderQuote, count);
      WeightsArePositive(n);
      ProductOrders(cfg.minOrderQuote, cfg.quotePerLevel, count);
      ProductOrders(cfg.quotePerLevel, cfg.quotePerLevel, count);
      SizedIsMonotone(ws, cfg.quotePerLevel, 0.0);
      SizedIsMonotone(ws, 0.0, total);
      if total >= floor {
        SizedIsMonotone(ws, cfg.minOrderQuote, total - floor);
      }
    }
  }

  // ---- inventory skew ----

  datatype Multipliers = Multipliers(buy: real, sell: real)

  function InventoryMultipliers(cfg: LadderConfig, inventory: Option<real>): Multipliers {
    if !cfg.inventoryControl || inventory.None? then Multipliers(1.0, 1.0)
    else
      var deviation := inventory.value - cfg.inventoryTarget;
      var band, most, distance := Max(0.0, cfg.inventoryBand), Max(0.0, cfg.inventoryMaxDeviation), Abs(deviation);
      var skew := if distance <= band then 0.0
                  else if most > band then Min(1.0, (distance - band) / (most - band))
                  else 1.0;
      if deviation > 0.0 then Multipliers(Max(0.0, 1.0 - skew), 1.0 + skew)
      else if deviation < 0.0 then Multipliers(1.0 + skew, Max(0.0, 1.0 - skew))
      else Multipliers(1.0, 1.0)
  }

  /** The skew moves budget between the sides and never creates or destroys any; it leans against
      the deviation, and inside the band it does nothing. */
  lemma SkewKeepsTotal(cfg: LadderConfig, inventory: Option<real>)
    ensures var m := InventoryMultipliers(cfg, inventory);
            && m.buy + m.sell == 2.0 && 0.0 <= m.buy <= 2.0 && 0.0 <= m.sell <= 2.0
            && (inventory.Some? && inventory.value > cfg.inventoryTarget ==> m.buy <= 1.0)
            && (inventory.Some? && inventory.value < cfg.inventoryTarget ==> m.sell <= 1.0)
            && (inventory.Some? && Abs(inventory.value - cfg.inventoryTarget) <= cfg.inventoryBand ==> m == Multipliers(1.0, 1.0))
            && (inventory.Some? && cfg.inventoryControl && Abs(inventory.value - cfg.inventoryTarget) > Max(0.0, cfg.inventoryBand)
                ==> m != Multipliers(1.0, 1.0))
  {
    if inventory.Some? {
      var distance, band, most := Abs(inventory.value - cfg.inventoryTarget), Max(0.0, cfg.inventoryBand), Max(0.0, cfg.inventoryMaxDeviation);
      if distance > band && most > band {
        DivIsPositive(distance - band, most - band);
      }
    }
  }

  // ---- the ladder ----

  function PriceAt(side: Side, mid: real, distance: real): real {
    if side == Buy then mid * (1.0 - distance) else mid * (1.0 + distance)
  }

  function OrderAt(side: Side, level: Level, mid: real, step: real, quote: real): Row {
    var price := PriceAt(side, mid, Product(step, level as real));
    Row(side, level, price, if price == 0.0 then 0.0 else quote / price, quote)
  }

  function LevelOrders(level: Level, mid: real, step: real, quote: real, m: Multipliers, minimum: real): seq<Row> {
    var buyQuote, sellQuote := Product(quote, m.buy), Product(quote, m.sell);
    (if buyQuote < minimum then [] else [OrderAt(Buy, level, mid, step, buyQuote)])
    + (if sellQuote < minimum then [] else [OrderAt(Sell, level, mid, step, sellQuote)])
  }

  function Ladder(levels: seq<Level>, quotes: seq<real>, mid: real, step: real, m: Multipliers, minimum: real): seq<Row>
    requires |levels| == |quotes|
  {
    if levels == [] then []
    else
      var n := |levels| - 1;
      Ladder(levels[..n], quotes[..n], mid, step, m, minimum) + LevelOrders(levels[n], mid, step, quotes[n], m, minimum)
  }

  ghost predicate HasZeroPrice(rows: seq<Row>) {
    exists o :: o in rows && o.price == 0.0
  }

  /** The level lies 100% from mid and its bid is not dropped. */
  predicate BidIsZero(level: Level, step: real, quote: real, m: Multipliers, minimum: real) {
    Product(step, level as real) == 1.0 && Product(quote, m.buy) >= minimum
  }

  lemma PriceIsZeroExactlyWhen(side: Side, mid: real, d: real)
    requires mid > 0.0 && d >= 0.0
    ensures PriceAt(side, mid, d) == 0.0 <==> side == Buy && d == 1.0
  {
    MulKeepsSign(1.0 - d, mid);
    MulKeepsSign(d - 1.0, mid);
    MulIsPositive(mid, 1.0 + d);
  }

  lemma LevelHasZeroPrice(level: Level, mid: real, step: real, quote: real, m: Multipliers, minimum: real)
    requires mid > 0.0 && step > 0.0
    ensures HasZeroPrice(LevelOrders(level, mid, step, quote, m, minimum)) <==> BidIsZero(level, step, quote, m, minimum)
  {
    var orders, bid := LevelOrders(level, mid, step, quote, m, minimum), OrderAt(Buy, level, mid, step, Product(quote, m.buy));
    MulIsNonnegative(step, level as real);
    PriceIsZeroExactlyWhen(Buy, mid, Product(step, level as real));
    PriceIsZeroExactlyWhen(Sell, mid, Product(step, level as real));
    if BidIsZero(level, step, quote, m, minimum) {
      assert orders[0] == bid && bid in orders;
    }
  }

  ghost predicate SomeBidIsZero(levels: seq<Level>, quotes: seq<real>, step: real, m: Multipliers, minimum: real)
    requires |levels| == |quotes|
  {
    exists n :: 0 <= n < |levels| && BidIsZero(levels[n], step, quotes[n], m, minimum)
  }

  /** A ladder holds a zero price if and only if an active level lies 100% from mid and keeps its bid. */
  lemma {:induction false} LadderHasZeroPriceExactlyWhen(levels: seq<Level>, quotes: seq<real>, mid: real, step: real, m: Multipliers, minimum: real)
    requires |levels| == |quotes| && mid > 0.0 && step > 0.0
    ensures HasZeroPrice(Ladder(levels, quotes, mid, step, m, minimum)) <==> SomeBidIsZero(levels, quotes, step, m, minimum)
  {
    if levels != [] {
      var n := |levels| - 1;
      LadderHasZeroPriceExactlyWhen(levels[..n], quotes[..n], mid, step, m, minimum);
      LevelHasZeroPrice(levels[n], mid, step, quotes[n], m, minimum);
      ZeroPriceInEither(Ladder(levels[..n], quotes[..n], mid, step, m, minimum), LevelOrders(levels[n], mid, step, quotes[n], m, minimum));
      SomeBidSplits(levels, quotes, step, m, minimum);
    }
  }

  lemma ZeroPriceInEither(a: seq<Row>, b: seq<Row>)
    ensures HasZeroPrice(a + b) <==> HasZeroPrice(a) || HasZeroPrice(b)
  {
  }

  lemma SomeBidSplits(levels: seq<Level>, quotes: seq<real>, step: real, m: Multipliers, minimum: real)
    requires |levels| == |quotes| > 0
    ensures var n := |levels| - 1;
            SomeBidIsZero(levels, quotes, step, m, minimum)
            <==> SomeBidIsZero(levels[..n], quotes[..n], step, m, minimum) || BidIsZero(levels[n], step, quotes[n], m, minimum)
  {
    var n := |levels| - 1;
    if SomeBidIsZero(levels[..n], quotes[..n], step, m, minimum) {
      var k :| 0 <= k < n && BidIsZero(levels[..n][k], step, quotes[..n][k], m, minimum);
      assert BidIsZero(levels[k], step, quotes[k], m, minimum);
    }
    if SomeBidIsZero(levels, quotes, step, m, minimum) {
      var k :| 0 <= k < |levels| && BidIsZero(levels[k], step, quotes[k], m, minimum);
      assert k < n ==> BidIsZero(levels[..n][k], step, quotes[..n][k], m, minimum);
    }
  }

  /** The two orders of one level, in the source's order; a zero price cannot be turned into an amount. */
  method AppendLevel(before: seq<Row>, level: Level, mid: real, step: real, quote: real, m: Multipliers, minimum: real)
    returns (orders: seq<Row>, ok: bool)
    ensures ok <==> !HasZeroPrice(LevelOrders(level, mid, step, quote, m, minimum))
    ensures ok ==> orders == before + LevelOrders(level, mid, step, quote, m, minimum)
  {
    orders, ok := before, true;
    ghost var all := LevelOrders(level, mid, step, quote, m, minimum);
    var buyQuote, sellQuote := Product(quote, m.buy), Product(quote, m.sell);
    if buyQuote >= minimum {
      var order := OrderAt(Buy, level, mid, step, buyQuote);
      if order.price == 0.0 {
        assert all[0] == order;
        return orders, false;
      }
      orders := orders + [order];
    }
    if sellQuote >= minimum {
      var order := OrderAt(Sell, level, mid, step, sellQuote);
      if order.price == 0.0 {
        assert all[|all| - 1] == order;
        return orders, false;
      }
      orders := orders + [order];
    }
  }

  predicate ConfigOk(cfg: LadderConfig) {
    cfg.levels > 0 && cfg.priceBandPct > 0.0 && cfg.quotePerLevel > 0.0 && cfg.depthShape != OtherShape
  }

  predicate BookOk(bestBid: Option<real>, bestAsk: Option<real>) {
    bestBid.Some? && bestAsk.Some? && 0.0 < bestBid.value < bestAsk.value
  }

  lemma StepIsPositive(cfg: LadderConfig)
    requires ConfigOk(cfg)
    ensures StepPct(cfg) > 0.0
  {
    DivIsPositive(cfg.priceBandPct, cfg.levels as real);
  }

  /** Each outcome occurs exactly when the configuration, the book and the levels say so. */
  method BuildLadder(cfg: LadderConfig, bestBid: Option<real>, bestAsk: Option<real>, inventory: Option<real>) returns (r: BuildResult)
    ensures r == Failed(BadConfig) <==> cfg.levels <= 0 || cfg.priceBandPct <= 0.0 || cfg.quotePerLevel <= 0.0 || cfg.depthShape == OtherShape
    ensures r == Failed(UnusableBook) <==>
            r != Failed(BadConfig) && (bestBid.None? || bestAsk.None? || bestBid.value <= 0.0 || bestAsk.value <= 0.0 || bestBid.value >= bestAsk.value)
    ensures ConfigOk(cfg) && BookOk(bestBid, bestAsk) ==>
              var levels, mid, m := ActiveLevels(cfg.levels, StepPct(cfg), cfg.minDistanceBps), (bestBid.value + bestAsk.value) / 2.0,
                                    InventoryMultipliers(cfg, inventory);
              && |QuoteByLevel(|levels|, cfg)| == |levels| && bestBid.value < mid < bestAsk.value
              && var quotes := QuoteByLevel(|levels|, cfg);
                 r == (if SomeBidIsZero(levels, quotes, StepPct(cfg), m, cfg.minOrderQuote) then Failed(ZeroPrice)
                       else Built(mid, Ladder(levels, quotes, mid, StepPct(cfg), m, cfg.minOrderQuote)))
    ensures r.Built? ==> !HasZeroPrice(r.orders)
  {
    if cfg.levels <= 0 || cfg.priceBandPct <= 0.0 || cfg.quotePerLevel <= 0.0 || cfg.depthShape == OtherShape {
      return Failed(BadConfig);
    }
    if bestBid.None? || bestAsk.None? || bestBid.value <= 0.0 || bestAsk.value <= 0.0 || bestBid.value >= bestAsk.value {
      return Failed(UnusableBook);
    }
    var mid, step := (bestBid.value + bestAsk.value) / 2.0, StepPct(cfg);
    StepIsPositive(cfg);
    var levels := SelectActiveLevels(cfg.levels, step, cfg.minDistanceBps);
    var quotes := QuoteByLevel(|levels|, cfg);
    SizingConservesBudget(|levels|, cfg);
    var m := InventoryMultipliers(cfg, inventory);
    var orders, ok := BuildOrders(levels, quotes, mid, step, m, cfg.minOrderQuote);
    LadderHasZeroPriceExactlyWhen(levels, quotes, mid, step, m, cfg.minOrderQuote);
    r := if ok then Built(mid, orders) else Failed(ZeroPrice);
  }

  /** The loop over the active levels; it stops at the first zero price. */
  method BuildOrders(levels: seq<Level>, quotes: seq<real>, mid: real, step: real, m: Multipliers, minimum: real)
    returns (orders: seq<Row>, ok: bool)
    requires |levels| == |quotes|
    ensures ok <==> !HasZeroPrice(Ladder(levels, quotes, mid, step, m, minimum))
    ensures ok ==> orders == Ladder(levels, quotes, mid, step, m, minimum)
  {
    orders, ok := [], true;
    for n := 0 to |levels|
      invariant ok && orders == Ladder(levels[..n], quotes[..n], mid, step, m, minimum) && !HasZeroPrice(orders)
    {
      assert levels[..n + 1][..n] == levels[..n] && quotes[..n + 1][..n] == quotes[..n];
      ZeroPriceInEither(orders, LevelOrders(levels[n], mid, step, quotes[n], m, minimum));
      orders, ok := AppendLevel(orders, levels[n], mid, step, quotes[n], m, minimum);
      if !ok {
        ZeroPriceStays(levels, quotes, n + 1, mid, step, m, minimum);
        return;
      }
    }
    assert levels[..|levels|] == levels && quotes[..|quotes|] == quotes;
  }

  lemma {:induction false} ZeroPriceStays(levels: seq<Level>, quotes: seq<real>, n: nat, mid: real, step: real, m: Multipliers, minimum: real)
    requires |levels| == |quotes| && n <= |levels|
    requires HasZeroPrice(Ladder(levels[..n], quotes[..n], mid, step, m, minimum))
    ensures HasZeroPrice(Ladder(levels, quotes, mid, step, m, minimum))
  {
    var last := |levels| - 1;
    if n == |levels| {
      assert levels[..n] == levels && quotes[..n] == quotes;
    } else {
      assert levels[..last][..n] == levels[..n] && quotes[..last][..n] == quotes[..n];
      ZeroPriceStays(levels[..last], quotes[..last], n, mid, step, m, minimum);
      ZeroPriceInEither(Ladder(levels[..last], quotes[..last], mid, step, m, minimum), LevelOrders(levels[last], mid, step, quotes[last], m, minimum));
    }
  }

  method SelectActiveLevels(count: nat, step: real, minDistanceBps: real) returns (levels: seq<Level>)
    ensures levels == ActiveLevels(count, step, minDistanceBps)
  {
    levels := [];
    for level := 1 to count + 1
      invariant levels == ActiveLevels(level - 1, step, minDistanceBps)
    {
      if Product(step, level as real) * BPS >= minDistanceBps {
        levels := levels + [level as Level];
      }
    }
  }

  // ---- what the ladder promises ----

  ghost predicate Ascending(levels: seq<Level>) {
    forall i, j :: 0 <= i < j < |levels| ==> levels[i] < levels[j]
  }

  lemma {:induction false} ActiveLevelsAre(count: nat, step: real, minDistanceBps: real)
    ensures forall l :: l in ActiveLevels(count, step, minDistanceBps) <==> 1 <= l <= count && Product(step, l as real) * BPS >= minDistanceBps
  {
    if count > 0 {
      ActiveLevelsAre(count - 1, step, minDistanceBps);
    }
  }

  lemma {:induction false} ActiveLevelsAscend(count: nat, step: real, minDistanceBps: real)
    ensures Ascending(ActiveLevels(count, step, minDistanceBps))
  {
    if count > 0 {
      ActiveLevelsAscend(count - 1, step, minDistanceBps);
      ActiveLevelsAre(count - 1, step, minDistanceBps);
      var before := ActiveLevels(count - 1, step, minDistanceBps);
      assert forall i :: 0 <= i < |before| ==> before[i] in before;
    }
  }

  lemma {:induction false} LadderOrders(levels: seq<Level>, quotes: seq<real>, mid: real, step: real, m: Multipliers, minimum: real, r: Row)
    requires |levels| == |quotes| && r in Ladder(levels, quotes, mid, step, m, minimum)
    ensures r.level in levels && r.quote >= minimum && r == OrderAt(r.side, r.level, mid, step, r.quote)
  {
    var n := |levels| - 1;
    if r in Ladder(levels[..n], quotes[..n], mid, step, m, minimum) {
      LadderOrders(levels[..n], quotes[..n], mid, step, m, minimum, r);
    }
  }

  /** No (side, level) appears twice in a ladder. */
  lemma {:induction false} LadderKeysAreDistinct(levels: seq<Level>, quotes: seq<real>, mid: real, step: real, m: Multipliers, minimum: real)
    requires |levels| == |quotes| && Ascending(levels)
    ensures DistinctKeys(Ladder(levels, quotes, mid, step, m, minimum))
  {
    if levels != [] {
      var n := |levels| - 1;
      LadderKeysAreDistinct(levels[..n], quotes[..n], mid, step, m, minimum);
      var before := Ladder(levels[..n], quotes[..n], mid, step, m, minimum);
      forall r | r in before
        ensures r.level != levels[n]
      {
        LadderOrders(levels[..n], quotes[..n], mid, step, m, minimum, r);
      }
      DistinctConcat(before, LevelOrders(levels[n], mid, step, quotes[n], m, minimum));
    }
  }

  lemma DistinctConcat(a: seq<Row>, b: seq<Row>)
    requires DistinctKeys(a) && DistinctKeys(b)
    requires forall x, y :: x in a && y in b ==> x.PlanKey() != y.PlanKey()
    ensures DistinctKeys(a + b)
  {
  }

  lemma RankAt(side: Side, mid: real, step: real, level: real)
    ensures PriceRank(side, PriceAt(side, mid, Product(step, level)))
         == (if side == Buy then -mid else mid) + Product(mid * step, level)
  {
    MulReorders(mid, step, level);
  }

  lemma StepsApart(unit: real, x: real, y: real)
    requires unit > 0.0 && x + 1.0 <= y
    ensures Product(unit, y) - Product(unit, x) == Product(unit, y - x) && Product(unit, y - x) >= unit
  {
    MulAdds(unit, x, y - x);
    MulOrders(1.0, y - x, unit);
  }

  /** Prices of different levels on one side differ by the step for every level between them. */
  lemma LevelsAreSpaced(side: Side, la: Level, lb: Level, mid: real, step: real, qa: real, qb: real)
    requires mid > 0.0 && step > 0.0 && la < lb
    ensures var a, b := OrderAt(side, la, mid, step, qa), OrderAt(side, lb, mid, step, qb);
            && PriceRank(side, b.price) - PriceRank(side, a.price) == Product(mid * step, (lb - la) as real)
            && PriceRank(side, b.price) - PriceRank(side, a.price) >= mid * step
    ensures mid * step > 0.0
  {
    RankAt(side, mid, step, la as real);
    RankAt(side, mid, step, lb as real);
    MulIsPositive(mid, step);
    StepsApart(mid * step, la as real, lb as real);
    assert (lb as real) - (la as real) == (lb - la) as real;
  }

  lemma FractionUnderBand(band: real, n: real, l: real)
    requires 0.0 < band < 100.0 && 0.0 < l <= n
    ensures 0.0 < Product(band / n / 100.0, l) < 1.0
  {
    DivIsPositive(band, n);
    DivCancels(band, n);
    MulOrders(l, n, band / n);
    MulIsPositive(band / n, l);
    assert band / n / 100.0 * l == band / n * l / 100.0;
  }

  lemma LevelIsUnderBand(cfg: LadderConfig, level: Level)
    requires cfg.levels > 0 && 0.0 < cfg.priceBandPct < 100.0 && level <= cfg.levels
    ensures 0.0 < Product(StepPct(cfg), level as real) < 1.0
  {
    FractionUnderBand(cfg.priceBandPct, cfg.levels as real, level as real);
  }

  lemma PriceStraddlesMid(side: Side, mid: real, d: real)
    requires mid > 0.0 && 0.0 < d < 1.0
    ensures PriceAt(side, mid, d) > 0.0
    ensures if side == Buy then PriceAt(side, mid, d) < mid else mid < PriceAt(side, mid, d)
  {
    MulIsPositive(mid, 1.0 - d);
    MulOrdersStrictly(1.0 - d, 1.0, mid);
    MulOrdersStrictly(1.0, 1.0 + d, mid);
  }

  lemma OrderStraddlesMid(side: Side, level: Level, mid: real, step: real, quote: real)
    requires mid > 0.0 && 0.0 < Product(step, level as real) < 1.0
    ensures var a := OrderAt(side, level, mid, step, quote);
            && (side == Buy ==> 0.0 < a.price < mid)
            && (side == Sell ==> mid < a.price)
            && Product(a.amount, a.price) == quote
  {
    PriceStraddlesMid(side, mid, Product(step, level as real));
    DivCancels(quote, PriceAt(side, mid, Product(step, level as real)));
  }

  /** With a band under 100%, bids are positive and below mid and asks are above it; every order's
      amount times its price is its budget. */
  lemma LadderStraddlesMid(cfg: LadderConfig, levels: seq<Level>, quotes: seq<real>, mid: real, m: Multipliers, a: Row)
    requires cfg.levels > 0 && 0.0 < cfg.priceBandPct < 100.0 && mid > 0.0
    requires |levels| == |quotes| && forall l :: l in levels ==> l <= cfg.levels
    requires a in Ladder(levels, quotes, mid, StepPct(cfg), m, cfg.minOrderQuote)
    ensures a.side == Buy ==> 0.0 < a.price < mid
    ensures a.side == Sell ==> mid < a.price
    ensures Product(a.amount, a.price) == a.quote
  {
    LadderOrders(levels, quotes, mid, StepPct(cfg), m, cfg.minOrderQuote, a);
    LevelIsUnderBand(cfg, a.level);
    OrderStraddlesMid(a.side, a.level, mid, StepPct(cfg), a.quote);
  }

  lemma BandWithinStep(threshold: real, step: real, mid: real)
    requires mid > 0.0 && 2.0 * threshold <= step * BPS
    ensures 2.0 * threshold * mid / BPS <= mid * step
  {
    MulOrders(2.0 * threshold, step * BPS, mid);
    DivOrders(2.0 * threshold * mid, step * BPS * mid, BPS);
    MulReorders(step, BPS, mid);
    MulDivCancels(step * mid, BPS);
  }

  /** Different levels of one side are at least a gap apart, further levels further from mid. */
  ghost predicate Apart(rows: seq<Row>, gap: real) {
    forall a, b :: a in rows && b in rows && a.side == b.side && a.level < b.level ==>
      PriceRank(b.side, b.price) - PriceRank(a.side, a.price) >= gap
  }

  lemma UnroundedLadderIsApart(levels: seq<Level>, quotes: seq<real>, mid: real, step: real, m: Multipliers, minimum: real)
    requires |levels| == |quotes| && mid > 0.0 && step > 0.0
    ensures Apart(Ladder(levels, quotes, mid, step, m, minimum), Product(mid, step)) && Product(mid, step) > 0.0
  {
    var rows := Ladder(levels, quotes, mid, step, m, minimum);
    MulIsPositive(mid, step);
    forall a, b | a in rows && b in rows && a.side == b.side && a.level < b.level
      ensures PriceRank(b.side, b.price) - PriceRank(a.side, a.price) >= Product(mid, step)
    {
      LadderOrders(levels, quotes, mid, step, m, minimum, a);
      LadderOrders(levels, quotes, mid, step, m, minimum, b);
      LevelsAreSpaced(a.side, a.level, b.level, mid, step, a.quote, b.quote);
    }
  }

  /** An unrounded ladder is strictly ordered on each side, and spaced for any band of at most half
      a level: the hypothesis of the no-drift result. */
  lemma UnroundedLadderIsSpaced(levels: seq<Level>, quotes: seq<real>, mid: real, step: real, m: Multipliers, minimum: real, thresholdBps: real)
    requires |levels| == |quotes| && mid > 0.0 && step > 0.0
    requires 2.0 * thresholdBps <= step * BPS
    ensures Spaced(Ladder(levels, quotes, mid, step, m, minimum), mid, thresholdBps)
  {
    BandWithinStep(thresholdBps, step, mid);
    UnroundedLadderIsApart(levels, quotes, mid, step, m, minimum);
  }

  /** The ladder the builder returns never repeats a side and level and keeps its levels a step of mid
      apart, so it is spaced for every band of at most half a level, whichever levels the minimum distance
      leaves active. */
  lemma BuiltLadderIsSpaced(cfg: LadderConfig, mid: real, m: Multipliers, thresholdBps: real)
    requires cfg.levels > 0 && cfg.priceBandPct > 0.0 && mid > 0.0 && cfg.depthShape != OtherShape
    ensures var levels := ActiveLevels(cfg.levels, StepPct(cfg), cfg.minDistanceBps);
            && |QuoteByLevel(|levels|, cfg)| == |levels|
            && var ladder := Ladder(levels, QuoteByLevel(|levels|, cfg), mid, StepPct(cfg), m, cfg.minOrderQuote);
               DistinctKeys(ladder) && Apart(ladder, Product(mid, StepPct(cfg)))
               && (2.0 * thresholdBps <= StepPct(cfg) * BPS ==> Spaced(ladder, mid, thresholdBps))
  {
    var levels := ActiveLevels(cfg.levels, StepPct(cfg), cfg.minDistanceBps);
    SizingConservesBudget(|levels|, cfg);
    ActiveLevelsAscend(cfg.levels, StepPct(cfg), cfg.minDistanceBps);
    LadderKeysAreDistinct(levels, QuoteByLevel(|levels|, cfg), mid, StepPct(cfg), m, cfg.minOrderQuote);
    UnroundedLadderIsApart(levels, QuoteByLevel(|levels|, cfg), mid, StepPct(cfg), m, cfg.minOrderQuote);
    if 2.0 * thresholdBps <= StepPct(cfg) * BPS {
      UnroundedLadderIsSpaced(levels, QuoteByLevel(|levels|, cfg), mid, StepPct(cfg), m, cfg.minOrderQuote, thresholdBps);
    }
  }

  // ---- the two-sided budget ----

  function TotalQuote(rows: seq<Row>): real {
    if rows == [] then 0.0 else TotalQuote(rows[..|rows| - 1]) + rows[|rows| - 1].quote
  }

  lemma {:induction false} TotalQuoteConcat(a: seq<Row>, b: seq<Row>)
    ensures TotalQuote(a + b) == TotalQuote(a) + TotalQuote(b)
  {
    if b == [] {
      assert a + b == a;
    } else {
      var n := |b| - 1;
      TotalQuoteConcat(a, b[..n]);
      assert (a + b)[..|a + b| - 1] == a + b[..n];
    }
  }

  lemma PairQuote(level: Level, mid: real, step: real, quote: real, m: Multipliers, minimum: real)
    requires m.buy + m.sell == 2.0 && Product(quote, m.buy) >= minimum && Product(quote, m.sell) >= minimum
    ensures |LevelOrders(level, mid, step, quote, m, minimum)| == 2
    ensures TotalQuote(LevelOrders(level, mid, step, quote, m, minimum)) == 2.0 * quote
  {
    var buy, sell := OrderAt(Buy, level, mid, step, Product(quote, m.buy)), OrderAt(Sell, level, mid, step, Product(quote, m.sell));
    TotalQuoteConcat([buy], [sell]);
    assert TotalQuote([buy]) == buy.quote && TotalQuote([sell]) == sell.quote;
    MulAdds(quote, m.buy, m.sell);
  }

  ghost predicate NoneDropped(quotes: seq<real>, m: Multipliers, minimum: real) {
    forall n :: 0 <= n < |quotes| ==> Product(quotes[n], m.buy) >= minimum && Product(quotes[n], m.sell) >= minimum
  }

  /** When no order is dropped, the two sides together spend exactly twice the level budget,
      whatever the skew. */
  lemma {:induction false} SkewedLadderConservesBudget(levels: seq<Level>, quotes: seq<real>, mid: real, step: real, m: Multipliers, minimum: real)
    requires |levels| == |quotes| && m.buy + m.sell == 2.0 && NoneDropped(quotes, m, minimum)
    ensures TotalQuote(Ladder(levels, quotes, mid, step, m, minimum)) == 2.0 * Sum(quotes)
    ensures |Ladder(levels, quotes, mid, step, m, minimum)| == 2 * |levels|
  {
    if levels != [] {
      var n := |levels| - 1;
      assert NoneDropped(quotes[..n], m, minimum);
      SkewedLadderConservesBudget(levels[..n], quotes[..n], mid, step, m, minimum);
      PairQuote(levels[n], mid, step, quotes[n], m, minimum);
      TotalQuoteConcat(Ladder(levels[..n], quotes[..n], mid, step, m, minimum), LevelOrders(levels[n], mid, step, quotes[n], m, minimum));
    }
  }
}
