/** The shape of a built ladder: where its levels lie, how the budget grows with distance, and how inventory
    leans the two sides. */
module LadderShape {
  import opened Numbers
  import opened LadderMatching
  import opened MarketMaking

  // ---- distances ----

  lemma StepsMakeBand(band: real, n: real)
    requires n > 0.0
    ensures Product(band / n / 100.0, n) == band / 100.0
  {
    DivCancels(band, n);
    assert band / n / 100.0 * n == band / n * n / 100.0;
  }

  /** The outermost level lies exactly the price band from mid. */
  lemma OutermostLevelIsBand(cfg: LadderConfig)
    requires cfg.levels > 0
    ensures Product(StepPct(cfg), cfg.levels as real) == cfg.priceBandPct / 100.0
  {
    StepsMakeBand(cfg.priceBandPct, cfg.levels as real);
  }

  // ---- budget by level ----

  lemma ShareOfOneMore(extra: real, w: real, total: real)
    requires total != 0.0
    ensures Share(extra, w + 1.0, total) - Share(extra, w, total) == extra / total
    ensures Share(extra, 1.0, total) == extra / total && Share(0.0, w, total) == 0.0
  {
    MulAdds(extra, w, 1.0);
    DivAdds(extra * w, extra, total);
  }

  lemma WeightsAscendByOne(n: nat, i: nat)
    requires i < n
    ensures |Weights(n)| == n && Weights(n)[i] == (i + 1) as real && Sum(Weights(n)) > 0.0
  {
    WeightsArePositive(n);
  }

  /** A flat ladder gives every level the configured quote. */
  lemma FlatLevelsAreEqual(n: nat, cfg: LadderConfig, i: nat)
    requires cfg.depthShape == Flat && i < n
    ensures |QuoteByLevel(n, cfg)| == n && QuoteByLevel(n, cfg)[i] == cfg.quotePerLevel
  {
    WeightsAscendByOne(n, i);
    SizedIs(Weights(n), cfg.quotePerLevel, 0.0, Sum(Weights(n)));
    ShareOfOneMore(0.0, Weights(n)[i], Sum(Weights(n)));
  }

  /** A linear ladder grows by the same amount from each level to the next, starting that amount above the
      minimum order when the budget covers the minimum everywhere, and above zero otherwise. */
  lemma LinearLevelsGrowEvenly(n: nat, cfg: LadderConfig, i: nat)
    requires cfg.depthShape == Linear && i < n
    ensures |QuoteByLevel(n, cfg)| == n
    ensures var q := QuoteByLevel(n, cfg);
            var base := if cfg.minOrderQuote > 0.0 && Product(cfg.quotePerLevel, n as real) >= Product(cfg.minOrderQuote, n as real)
                        then cfg.minOrderQuote else 0.0;
            q[i] - (if i == 0 then base else q[i - 1]) == q[0] - base
  {
    var ws := Weights(n);
    var total, floor := Product(cfg.quotePerLevel, n as real), Product(cfg.minOrderQuote, n as real);
    WeightsAscendByOne(n, i);
    WeightsAscendByOne(n, 0);
    SizedIs(ws, cfg.minOrderQuote, total - floor, Sum(ws));
    SizedIs(ws, 0.0, total, Sum(ws));
    if i > 0 {
      WeightsAscendByOne(n, i - 1);
      ShareOfOneMore(total - floor, ws[i - 1], Sum(ws));
      ShareOfOneMore(total, ws[i - 1], Sum(ws));
    }
    ShareOfOneMore(total - floor, ws[0], Sum(ws));
    ShareOfOneMore(total, ws[0], Sum(ws));
  }

  // ---- inventory ----

  /** The lean grows in proportion to how far the inventory is outside its band, until one side is empty at
      the maximum deviation, and is mirrored for inventory as far below the target. */
  lemma LeanIsProportional(cfg: LadderConfig, distance: real)
    requires cfg.inventoryControl && distance > 0.0 && 0.0 <= cfg.inventoryBand < cfg.inventoryMaxDeviation
    ensures var above := InventoryMultipliers(cfg, Some(cfg.inventoryTarget + distance));
            var below := InventoryMultipliers(cfg, Some(cfg.inventoryTarget - distance));
            var lean := (distance - cfg.inventoryBand) / (cfg.inventoryMaxDeviation - cfg.inventoryBand);
            && above.buy == below.sell && above.sell == below.buy
            && (distance <= cfg.inventoryBand ==> above == Multipliers(1.0, 1.0))
            && (cfg.inventoryBand < distance <= cfg.inventoryMaxDeviation ==> above == Multipliers(1.0 - lean, 1.0 + lean))
            && (distance >= cfg.inventoryMaxDeviation ==> above == Multipliers(0.0, 2.0))
  {
    var range := cfg.inventoryMaxDeviation - cfg.inventoryBand;
    DivOrders(distance - cfg.inventoryBand, range, range);
    MulDivCancels(1.0, range);
  }

  /** An order of a level exists exactly when its side's share of the level's budget covers the minimum, and
      spends that share. */
  lemma LevelOrdersAre(level: Level, mid: real, step: real, quote: real, m: Multipliers, minimum: real, r: Row)
    ensures r in LevelOrders(level, mid, step, quote, m, minimum)
            <==> r == OrderAt(r.side, level, mid, step, Product(quote, if r.side == Buy then m.buy else m.sell))
                 && Product(quote, if r.side == Buy then m.buy else m.sell) >= minimum
  {
    var orders := LevelOrders(level, mid, step, quote, m, minimum);
    if r == OrderAt(r.side, level, mid, step, Product(quote, if r.side == Buy then m.buy else m.sell))
       && Product(quote, if r.side == Buy then m.buy else m.sell) >= minimum {
      assert r == orders[0] || r == orders[|orders| - 1];
    }
  }

  lemma {:induction false} LadderOrderIsOfLevel(levels: seq<Level>, quotes: seq<real>, mid: real, step: real, m: Multipliers, minimum: real, r: Row)
      returns (n: nat)
    requires |levels| == |quotes| && r in Ladder(levels, quotes, mid, step, m, minimum)
    ensures n < |levels| && levels[n] == r.level && r in LevelOrders(levels[n], mid, step, quotes[n], m, minimum)
  {
    n := |levels| - 1;
    if r !in LevelOrders(levels[n], mid, step, quotes[n], m, minimum) {
      n := LadderOrderIsOfLevel(levels[..n], quotes[..n], mid, step, m, minimum, r);
    } else {
      LevelOrdersAre(levels[n], mid, step, quotes[n], m, minimum, r);
    }
  }

  lemma SharesAreOrdered(quote: real, less: real, more: real)
    requires quote >= 0.0 && less <= more
    ensures Product(quote, less) <= Product(quote, more)
  {
    MulOrders(less, more, quote);
  }

  /** Inventory above target never buys more than it sells at any level, and inventory below never sells more
      than it buys. */
  lemma LadderLeansAgainstInventory(cfg: LadderConfig, levels: seq<Level>, quotes: seq<real>, mid: real, inventory: real, bid: Row, ask: Row)
    requires |levels| == |quotes| && Ascending(levels) && cfg.levels > 0 && cfg.inventoryControl && forall n :: 0 <= n < |quotes| ==> quotes[n] >= 0.0
    requires var ladder := Ladder(levels, quotes, mid, StepPct(cfg), InventoryMultipliers(cfg, Some(inventory)), cfg.minOrderQuote);
             bid in ladder && ask in ladder && bid.side == Buy && ask.side == Sell && bid.level == ask.level
    ensures inventory > cfg.inventoryTarget ==> bid.quote <= ask.quote
    ensures inventory < cfg.inventoryTarget ==> ask.quote <= bid.quote
  {
    var m := InventoryMultipliers(cfg, Some(inventory));
    var i := LadderOrderIsOfLevel(levels, quotes, mid, StepPct(cfg), m, cfg.minOrderQuote, bid);
    var j := LadderOrderIsOfLevel(levels, quotes, mid, StepPct(cfg), m, cfg.minOrderQuote, ask);
    assert i == j;
    LevelOrdersAre(levels[i], mid, StepPct(cfg), quotes[i], m, cfg.minOrderQuote, bid);
    LevelOrdersAre(levels[i], mid, StepPct(cfg), quotes[i], m, cfg.minOrderQuote, ask);
    SkewKeepsTotal(cfg, Some(inventory));
    if m.buy <= m.sell {
      SharesAreOrdered(quotes[i], m.buy, m.sell);
    }
    if m.sell <= m.buy {
      SharesAreOrdered(quotes[i], m.sell, m.buy);
    }
  }
}
